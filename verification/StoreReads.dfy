/** What the two sync reads return (ListCardChangesSince, ListCurrentCardSyncStates) and when a
    token is stale (internal/carddavx/sync.go). */
module StoreReads {
  import opened Basics
  import opened History
  import opened SyncItems
  import opened PageSafety
  import opened CardStore
  import opened StoreInvariant

  /** The gap check of SyncCollection. */
  predicate IsStale(token: nat, head: nat, changes: seq<Change>) {
    token < head && (changes == [] || changes[0].revision > token + 1)
  }

  /** How many of n rows numbered from floor + 1 on are not newer than `after`. */
  function Dropped(floor: nat, n: nat, after: int): (d: nat)
    ensures d <= n
  {
    if after <= floor then 0 else if after <= floor + n then after - floor else n
  }

  lemma {:induction false} KeepNewerRetained(rows: seq<Row>, floor: nat, after: int)
    requires forall i :: 0 <= i < |rows| ==> rows[i].change.revision == floor + i + 1
    ensures Keep(rows, NewerThan(after)) == rows[Dropped(floor, |rows|, after)..]
  {
    if rows != [] { KeepNewerRetained(rows[1..], floor + 1, after); }
  }

  lemma JournalNumbered(b: Book)
    requires Suffix(b.journal, b.hist) && Numbered(Log(b))
    ensures forall i :: 0 <= i < |b.journal| ==> b.journal[i].change.revision == Floor(b) + i + 1
  {
    forall i | 0 <= i < |b.journal| ensures b.journal[i].change.revision == Floor(b) + i + 1 {
      assert Log(b)[Floor(b) + i] == b.hist[Floor(b) + i].change;
    }
  }

  lemma SliceOfSuffix(journal: seq<Row>, hist: seq<Row>, from: nat)
    requires Suffix(journal, hist) && |hist| - |journal| <= from <= |hist|
    ensures Changes(journal[from - (|hist| - |journal|)..]) == Changes(hist)[from..]
  {
    assert journal[from - (|hist| - |journal|)..] == hist[from..];
  }

  /** With an unbroken journal a change read returns the history from max(after, floor) on. */
  lemma ChangesSinceIsSlice(hash: Hash, b: Book, after: nat)
    requires BookOk(hash, b) && TimeOrdered(b.hist) && after <= |b.hist|
    ensures 0 <= Floor(b)
    ensures ChangesSince(b.journal, after) == Log(b)[Max(after, Floor(b))..]
  {
    JournalNumbered(b);
    KeepNewerRetained(b.journal, Floor(b), after);
    SliceOfSuffix(b.journal, b.hist, Max(after, Floor(b)));
  }

  /** With an unbroken journal a token below the head is refused exactly when it lies behind the
      retained rows, and a change read is complete exactly when its token does not. */
  lemma StaleIffBehindFloor(hash: Hash, b: Book, token: nat, head: nat)
    requires BookOk(hash, b) && TimeOrdered(b.hist) && token <= head <= |b.hist|
    ensures IsStale(token, head, ChangesSince(b.journal, token)) <==> token < head && token < Floor(b)
    ensures ChangesSince(b.journal, token) == Log(b)[token..] <==> Floor(b) <= token || token == |b.hist|
  {
    ChangesSinceIsSlice(hash, b, token);
    var from := Max(token, Floor(b));
    if from < |b.hist| { assert Log(b)[from..][0] == Log(b)[from] && Log(b)[from].revision == from + 1; }
    assert |Log(b)[from..]| == |b.hist| - from;
  }

  /** A prune by revisions keeps exactly the rows of the last `keep` revisions that it finds. They
      are the last rows of the journal, whatever the clocks did, and `keep` of them if the journal
      is unbroken and has that many. */
  lemma MaxRevisionsPruneKeepsLast(hash: Hash, b: Book, keep: nat)
    requires BookOk(hash, b) && keep > 0
    ensures var kept := PruneBookByMaxRevisions(b, keep).journal;
      && (forall r :: r in kept <==> r in b.journal && r.change.revision > b.revision - keep)
      && Suffix(kept, b.journal)
      && (TimeOrdered(b.hist) ==> |kept| == if keep < |b.journal| then keep else |b.journal|)
  {
    PruneKeepsNewerRows(b, keep);
    if TimeOrdered(b.hist) { UnbrokenBookPruneCount(b, keep); }
  }

  lemma NewerRowsAreLast(journal: seq<Row>, after: int)
    requires Increasing(journal)
    ensures forall r :: r in Keep(journal, NewerThan(after)) <==> r in journal && r.change.revision > after
    ensures Suffix(Keep(journal, NewerThan(after)), journal)
  {
    KeepMembers(journal, NewerThan(after));
    KeepUpwardClosed(journal, NewerThan(after));
  }

  lemma PruneKeepsNewerRows(b: Book, keep: nat)
    requires Increasing(b.journal)
    ensures var kept := PruneBookByMaxRevisions(b, keep).journal;
      && (forall r :: r in kept <==> r in b.journal && r.change.revision > b.revision - keep)
      && Suffix(kept, b.journal)
  {
    NewerRowsAreLast(b.journal, b.revision - keep);
  }

  lemma UnbrokenPruneCount(journal: seq<Row>, floor: nat, keep: nat)
    requires forall i :: 0 <= i < |journal| ==> journal[i].change.revision == floor + i + 1
    ensures |Keep(journal, NewerThan(floor + |journal| - keep))| == if keep < |journal| then keep else |journal|
  {
    KeepNewerRetained(journal, floor, floor + |journal| - keep);
  }

  lemma UnbrokenBookPruneCount(b: Book, keep: nat)
    requires Suffix(b.journal, b.hist) && Numbered(Log(b)) && b.revision == |b.hist|
    ensures |PruneBookByMaxRevisions(b, keep).journal| == if keep < |b.journal| then keep else |b.journal|
  {
    JournalNumbered(b);
    UnbrokenPruneCount(b.journal, Floor(b), keep);
  }

  /** A prune by age keeps exactly the rows that are not older than the cutoff, and with ordered
      clocks they are the last rows. */
  lemma AgePruneKeepsYoungRows(hash: Hash, b: Book, cutoff: int)
    requires BookOk(hash, b)
    ensures forall r :: r in PruneBookByAge(b, cutoff).journal <==> r in b.journal && r.changedAt >= cutoff
    ensures TimeOrdered(b.hist) ==> Suffix(PruneBookByAge(b, cutoff).journal, b.journal)
  {
    KeepMembers(b.journal, NotOlderThan(cutoff));
    if TimeOrdered(b.hist) { KeepUpwardClosed(b.journal, NotOlderThan(cutoff)); }
  }

  lemma {:induction false} KeepFirstIsEarliest(rows: seq<Row>, p: Row -> bool, r: Row)
    requires Increasing(rows) && r in rows && p(r)
    ensures Keep(rows, p) != [] && Keep(rows, p)[0].change.revision <= r.change.revision
  {
    if p(rows[0]) {
      assert rows[0].change.revision <= r.change.revision;
    } else {
      assert r in rows[1..];
      KeepFirstIsEarliest(rows[1..], p, r);
    }
  }

  /** A token below the head is refused exactly when the row of the next revision is no longer in
      the journal; this needs no assumption on clocks. */
  lemma StaleIffNextRowGone(hash: Hash, b: Book, token: nat, head: nat)
    requires BookOk(hash, b) && token < head <= |b.hist|
    ensures IsStale(token, head, ChangesSince(b.journal, token)) <==> b.hist[token] !in b.journal
  {
    var kept := Keep(b.journal, NewerThan(token));
    KeepMembers(b.journal, NewerThan(token));
    assert Log(b)[token].revision == token + 1;
    if b.hist[token] in b.journal {
      KeepFirstIsEarliest(b.journal, NewerThan(token), b.hist[token]);
    } else if kept != [] {
      assert kept[0] in b.journal && RowOf(kept[0], b.hist);
      assert kept[0].change.revision > token;
    }
  }

  lemma {:induction false} MaxRevisionIsSomeRow(journal: seq<Row>, href: Href)
    ensures MaxRevision(journal, href) > 0 ==>
      exists r :: r in journal && r.change.href == href && r.change.revision == MaxRevision(journal, href)
  {
    if journal != [] {
      var n := |journal| - 1;
      MaxRevisionIsSomeRow(journal[..n], href);
      assert journal[n] in journal;
      if r :| r in journal[..n] && r.change.href == href && r.change.revision == MaxRevision(journal[..n], href) {
        assert r in journal;
      }
    }
  }

  lemma {:induction false} MaxRevisionBounds(journal: seq<Row>, href: Href, i: nat)
    requires i < |journal| && journal[i].change.href == href
    ensures journal[i].change.revision <= MaxRevision(journal, href)
  {
    if i < |journal| - 1 { MaxRevisionBounds(journal[..|journal| - 1], href, i); }
  }

  lemma ListedState(hash: Hash, b: Book, c: Change)
    requires BookOk(hash, b) && c in StatesOf(b)
    ensures !c.deleted && c.revision <= |b.hist|
    ensures c.href in StateAt(Log(b), |b.hist|) && c.etag == StateAt(Log(b), |b.hist|)[c.href]
    ensures c.revision > 0 ==> Log(b)[c.revision - 1].href == c.href
  {
    MaxRevisionIsSomeRow(b.journal, c.href);
    assert c.href in Etags(b.cards);
    if c.revision > 0 {
      var r :| r in b.journal && r.change.href == c.href && r.change.revision == c.revision;
      assert RowOf(r, b.hist);
    }
  }

  lemma SortedIsDistinct(items: seq<Change>)
    requires forall i, j :: 0 <= i < j < |items| ==> StateBefore(items[i], items[j])
    requires OnePerHref(set c | c in items)
    ensures DistinctHrefs(items)
  {
    forall i, j | 0 <= i < j < |items| ensures items[i].href != items[j].href {
      assert items[i] in items && items[j] in items;
      StateOrderIsTotal(items[i], items[j], items[i]);
    }
  }

  /** A first listing is the whole of a first sync, whatever was pruned: each card is live at the
      listing's revision, and its revision is that of a change to it or 0. */
  lemma ListingStartsFirstSync(hash: Hash, b: Book)
    requires BookOk(hash, b)
    ensures InitialRest(map[], StateListing(b), Log(b), |b.hist|, 0)
  {
    var items, log := StateListing(b), Log(b);
    SortedIsDistinct(items);
    forall c | c in StatesOf(b) { ListedState(hash, b, c); }
    forall i | 0 <= i < |items| ensures items[i] in StatesOf(b) {}
    assert ListedFrom(items, log, |log|, 0);
    forall h | h in StateAt(log, |log|) ensures h in Hrefs(items) {
      assert CardState(b, h) in items;
    }
  }
}
