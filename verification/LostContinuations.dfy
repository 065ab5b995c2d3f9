/** A first sync whose continuation cursor is lost: evicted, expired or never stored. Its token then
    replays the journal or is refused, however long the client waited. */
module LostContinuations {
  import opened Basics
  import opened History
  import opened SyncItems
  import opened PageSafety
  import opened CardStore
  import opened StoreInvariant
  import opened StoreReads
  import opened SyncCollection

  /** What a client holds after some pages of one listing, its token, and what was not served. */
  datatype Served = Served(replica: Replica, token: nat, rest: seq<Change>)

  /** One page per limit; every page after the first is a continuation. */
  function ServePages(head: nat, listing: seq<Change>, limits: seq<int>): Served {
    if limits == [] then Served(map[], 0, listing)
    else
      var n := |limits| - 1;
      var before := ServePages(head, listing, limits[..n]);
      var p := CutPage(head, before.rest, limits[n]);
      Served(ApplyPage(before.replica, p), p.tokenRevision, p.remaining)
  }

  /** A cut at k > 0 leaves only cards whose listed revision is later. */
  lemma CutIsStrict(items: seq<Change>, log: seq<Change>, bound: nat, k: nat, head: nat, limit: int)
    requires bound <= |log| && ListedFrom(items, log, bound, k) && CutPage(head, items, limit).truncated
    ensures var p := CutPage(head, items, limit);
      p.tokenRevision == 0 || forall i :: 0 <= i < |p.remaining| ==> p.tokenRevision < p.remaining[i].revision
  {
    var p := CutPage(head, items, limit);
    var last := |p.items| - 1;
    forall i | 0 <= i < |p.remaining| && p.tokenRevision > 0 ensures p.tokenRevision < p.remaining[i].revision {
      assert p.remaining[i] == items[last + 1 + i] && items[last].href != items[last + 1 + i].href;
    }
  }

  /** Where the client stands after at least one page, as long as something is left. */
  ghost predicate HalfServed(b: Book, served: Served) {
    && InitialRest(served.replica, served.rest, Log(b), |b.hist|, served.token)
    && Agrees(served.replica, Log(b), served.token, |b.hist|)
    && (served.token == 0 || forall i :: 0 <= i < |served.rest| ==> served.token < served.rest[i].revision)
    && (served.token == 0 ==> exists c :: c in StateListing(b) && c.revision == 0)
  }

  /** The next page of a listing, of which some part is still to come after it. */
  lemma NextPageHalfServes(b: Book, before: Served, head: nat, limit: int)
    requires InitialRest(before.replica, before.rest, Log(b), |b.hist|, before.token) && head <= |b.hist|
    requires CutPage(head, before.rest, limit).truncated
    ensures var p := CutPage(head, before.rest, limit);
      && InitialRest(ApplyPage(before.replica, p), p.remaining, Log(b), |b.hist|, p.tokenRevision)
      && Agrees(ApplyPage(before.replica, p), Log(b), p.tokenRevision, |b.hist|)
      && (p.tokenRevision == 0 || forall i :: 0 <= i < |p.remaining| ==> p.tokenRevision < p.remaining[i].revision)
  {
    InitialPageAgrees(before.replica, before.rest, Log(b), |b.hist|, before.token, head, limit);
    InitialPageRest(before.replica, before.rest, Log(b), |b.hist|, before.token, head, limit);
    CutIsStrict(before.rest, Log(b), |b.hist|, before.token, head, limit);
  }

  lemma CutMembers(head: nat, items: seq<Change>, limit: int)
    requires CutPage(head, items, limit).truncated
    ensures var p := CutPage(head, items, limit);
      && (forall c :: c in p.remaining ==> c in items)
      && exists c :: c in items && c.revision == p.tokenRevision
  {
    var p := CutPage(head, items, limit);
    assert items[|p.items| - 1] in items && p.items[|p.items| - 1] == items[|p.items| - 1];
  }

  lemma {:induction false} PagesHalfServe(hash: Hash, b: Book, head: nat, limits: seq<int>)
    requires BookOk(hash, b) && head <= |b.hist|
    requires ServePages(head, StateListing(b), limits).rest != []
    ensures var served := ServePages(head, StateListing(b), limits);
      && InitialRest(served.replica, served.rest, Log(b), |b.hist|, served.token)
      && (forall c :: c in served.rest ==> c in StateListing(b))
      && (limits != [] ==> HalfServed(b, served))
  {
    if limits == [] {
      ListingStartsFirstSync(hash, b);
    } else {
      var n := |limits| - 1;
      var before := ServePages(head, StateListing(b), limits[..n]);
      PagesHalfServe(hash, b, head, limits[..n]);
      NextPageHalfServes(b, before, head, limits[n]);
      CutMembers(head, before.rest, limits[n]);
    }
  }

  /** A card listed at revision 0 has lost its rows to a prune. */
  lemma ListedAtZeroWasPruned(hash: Hash, b: Book, href: Href)
    requires BookOk(hash, b) && TimeOrdered(b.hist) && href in b.cards && CardState(b, href).revision == 0
    ensures Floor(b) > 0
  {
    var log := Log(b);
    assert href in StateAt(log, |log|) by { assert href in Etags(b.cards); }
    LiveWasChanged(log, |log|, href);
    var i :| 0 <= i < |log| && log[i].href == href;
    if b.journal == b.hist { MaxRevisionBounds(b.journal, href, i); }
  }

  lemma UnservedChangedLater(rest: seq<Change>, log: seq<Change>, bound: nat, k: nat, x: Href)
    requires bound <= |log| && ListedFrom(rest, log, bound, k) && x in Hrefs(rest)
    requires k == 0 || forall i :: 0 <= i < |rest| ==> k < rest[i].revision
    ensures k < bound && x in Hrefs(log[k..])
  {
    var i :| 0 <= i < |rest| && rest[i].href == x;
    LiveWasChanged(log, bound, x);
    var j :| 0 <= j < bound && log[j].href == x && (k == 0 || j == rest[i].revision - 1);
    assert log[k..][j - k] == log[j];
  }

  /** Replaying everything after a token gives the present state, when the bound lies behind it. */
  lemma ReplayToTheEnd(r: Replica, log: seq<Change>, k: nat, bound: nat)
    requires Agrees(r, log, k, bound)
    ensures Replay(r, log[k..]) == StateAt(log, |log|)
  {
    assert log[k..] == log[k..|log|];
    ReplayAdvances(r, log, k, |log|, bound);
    AgreesExactly(Replay(r, log[k..]), log, |log|, bound);
  }

  lemma UnservedIsReplayed(log: seq<Change>, log': seq<Change>, served: Served, x: Href)
    requires ListedFrom(served.rest, log, |log|, served.token) && x in Hrefs(served.rest) && log <= log'
    requires served.token == 0 || forall i :: 0 <= i < |served.rest| ==> served.token < served.rest[i].revision
    ensures served.token < |log| && x in Hrefs(log'[served.token..])
  {
    UnservedChangedLater(served.rest, log, |log|, served.token, x);
    var c :| c in log[served.token..] && c.href == x;
    var i :| 0 <= i < |log| - served.token && log[served.token..][i] == c;
    assert log'[served.token..][i] == c;
  }

  /** What the journal gives a half-served client later. */
  lemma JournalServesRest(b: Book, later: Book, served: Served)
    requires HalfServed(b, served) && served.rest != [] && b.hist <= later.hist
    ensures served.token < |b.hist|
    ensures Hrefs(served.rest) <= Hrefs(Log(later)[served.token..])
    ensures Replay(served.replica, Log(later)[served.token..]) == StateAt(Log(later), |later.hist|)
  {
    var log, log' := Log(b), Log(later);
    assert served.rest[0].href in Hrefs(served.rest) by { assert served.rest[0] in served.rest; }
    forall x | x in Hrefs(served.rest) ensures served.token < |log| && x in Hrefs(log'[served.token..]) {
      UnservedIsReplayed(log, log', served, x);
    }
    AgreesExtends(served.replica, log, log', served.token, |log|);
    ReplayToTheEnd(served.replica, log', served.token, |log|);
  }

  lemma LostReadIsSafe(hash: Hash, b: Book, st: StoreState, id: BookId, served: Served, head: nat)
    requires id in st.books && BookOk(hash, st.books[id]) && TimeOrdered(st.books[id].hist)
    requires HalfServed(b, served) && served.rest != []
    requires b.hist <= st.books[id].hist && |b.hist| <= head <= |st.books[id].hist|
    ensures var read := ReadItems(st, Start(id, head, Some(served.token)));
      && (read.Err? <==> served.token < Floor(st.books[id]))
      && (read.Ok? ==> Hrefs(served.rest) <= Hrefs(read.value))
      && (read.Ok? ==> Replay(served.replica, read.value) == Etags(st.books[id].cards))
  {
    JournalServesRest(b, st.books[id], served);
    StaleIffBehindFloor(hash, st.books[id], served.token, head);
  }

  lemma CutAtZeroBehindFloor(hash: Hash, b: Book, served: Served)
    requires BookOk(hash, b) && TimeOrdered(b.hist) && HalfServed(b, served) && served.token == 0
    ensures Floor(b) > 0
  {
    var c :| c in StateListing(b) && c.revision == 0;
    assert c in StatesOf(b);
    ListedAtZeroWasPruned(hash, b, c.href);
  }

  lemma RunGrows(hash: Hash, st: StoreState, id: BookId, ops: seq<Op>)
    requires StoreOk(hash, st) && id in st.books && id in Run(hash, st, ops).books
    ensures var b, b' := st.books[id], Run(hash, st, ops).books[id];
      && BookOk(hash, b) && BookOk(hash, b') && b.hist <= b'.hist && Floor(b) <= Floor(b')
      && (TimeOrdered(b'.hist) ==> TimeOrdered(b.hist))
  {
    RunsKeep(hash, st, ops);
    var b, b' := st.books[id], Run(hash, st, ops).books[id];
    assert forall i :: 0 <= i < |b.hist| ==> b'.hist[i] == b.hist[i];
  }

  /** After any pages of a first listing that left something unserved, then any operations of any
      writers and both prunes, the token is offered without its cursor. A cut at 0 is refused; any
      other is refused exactly when it lies behind the retained journal; an accepted one gets a
      change to every card that was not served, and replaying what it gets gives exactly the
      server's cards. */
  lemma LostContinuationIsSafe(hash: Hash, st: StoreState, id: BookId, listHead: nat, limits: seq<int>, ops: seq<Op>, head: nat)
    requires StoreOk(hash, st) && id in st.books && listHead <= st.books[id].revision && limits != []
    requires ServePages(listHead, StateListing(st.books[id]), limits).rest != []
    requires id in Run(hash, st, ops).books && TimeOrdered(Run(hash, st, ops).books[id].hist)
    requires st.books[id].revision <= head <= Run(hash, st, ops).books[id].revision
    ensures var served := ServePages(listHead, StateListing(st.books[id]), limits);
      var later := Run(hash, st, ops);
      var read := ReadItems(later, Start(id, head, Some(served.token)));
      && (served.token == 0 ==> read.Err?)
      && (read.Err? <==> served.token < Floor(later.books[id]))
      && (read.Ok? ==> Hrefs(served.rest) <= Hrefs(read.value))
      && (read.Ok? ==> Replay(served.replica, read.value) == Etags(later.books[id].cards))
  {
    var b, later := st.books[id], Run(hash, st, ops);
    var served := ServePages(listHead, StateListing(b), limits);
    RunGrows(hash, st, id, ops);
    PagesHalfServe(hash, b, listHead, limits);
    LostReadIsSafe(hash, b, later, id, served, head);
    if served.token == 0 { CutAtZeroBehindFloor(hash, b, served); }
  }
}
