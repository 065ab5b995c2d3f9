/** One page, one replica: what serving a page does to the convergence guarantee. Two kinds of
    item lists reach a client: a slice of the change history (a delta), or the rest of a first
    listing of live cards, which holds no deletions. */
module PageSafety {
  import opened Basics
  import opened History
  import opened SyncItems

  /** What a client that is part-way through a first listing taken at revision `bound` may rely
      on: what it has is part of the listed state, and what it lacks is still to come. */
  ghost predicate InitialRest(r: Replica, items: seq<Change>, log: seq<Change>, bound: nat, k: nat) {
    && bound <= |log|
    && (forall x :: x in r ==> x in StateAt(log, bound) && r[x] == StateAt(log, bound)[x])
    && (forall x :: x in StateAt(log, bound) ==> x in r || x in Hrefs(items))
    && ListedFrom(items, log, bound, k)
  }

  /** Items of a listing taken at revision `bound`: live cards in revision order, each with the
      revision of a change to it, or 0 when its journal rows are gone. */
  ghost predicate ListedFrom(items: seq<Change>, log: seq<Change>, bound: nat, k: nat)
    requires bound <= |log|
  {
    && DistinctHrefs(items)
    && (forall i, j :: 0 <= i < j < |items| ==> items[i].revision <= items[j].revision)
    && (forall i :: 0 <= i < |items| ==>
          && !items[i].deleted
          && items[i].href in StateAt(log, bound)
          && items[i].etag == StateAt(log, bound)[items[i].href]
          && k <= items[i].revision <= bound
          && (0 < items[i].revision ==> log[items[i].revision - 1].href == items[i].href))
  }

  /** The token of a page of the history slice (k, m]: inside the slice, and past k when the page
      is truncated or holds anything. */
  lemma DeltaToken(log: seq<Change>, k: nat, m: nat, head: nat, limit: int)
    requires Numbered(log) && k <= m <= |log|
    requires head <= m && (m == k ==> head == k)
    ensures var p := CutPage(head, log[k..m], limit);
      && k <= p.tokenRevision <= m
      && p.items == log[k..p.tokenRevision]
      && p.remaining == log[p.tokenRevision..m]
      && (if p.truncated then k < p.tokenRevision < m else p.tokenRevision == m)
  {
    var p := CutPage(head, log[k..m], limit);
    if k < m { assert log[k..m][|p.items| - 1] == log[k + |p.items| - 1]; }
  }

  /** A page of the history slice (k, m] moves a client from k to the page's token. */
  lemma DeltaPage(r: Replica, log: seq<Change>, k: nat, m: nat, bound: nat, head: nat, limit: int)
    requires Numbered(log) && k <= m <= |log| && Agrees(r, log, k, bound)
    requires head <= m && (m == k ==> head == k)
    ensures var p := CutPage(head, log[k..m], limit);
      && p.tokenRevision <= |log|
      && Agrees(ApplyPage(r, p), log, p.tokenRevision, bound)
  {
    var p := CutPage(head, log[k..m], limit);
    DeltaToken(log, k, m, head, limit);
    ApplyPageIsReplay(r, p);
    ReplayAdvances(r, log, k, p.tokenRevision, bound);
  }

  /** Replaying listed items only adds live cards. */
  lemma {:induction false} ListedReplay(r: Replica, items: seq<Change>, log: seq<Change>, bound: nat, k: nat, x: Href)
    requires bound <= |log| && ListedFrom(items, log, bound, k)
    ensures Get(Replay(r, items), x) == if x in Hrefs(items) then Get(StateAt(log, bound), x) else Get(r, x)
  {
    if x in Hrefs(items) {
      var c :| c in items && c.href == x;
      DistinctReplayLookup(r, items, c);
    } else {
      ReplayUntouched(r, items, x);
    }
  }

  /** A cut splits the items and serves no more than the limit; it truncates exactly when there is
      more, and a truncated page ends where the rest begins. */
  lemma CutSplits(head: nat, items: seq<Change>, limit: int)
    ensures var p := CutPage(head, items, limit);
      && items == p.items + p.remaining
      && Hrefs(items) == Hrefs(p.items) + Hrefs(p.remaining)
      && (p.truncated <==> p.remaining != [])
      && (p.truncated <==> 0 < limit < |items|)
      && (limit > 0 ==> |p.items| <= limit) && (p.truncated ==> |p.items| == limit)
      && (p.truncated ==> p.items != [] && p.tokenRevision == p.items[|p.items| - 1].revision)
  {
    var p := CutPage(head, items, limit);
    HrefsConcat(p.items, p.remaining);
  }

  /** The token of a page, in numbers: a truncated page carries the revision of its last item; the last
      page carries the head, or the revision of its last item if writes have outrun the head. */
  lemma PageTokenIs(head: nat, items: seq<Change>, limit: int)
    ensures var p := CutPage(head, items, limit);
      && (0 < limit < |items| ==> p.tokenRevision == items[limit - 1].revision)
      && (!(0 < limit < |items|) && items != [] ==>
            p.tokenRevision >= head && p.tokenRevision >= items[|items| - 1].revision
            && (p.tokenRevision == head || p.tokenRevision == items[|items| - 1].revision))
      && (items == [] ==> p.tokenRevision == head)
  {}

  lemma PartsListed(a: seq<Change>, b: seq<Change>, log: seq<Change>, bound: nat, k: nat)
    requires bound <= |log| && ListedFrom(a + b, log, bound, k)
    ensures ListedFrom(a, log, bound, k)
    ensures ListedFrom(b, log, bound, if a == [] then k else a[|a| - 1].revision)
  {
    var all := a + b;
    assert forall i :: 0 <= i < |a| ==> a[i] == all[i];
    assert forall i :: 0 <= i < |b| ==> b[i] == all[|a| + i];
  }

  /** A live card that has not changed since the page's token is not among the items cut off. */
  lemma UnchangedIsServed(items: seq<Change>, log: seq<Change>, bound: nat, k: nat, head: nat, limit: int, x: Href)
    requires bound <= |log| && ListedFrom(items, log, bound, k)
    requires CutPage(head, items, limit).truncated && CutPage(head, items, limit).tokenRevision <= bound
    requires !ChangedIn(log, CutPage(head, items, limit).tokenRevision, bound, x)
    ensures x !in Hrefs(CutPage(head, items, limit).remaining)
  {
    var p := CutPage(head, items, limit);
    var n := |p.items|;
    forall i | 0 <= i < |p.remaining| ensures p.remaining[i].href != x {
      var c := p.remaining[i];
      assert items[n + i] == c && items[n - 1].revision == p.tokenRevision;
      if c.revision == 0 { LiveWasChanged(log, bound, c.href); }
      assert items[n - 1].href != c.href;
    }
  }

  /** The token of a page of a first listing. */
  lemma InitialToken(items: seq<Change>, log: seq<Change>, bound: nat, k: nat, head: nat, limit: int)
    requires bound <= |log| && ListedFrom(items, log, bound, k)
    requires head <= bound && (items == [] ==> k <= head)
    ensures k <= CutPage(head, items, limit).tokenRevision <= bound
    ensures !CutPage(head, items, limit).truncated ==> head <= CutPage(head, items, limit).tokenRevision
  {}

  /** After a page of a first listing the replica agrees with the page's token up to the
      listing's revision. */
  lemma InitialPageAgrees(r: Replica, items: seq<Change>, log: seq<Change>, bound: nat, k: nat, head: nat, limit: int)
    requires InitialRest(r, items, log, bound, k)
    requires head <= bound && (items == [] ==> k <= head)
    ensures var p := CutPage(head, items, limit);
      && p.tokenRevision <= |log|
      && Agrees(ApplyPage(r, p), log, p.tokenRevision, bound)
  {
    var p := CutPage(head, items, limit);
    var t := p.tokenRevision;
    InitialToken(items, log, bound, k, head, limit);
    ApplyPageIsReplay(r, p);
    CutSplits(head, items, limit);
    PartsListed(p.items, p.remaining, log, bound, k);
    forall x | !ChangedIn(log, t, bound, x)
      ensures Get(Replay(r, p.items), x) == Get(StateAt(log, t), x)
    {
      ListedReplay(r, p.items, log, bound, k, x);
      StateUnchanged(log, t, bound, x);
      if p.truncated { UnchangedIsServed(items, log, bound, k, head, limit, x); }
    }
  }

  /** What was cut off a first listing is again the rest of that listing. */
  lemma InitialPageRest(r: Replica, items: seq<Change>, log: seq<Change>, bound: nat, k: nat, head: nat, limit: int)
    requires InitialRest(r, items, log, bound, k)
    requires CutPage(head, items, limit).truncated
    ensures var p := CutPage(head, items, limit);
      InitialRest(ApplyPage(r, p), p.remaining, log, bound, p.tokenRevision)
  {
    var p := CutPage(head, items, limit);
    var r' := Replay(r, p.items);
    ApplyPageIsReplay(r, p);
    CutSplits(head, items, limit);
    PartsListed(p.items, p.remaining, log, bound, k);
    forall x
      ensures x in r' ==> x in StateAt(log, bound) && r'[x] == StateAt(log, bound)[x]
      ensures x in StateAt(log, bound) ==> x in r' || x in Hrefs(p.remaining)
    {
      ListedReplay(r, p.items, log, bound, k, x);
      if x in Hrefs(p.items) {
        var c :| c in p.items && c.href == x;
        assert x in StateAt(log, bound);
      }
    }
  }
}
