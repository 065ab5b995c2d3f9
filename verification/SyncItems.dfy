/** Pages of sync-collection items: cutting, collapsing, rendering, and what a client makes of a
    page (internal/carddavx/sync.go). */
module SyncItems {
  import opened Basics
  import opened History

  /** Keep the last item of every href, in order (collapseSyncPageItems). */
  function Collapse(items: seq<Change>): seq<Change> {
    if items == [] then []
    else if items[0].href in Hrefs(items[1..]) then Collapse(items[1..])
    else [items[0]] + Collapse(items[1..])
  }

  /** m maps every href of the first n items to the index of its last item among them. */
  ghost predicate LastIndices(m: map<Href, nat>, items: seq<Change>, n: nat)
    requires n <= |items|
  {
    && (forall j :: 0 <= j < n ==> items[j].href in m && j <= m[items[j].href])
    && (forall h :: h in m ==> m[h] < n && items[m[h]].href == h)
  }

  /** The index of the last item of an href tells whether an item is the last one of its href. */
  lemma LastIndexTells(m: map<Href, nat>, items: seq<Change>, i: nat)
    requires i < |items| && LastIndices(m, items, |items|)
    ensures m[items[i].href] == i <==> items[i].href !in Hrefs(items[i + 1..])
  {
    var last := m[items[i].href];
    if last > i { assert items[i + 1..][last - i - 1] == items[last]; }
    if items[i].href in Hrefs(items[i + 1..]) {
      var c :| c in items[i + 1..] && c.href == items[i].href;
      var j :| 0 <= j < |items| - i - 1 && items[i + 1..][j] == c;
      assert items[i + 1 + j].href == items[i].href;
    }
  }

  lemma CollapseStep(items: seq<Change>, i: nat)
    requires i < |items|
    ensures Collapse(items[i..]) ==
            (if items[i].href in Hrefs(items[i + 1..]) then [] else [items[i]]) + Collapse(items[i + 1..])
  {
    assert items[i..][1..] == items[i + 1..];
  }

  /** The first loop of collapseSyncPageItems. */
  method LastIdxByHref(items: seq<Change>) returns (m: map<Href, nat>)
    ensures LastIndices(m, items, |items|)
  {
    m := map[];
    for i := 0 to |items|
      invariant LastIndices(m, items, i)
    {
      m := m[items[i].href := i];
    }
  }

  method CollapseSyncPageItems(items: seq<Change>) returns (out: seq<Change>)
    ensures out == Collapse(items)
  {
    var lastIdxByHref := LastIdxByHref(items);
    out := [];
    for i := 0 to |items|
      invariant out + Collapse(items[i..]) == Collapse(items)
    {
      CollapseStep(items, i);
      LastIndexTells(lastIdxByHref, items, i);
      if lastIdxByHref[items[i].href] == i {
        out := out + [items[i]];
      }
    }
  }

  lemma {:induction false} CollapseKeepsHrefs(items: seq<Change>)
    ensures Hrefs(Collapse(items)) == Hrefs(items)
    ensures |Collapse(items)| <= |items|
  {
    if items != [] {
      CollapseKeepsHrefs(items[1..]);
      HrefsConcat([items[0]], items[1..]);
      HrefsConcat([items[0]], Collapse(items[1..]));
      assert items == [items[0]] + items[1..];
      assert Hrefs([items[0]]) == {items[0].href};
    }
  }

  lemma HrefsConcat(a: seq<Change>, b: seq<Change>)
    ensures Hrefs(a + b) == Hrefs(a) + Hrefs(b)
  {
    forall x ensures x in Hrefs(a + b) <==> x in Hrefs(a) + Hrefs(b) {
      if x in Hrefs(a) { var c :| c in a && c.href == x; assert c in a + b; }
      if x in Hrefs(b) { var c :| c in b && c.href == x; assert c in a + b; }
    }
  }

  ghost predicate DistinctHrefs(items: seq<Change>) {
    forall i, j :: 0 <= i < j < |items| ==> items[i].href != items[j].href
  }

  /** Each href appears exactly once after collapsing. */
  lemma {:induction false} CollapseIsDistinct(items: seq<Change>)
    ensures DistinctHrefs(Collapse(items))
  {
    if items != [] {
      var rest := Collapse(items[1..]);
      CollapseIsDistinct(items[1..]);
      CollapseKeepsHrefs(items[1..]);
      if items[0].href !in Hrefs(items[1..]) {
        forall j | 0 <= j < |rest| ensures rest[j].href != items[0].href { assert rest[j] in rest; }
      }
    }
  }

  /** Collapsing does not change what a page does to a replica. */
  lemma {:induction false} CollapsePreservesReplay(m: Replica, items: seq<Change>)
    ensures Replay(m, Collapse(items)) == Replay(m, items)
    decreases |items|
  {
    if items != [] {
      var c, rest := items[0], items[1..];
      ReplayFirst(m, items);
      if c.href in Hrefs(rest) {
        CollapsePreservesReplay(m, rest);
        forall x ensures Get(Replay(m, rest), x) == Get(Replay(Effect(m, c), rest), x) {
          if x in Hrefs(rest) {
            ReplayForgets(m, Effect(m, c), rest, x);
          } else {
            ReplayUntouched(m, rest, x);
            ReplayUntouched(Effect(m, c), rest, x);
          }
        }
        SameLookupsSameMap(Replay(m, rest), Replay(Effect(m, c), rest));
      } else {
        CollapsePreservesReplay(Effect(m, c), rest);
        ReplayFirst(m, [c] + Collapse(rest));
        assert ([c] + Collapse(rest))[1..] == Collapse(rest);
      }
    }
  }

  function Flatten(pages: seq<seq<Change>>): seq<Change> {
    if pages == [] then [] else pages[0] + Flatten(pages[1..])
  }

  /** A replica after pages that were collapsed one at a time. */
  function ReplayPages(m: Replica, pages: seq<seq<Change>>): Replica
    decreases |pages|
  {
    if pages == [] then m else ReplayPages(Replay(m, Collapse(pages[0])), pages[1..])
  }

  /** Collapsing page by page, for any split into pages, is the same as applying the uncut list. */
  lemma {:induction false} CollapseByPages(m: Replica, pages: seq<seq<Change>>)
    ensures ReplayPages(m, pages) == Replay(m, Flatten(pages))
    decreases |pages|
  {
    if pages != [] {
      CollapsePreservesReplay(m, pages[0]);
      CollapseByPages(Replay(m, pages[0]), pages[1..]);
      ReplayConcat(m, pages[0], Flatten(pages[1..]));
    }
  }

  // ---- Cutting a page (buildPagedSyncResult, takeCursorPage) ----

  datatype Page = Page(tokenRevision: nat, items: seq<Change>, truncated: bool, remaining: seq<Change>)

  function PageTokenRevision(head: nat, pageItems: seq<Change>, truncated: bool): nat {
    if pageItems == [] then head
    else
      var last := pageItems[|pageItems| - 1].revision;
      if truncated then last
      else if last > head then last
      else head
  }

  function CutPage(head: nat, items: seq<Change>, limit: int): Page {
    if limit > 0 && |items| > limit then
      Page(PageTokenRevision(head, items[..limit], true), items[..limit], true, items[limit..])
    else
      Page(PageTokenRevision(head, items, false), items, false, [])
  }

  // ---- What the client receives ----

  datatype SyncRef = SyncRef(href: Href, etag: ETag)

  function Updated(items: seq<Change>): seq<SyncRef> {
    if items == [] then []
    else if items[0].deleted then Updated(items[1..])
    else [SyncRef(items[0].href, items[0].etag)] + Updated(items[1..])
  }

  function Deleted(items: seq<Change>): seq<Href> {
    if items == [] then []
    else if items[0].deleted then [items[0].href] + Deleted(items[1..])
    else Deleted(items[1..])
  }

  function ApplyUpdated(r: Replica, refs: seq<SyncRef>): Replica
    decreases |refs|
  {
    if refs == [] then r else ApplyUpdated(r[refs[0].href := refs[0].etag], refs[1..])
  }

  function ApplyDeleted(r: Replica, hrefs: seq<Href>): Replica {
    r - (set h | h in hrefs)
  }

  lemma {:induction false} UpdatedLookup(r: Replica, items: seq<Change>, x: Href)
    requires DistinctHrefs(items)
    ensures Get(ApplyUpdated(r, Updated(items)), x) ==
            if exists c :: c in items && c.href == x && !c.deleted
            then Get(Replay(r, items), x) else Get(r, x)
    decreases |items|
  {
    if items != [] {
      var c, rest := items[0], items[1..];
      assert items == [c] + rest;
      ReplayFirst(r, items);
      forall d | d in rest ensures d.href != c.href {}
      if c.deleted {
        UpdatedLookup(r, rest, x);
      } else {
        assert Updated(items)[1..] == Updated(rest);
        UpdatedLookup(r[c.href := c.etag], rest, x);
      }
      if x == c.href {
        ReplayUntouched(Effect(r, c), rest, x);
      } else if x in Hrefs(rest) {
        ReplayForgets(r, Effect(r, c), rest, x);
      }
    }
  }

  lemma {:induction false} DeletedMembers(items: seq<Change>, x: Href)
    ensures x in Deleted(items) <==> exists c :: c in items && c.href == x && c.deleted
  {
    if items != [] {
      assert items == [items[0]] + items[1..];
      DeletedMembers(items[1..], x);
    }
  }

  lemma {:induction false} DistinctReplayLookup(r: Replica, items: seq<Change>, c: Change)
    requires DistinctHrefs(items) && c in items
    ensures Get(Replay(r, items), c.href) == if c.deleted then None else Some(c.etag)
  {
    var n := |items| - 1;
    if items[n] == c {
    } else {
      assert c in items[..n];
      DistinctReplayLookup(r, items[..n], c);
      assert items[n].href != c.href;
    }
  }

  /** The two lists of a response may be applied in either order: both give what replaying the
      page item by item gives. */
  lemma ResponseOrderIrrelevant(r: Replica, items: seq<Change>)
    requires DistinctHrefs(items)
    ensures ApplyUpdated(ApplyDeleted(r, Deleted(items)), Updated(items)) == Replay(r, items)
    ensures ApplyDeleted(ApplyUpdated(r, Updated(items)), Deleted(items)) == Replay(r, items)
  {
    var a := ApplyUpdated(ApplyDeleted(r, Deleted(items)), Updated(items));
    var b := ApplyDeleted(ApplyUpdated(r, Updated(items)), Deleted(items));
    forall x ensures Get(a, x) == Get(Replay(r, items), x) == Get(b, x) {
      UpdatedLookup(ApplyDeleted(r, Deleted(items)), items, x);
      UpdatedLookup(r, items, x);
      DeletedMembers(items, x);
      if c :| c in items && c.href == x {
        DistinctReplayLookup(r, items, c);
        DistinctReplayLookup(ApplyDeleted(r, Deleted(items)), items, c);
        forall d | d in items && d.href == x ensures d == c {}
      } else {
        assert x !in Hrefs(items);
        ReplayUntouched(r, items, x);
      }
    }
    SameLookupsSameMap(a, Replay(r, items));
    SameLookupsSameMap(b, Replay(r, items));
  }

  /** What a client makes of a page: it applies the collapsed response. */
  function ApplyPage(r: Replica, p: Page): Replica {
    ApplyUpdated(ApplyDeleted(r, Deleted(Collapse(p.items))), Updated(Collapse(p.items)))
  }

  lemma ApplyPageIsReplay(r: Replica, p: Page)
    ensures ApplyPage(r, p) == Replay(r, p.items)
  {
    CollapseIsDistinct(p.items);
    ResponseOrderIrrelevant(r, Collapse(p.items));
    CollapsePreservesReplay(r, p.items);
  }
}
