/** The cache of continuation cursors as values (internal/carddavx/sync.go): expiry, insertion and
    the eviction that keeps both caps. */
module CursorCache {
  import opened Basics
  import opened History
  import opened CardStore
  import opened SyncItems
  import opened SyncTokens

  datatype Cursor = Cursor(book: BookId, head: nat, expires: int, items: seq<Change>)

  // Keyed by the formatted token. Times are in nanoseconds.
  type Cache = map<string, Cursor>

  // A cap of zero or less is switched off.
  datatype Caps = Caps(maxEntries: int, maxItems: int)

  const CURSOR_TTL: int := 120_000_000_000

  function PruneExpired(page: Cache, now: int): Cache {
    map k | k in page && now <= page[k].expires :: page[k]
  }

  ghost function TotalItems(page: Cache): nat
    decreases |page|
  {
    if page == map[] then 0
    else
      var k :| k in page;
      |page[k].items| + TotalItems(page - {k})
  }

  ghost predicate OverCap(page: Cache, caps: Caps) {
    (caps.maxEntries > 0 && |page| > caps.maxEntries) || (caps.maxItems > 0 && TotalItems(page) > caps.maxItems)
  }

  /** (expiry, key) order: what is evicted first comes first. */
  predicate Older(page: Cache, j: string, k: string)
    requires j in page && k in page
  {
    page[j].expires < page[k].expires || (page[j].expires == page[k].expires && Less(j, k))
  }

  ghost predicate IsOldest(page: Cache, k: string) {
    k in page && forall j :: j in page && j != k ==> Older(page, k, j)
  }

  lemma OlderIsTotal(page: Cache, a: string, b: string, c: string)
    requires a in page && b in page && c in page
    ensures a == b || Older(page, a, b) || Older(page, b, a)
    ensures !(Older(page, a, b) && Older(page, b, a))
    ensures Older(page, a, b) && Older(page, b, c) ==> Older(page, a, c)
  {
    LessIsTotal(a, b);
    LessIsIrreflexive(a);
    if Less(a, b) && Less(b, a) { LessIsTransitive(a, b, a); }
    if Less(a, b) && Less(b, c) { LessIsTransitive(a, b, c); }
  }

  lemma {:induction false} OldestExists(page: Cache)
    requires page != map[]
    ensures exists k :: IsOldest(page, k)
    decreases |page|
  {
    var k :| k in page;
    var rest := page - {k};
    if rest == map[] {
      assert forall j :: j in page ==> j == k || j in rest;
      assert IsOldest(page, k);
    } else {
      OldestExists(rest);
      var r :| IsOldest(rest, r);
      var m := if Older(page, k, r) then k else r;
      forall j | j in page && j != m ensures Older(page, m, j) {
        OlderIsTotal(page, k, r, j);
        assert j == k || j in rest;
      }
      assert IsOldest(page, m);
    }
  }

  lemma OldestIsUnique(page: Cache, j: string, k: string)
    requires IsOldest(page, j) && IsOldest(page, k)
    ensures j == k
  {
    OlderIsTotal(page, j, k, j);
  }

  ghost function Oldest(page: Cache): (k: string)
    requires page != map[]
    ensures IsOldest(page, k)
  {
    OldestExists(page);
    var k :| IsOldest(page, k);
    k
  }

  /** evictCursorsToCapLocked */
  ghost function Evict(page: Cache, caps: Caps): Cache
    decreases |page|
  {
    if page == map[] || !OverCap(page, caps) then page else Evict(page - {Oldest(page)}, caps)
  }

  /** A single cursor over the item cap is not cached. */
  predicate Refused(caps: Caps, items: seq<Change>) { caps.maxItems > 0 && |items| > caps.maxItems }

  /** putCursorLocked */
  ghost function PutCursor(page: Cache, caps: Caps, token: string, cur: Cursor, now: int): Cache {
    var swept := PruneExpired(page, now);
    if Refused(caps, cur.items) then swept else Evict(swept[token := cur], caps)
  }

  /** The continuation that a truncated page leaves behind; an untruncated one leaves nothing.
      The expiry and the sweep may use two clock readings. */
  ghost function StoreRest(page: Cache, caps: Caps, book: BookId, head: nat, p: Page, stamped: int, now: int): Cache {
    if p.truncated then
      PutCursor(page, caps, FormatSyncToken(book, p.tokenRevision), Cursor(book, head, stamped + CURSOR_TTL, p.remaining), now)
    else page
  }

  /** takeCursorPage: a hit consumes the cursor and may leave a shorter one under a later token. */
  ghost function TakeCursor(page: Cache, caps: Caps, book: BookId, revision: nat, limit: int, now: int): (Cache, Option<Page>) {
    var swept := PruneExpired(page, now);
    var key := FormatSyncToken(book, revision);
    if key !in swept || swept[key].book != book then (swept, None)
    else
      var cur := swept[key];
      var p := CutPage(cur.head, cur.items, limit);
      (StoreRest(swept - {key}, caps, book, cur.head, p, now, now), Some(p))
  }

  // ---- Counting ----

  lemma {:induction false} TotalItemsRemove(page: Cache, k: string)
    requires k in page
    ensures TotalItems(page) == |page[k].items| + TotalItems(page - {k})
    decreases |page|
  {
    var c :| c in page && TotalItems(page) == |page[c].items| + TotalItems(page - {c});
    if c != k {
      TotalItemsRemove(page - {c}, k);
      TotalItemsRemove(page - {k}, c);
      assert page - {c} - {k} == page - {k} - {c};
    }
  }

  lemma {:induction false} SmallerCacheCountsLess(small: Cache, page: Cache)
    requires small.Keys <= page.Keys && forall k :: k in small ==> small[k] == page[k]
    ensures |small| <= |page| && TotalItems(small) <= TotalItems(page)
    decreases |page|
  {
    if page != map[] {
      var k :| k in page;
      TotalItemsRemove(page, k);
      if k in small {
        TotalItemsRemove(small, k);
        SmallerCacheCountsLess(small - {k}, page - {k});
      } else {
        SmallerCacheCountsLess(small, page - {k});
      }
    }
  }

  // ---- What eviction leaves ----

  ghost predicate SubCache(small: Cache, page: Cache) {
    forall k :: k in small ==> k in page && small[k] == page[k]
  }

  /** The kept cursors are the young end of the (expiry, key) order. */
  ghost predicate YoungEnd(kept: Cache, page: Cache) {
    SubCache(kept, page) && forall j, k :: j in kept && k in page && Older(page, j, k) ==> k in kept
  }

  lemma YoungEndWithoutOldest(page: Cache, k: string, kept: Cache)
    requires IsOldest(page, k) && YoungEnd(kept, page - {k})
    ensures YoungEnd(kept, page)
  {
    forall i, j | i in kept && j in page && Older(page, i, j) ensures j in kept {
      OlderIsTotal(page, i, k, i);
      assert j == k || Older(page - {k}, i, j);
    }
  }

  lemma ProperYoungEnd(page: Cache, k: string, other: Cache)
    requires IsOldest(page, k) && YoungEnd(other, page) && other != page
    ensures YoungEnd(other, page - {k})
  {
    if k in other {
      forall j | j in page ensures j in other { assert j == k || Older(page, k, j); }
      assert false;
    }
    forall i, j | i in other && j in page - {k} && Older(page - {k}, i, j) ensures j in other {
      assert Older(page, i, j);
    }
  }

  /** Eviction keeps the largest young end that fits both caps, and nothing else does: the evicted
      cursors are the shortest prefix of the (expiry, key) order that restores the caps. */
  lemma {:induction false} EvictKeepsLargestYoungEnd(page: Cache, caps: Caps)
    ensures YoungEnd(Evict(page, caps), page)
    ensures !OverCap(Evict(page, caps), caps)
    ensures forall other :: YoungEnd(other, page) && !OverCap(other, caps) ==> SubCache(other, Evict(page, caps))
    decreases |page|
  {
    assert page == map[] ==> TotalItems(page) == 0;
    if page != map[] && OverCap(page, caps) {
      var k := Oldest(page);
      var kept := Evict(page - {k}, caps);
      EvictKeepsLargestYoungEnd(page - {k}, caps);
      YoungEndWithoutOldest(page, k, kept);
      forall other | YoungEnd(other, page) && !OverCap(other, caps) ensures SubCache(other, kept) {
        ProperYoungEnd(page, k, other);
      }
    }
  }

  /** The youngest cursor survives whenever it fits the item cap on its own. */
  lemma YoungestSurvives(page: Cache, caps: Caps, k: string)
    requires k in page && forall j :: j in page && j != k ==> Older(page, j, k)
    requires caps.maxItems > 0 ==> |page[k].items| <= caps.maxItems
    ensures k in Evict(page, caps)
  {
    EvictKeepsLargestYoungEnd(page, caps);
    var alone := map[k := page[k]];
    TotalItemsRemove(alone, k);
    assert alone - {k} == map[];
    forall i, j | i in alone && j in page && Older(page, i, j) ensures j in alone {
      OlderIsTotal(page, k, j, k);
    }
    assert YoungEnd(alone, page);
    assert SubCache(alone, Evict(page, caps));
  }

  // ---- Bounds over every cache operation ----

  lemma SubCacheFits(small: Cache, page: Cache, caps: Caps)
    requires SubCache(small, page) && !OverCap(page, caps)
    ensures !OverCap(small, caps)
  {
    SmallerCacheCountsLess(small, page);
  }

  /** After an insert both caps hold, whatever the cache held before; a refused insert keeps them. */
  lemma PutCursorFits(page: Cache, caps: Caps, token: string, cur: Cursor, now: int)
    ensures !Refused(caps, cur.items) || !OverCap(page, caps) ==> !OverCap(PutCursor(page, caps, token, cur, now), caps)
  {
    var swept := PruneExpired(page, now);
    EvictKeepsLargestYoungEnd(swept[token := cur], caps);
    if !OverCap(page, caps) { SubCacheFits(swept, page, caps); }
  }

  /** A request keeps the caps: hit, miss or continuation. */
  lemma TakeCursorFits(page: Cache, caps: Caps, book: BookId, revision: nat, limit: int, now: int)
    requires !OverCap(page, caps)
    ensures !OverCap(TakeCursor(page, caps, book, revision, limit, now).0, caps)
  {
    var swept := PruneExpired(page, now);
    var key := FormatSyncToken(book, revision);
    SubCacheFits(swept, page, caps);
    SubCacheFits(swept - {key}, page, caps);
    if key in swept {
      var cur := swept[key];
      var p := CutPage(cur.head, cur.items, limit);
      PutCursorFits(swept - {key}, caps, FormatSyncToken(book, p.tokenRevision), Cursor(book, cur.head, now + CURSOR_TTL, p.remaining), now);
    }
  }

  /** Where a cursor found after an insert comes from. */
  lemma PutCursorOrigin(page: Cache, caps: Caps, token: string, cur: Cursor, now: int, k: string)
    requires k in PutCursor(page, caps, token, cur, now)
    ensures var c := PutCursor(page, caps, token, cur, now)[k];
      if k == token && !Refused(caps, cur.items) then c == cur else k in page && c == page[k]
  {
    EvictKeepsLargestYoungEnd(PruneExpired(page, now)[token := cur], caps);
  }

  /** A request hits exactly when an unexpired cursor of its book lies under its token. */
  lemma TakeHitsIff(page: Cache, caps: Caps, book: BookId, revision: nat, limit: int, now: int)
    ensures var key := FormatSyncToken(book, revision);
      var t := TakeCursor(page, caps, book, revision, limit, now);
      && (t.1.Some? <==> key in page && now <= page[key].expires && page[key].book == book)
      && (t.1.Some? ==> t.1.value == CutPage(page[key].head, page[key].items, limit))
      && (t.1.Some? && !t.1.value.truncated ==> key !in t.0)
  {}

  // ---- The same, said of expiry times and counts ----

  /** Whatever is evicted expires before all that is kept, and at one time the smaller key goes first. */
  lemma EvictedExpireFirst(page: Cache, caps: Caps, gone: string, kept: string)
    requires gone in page && gone !in Evict(page, caps) && kept in Evict(page, caps)
    ensures kept in page && Evict(page, caps)[kept] == page[kept]
    ensures page[gone].expires < page[kept].expires || (page[gone].expires == page[kept].expires && Less(gone, kept))
  {
    EvictKeepsLargestYoungEnd(page, caps);
    OlderIsTotal(page, gone, kept, gone);
  }

  /** Nothing is evicted while both caps hold. */
  lemma EvictsOnlyOverCap(page: Cache, caps: Caps)
    requires caps.maxEntries > 0 ==> |page| <= caps.maxEntries
    requires caps.maxItems > 0 ==> TotalItems(page) <= caps.maxItems
    ensures Evict(page, caps) == page
  {}

  /** No more is evicted than needed: a cache that closes later expiries and greater keys and holds
      both caps is kept whole. */
  lemma EvictsNoMoreThanNeeded(page: Cache, caps: Caps, fitting: Cache)
    requires forall k :: k in fitting ==> k in page && fitting[k] == page[k]
    requires forall j, k ::
      (j in fitting && k in page && (page[j].expires < page[k].expires || (page[j].expires == page[k].expires && Less(j, k))))
      ==> k in fitting
    requires caps.maxEntries > 0 ==> |fitting| <= caps.maxEntries
    requires caps.maxItems > 0 ==> TotalItems(fitting) <= caps.maxItems
    ensures forall k :: k in fitting ==> k in Evict(page, caps)
  {
    assert YoungEnd(fitting, page);
    EvictKeepsLargestYoungEnd(page, caps);
  }

  /** The caps after an insert, as numbers. */
  lemma CapsHoldAfterPut(page: Cache, caps: Caps, token: string, cur: Cursor, now: int)
    requires (caps.maxItems > 0 ==> |cur.items| <= caps.maxItems)
      || ((caps.maxEntries > 0 ==> |page| <= caps.maxEntries) && (caps.maxItems > 0 ==> TotalItems(page) <= caps.maxItems))
    ensures var r := PutCursor(page, caps, token, cur, now);
      && (caps.maxEntries > 0 ==> |r| <= caps.maxEntries)
      && (caps.maxItems > 0 ==> TotalItems(r) <= caps.maxItems)
  {
    PutCursorFits(page, caps, token, cur, now);
  }

  function Unexpired(page: Cache, now: int): Cache {
    map k | k in page && page[k].expires >= now :: page[k]
  }

  /** An insert that leaves both caps in order adds the cursor and keeps every unexpired one. */
  lemma PutCursorKeepsAll(page: Cache, caps: Caps, token: string, cur: Cursor, now: int)
    requires var full := Unexpired(page, now)[token := cur];
      && (caps.maxEntries > 0 ==> |full| <= caps.maxEntries)
      && (caps.maxItems > 0 ==> TotalItems(full) <= caps.maxItems)
    ensures PutCursor(page, caps, token, cur, now) == Unexpired(page, now)[token := cur]
  {
    var full := Unexpired(page, now)[token := cur];
    assert PruneExpired(page, now) == Unexpired(page, now);
    TotalItemsRemove(full, token);
    EvictsOnlyOverCap(full, caps);
  }

  /** A cursor within the item cap that expires last is cached, whatever has to make room for it. */
  lemma PutCursorCaches(page: Cache, caps: Caps, token: string, cur: Cursor, now: int)
    requires caps.maxItems > 0 ==> |cur.items| <= caps.maxItems
    requires forall k :: k in page && k != token && now <= page[k].expires ==> page[k].expires < cur.expires
    ensures token in PutCursor(page, caps, token, cur, now) && PutCursor(page, caps, token, cur, now)[token] == cur
  {
    var full := PruneExpired(page, now)[token := cur];
    YoungestSurvives(full, caps, token);
    EvictKeepsLargestYoungEnd(full, caps);
  }

  /** A cursor over the item cap is not cached, and costs nobody else anything. */
  lemma OversizedIsNotCached(page: Cache, caps: Caps, token: string, cur: Cursor, now: int)
    requires 0 < caps.maxItems < |cur.items|
    ensures PutCursor(page, caps, token, cur, now) == Unexpired(page, now)
  {
    assert PruneExpired(page, now) == Unexpired(page, now);
  }

  /** What a request leaves of the cache when both caps hold: a miss only drops what has expired, and a
      hit drops its own cursor besides; its rest never costs another cursor its place. */
  lemma TakeKeepsOthers(page: Cache, caps: Caps, book: BookId, revision: nat, limit: int, now: int, k: string)
    requires (caps.maxEntries > 0 ==> |page| <= caps.maxEntries) && (caps.maxItems > 0 ==> TotalItems(page) <= caps.maxItems)
    requires k in page && now <= page[k].expires
    ensures var key := FormatSyncToken(book, revision);
      var t := TakeCursor(page, caps, book, revision, limit, now);
      && (t.1.None? ==> t.0 == Unexpired(page, now))
      && (t.1.Some? && k != key && (t.1.value.truncated ==> k != FormatSyncToken(book, t.1.value.tokenRevision)) ==>
            k in t.0 && t.0[k] == page[k])
  {
    var key := FormatSyncToken(book, revision);
    var swept := PruneExpired(page, now);
    assert swept == Unexpired(page, now);
    if key in swept && swept[key].book == book {
      var p := CutPage(swept[key].head, swept[key].items, limit);
      if p.truncated {
        RestTakesLessRoom(page, caps, key, FormatSyncToken(book, p.tokenRevision), Cursor(book, swept[key].head, now + CURSOR_TTL, p.remaining), now);
      }
    }
  }

  /** A rest in place of what it was cut from. */
  lemma RestFits(page: Cache, caps: Caps, key: string, token: string, rest: Cursor)
    requires !OverCap(page, caps) && key in page && |rest.items| <= |page[key].items|
    ensures !OverCap((page - {key})[token := rest], caps)
  {
    var others := page - {key};
    var full := others[token := rest];
    TotalItemsRemove(page, key);
    TotalItemsRemove(full, token);
    assert full - {token} == others - {token};
    SmallerCacheCountsLess(others - {token}, others);
    assert full.Keys == others.Keys + {token};
  }

  lemma RestTakesLessRoom(page: Cache, caps: Caps, key: string, token: string, rest: Cursor, now: int)
    requires !OverCap(page, caps)
    requires key in PruneExpired(page, now) && |rest.items| <= |page[key].items|
    ensures PutCursor(PruneExpired(page, now) - {key}, caps, token, rest, now) == (PruneExpired(page, now) - {key})[token := rest]
  {
    var swept := PruneExpired(page, now);
    assert PruneExpired(swept - {key}, now) == swept - {key};
    SubCacheFits(swept, page, caps);
    RestFits(swept, caps, key, token, rest);
    TotalItemsRemove((swept - {key})[token := rest], token);
  }

  // ---- Continuations ----

  /** The rest of a truncated page, if it is within the item cap and expires last, serves exactly what
      the page left out for two minutes, and nothing afterwards. */
  lemma CachedRestIsServed(page: Cache, caps: Caps, book: BookId, head: nat, p: Page, stamped: int, now: int, limit: int, later: int)
    requires p.truncated && (caps.maxItems > 0 ==> |p.remaining| <= caps.maxItems)
    requires forall k :: k in page && k != FormatSyncToken(book, p.tokenRevision) && now <= page[k].expires ==>
      page[k].expires < stamped + 120_000_000_000
    ensures TakeCursor(StoreRest(page, caps, book, head, p, stamped, now), caps, book, p.tokenRevision, limit, later).1 ==
      if later <= stamped + 120_000_000_000 then Some(CutPage(head, p.remaining, limit)) else None
  {
    PutCursorCaches(page, caps, FormatSyncToken(book, p.tokenRevision), Cursor(book, head, stamped + CURSOR_TTL, p.remaining), now);
  }

  /** The same of the page that a cursor itself was cut to. */
  lemma ContinuationIsServed(page: Cache, caps: Caps, book: BookId, revision: nat, limit: int, now: int, limit': int, later: int)
    requires TakeCursor(page, caps, book, revision, limit, now).1.Some?
    requires var p := TakeCursor(page, caps, book, revision, limit, now).1.value;
      p.truncated && (caps.maxItems > 0 ==> |p.remaining| <= caps.maxItems)
    requires forall k :: k in page && k != FormatSyncToken(book, revision) ==> page[k].expires < now + 120_000_000_000
    ensures var t := TakeCursor(page, caps, book, revision, limit, now);
      var head := page[FormatSyncToken(book, revision)].head;
      TakeCursor(t.0, caps, book, t.1.value.tokenRevision, limit', later).1 ==
        if later <= now + 120_000_000_000 then Some(CutPage(head, t.1.value.remaining, limit')) else None
  {
    var swept, key := PruneExpired(page, now), FormatSyncToken(book, revision);
    var p := TakeCursor(page, caps, book, revision, limit, now).1.value;
    CachedRestIsServed(swept - {key}, caps, book, swept[key].head, p, now, now, limit', later);
  }
}
