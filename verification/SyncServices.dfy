/** The sync service as an object that changes its cursor map in place
    (internal/carddavx/sync.go). Its map loops visit the keys in any order. */
module SyncServices {
  import opened Basics
  import opened History
  import opened SyncItems
  import opened SyncTokens
  import opened CardStore
  import opened CursorCache
  import opened SyncCollection
  import opened Stores

  class SyncService {
    const store: Store
    const caps: Caps
    var page: Cache

    constructor (store: Store, caps: Caps)
      ensures this.store == store && this.caps == caps && page == map[]
    {
      this.store, this.caps, page := store, caps, map[];
    }

    method PruneExpiredCursors(now: int)
      modifies this
      ensures page == PruneExpired(old(page), now)
    {
      var todo := page.Keys;
      while todo != {}
        invariant todo <= page.Keys <= old(page).Keys
        invariant forall k :: k in page ==> page[k] == old(page)[k]
        invariant forall k :: k in page && k !in todo ==> now <= page[k].expires
        invariant forall k :: k in old(page) && k !in page ==> now > old(page)[k].expires
        decreases |todo|
      {
        var k :| k in todo;
        todo := todo - {k};
        if now > page[k].expires { page := page - {k}; }
      }
    }

    method CountCursorItems() returns (total: nat)
      ensures total == TotalItems(page)
    {
      total := 0;
      var todo := page;
      while todo != map[]
        invariant total + TotalItems(todo) == TotalItems(page)
        decreases |todo|
      {
        var k :| k in todo;
        TotalItemsRemove(todo, k);
        total := total + |todo[k].items|;
        todo := todo - {k};
      }
    }

    method CursorCacheOverCap() returns (over: bool)
      ensures over <==> OverCap(page, caps)
    {
      if caps.maxEntries > 0 && |page| > caps.maxEntries { return true; }
      if caps.maxItems > 0 {
        var total := CountCursorItems();
        return total > caps.maxItems;
      }
      return false;
    }

    /** The least key in (expiry, key) order, whatever order the map is visited in. */
    method OldestCursorKey() returns (best: Option<string>)
      ensures if page == map[] then best.None? else best.Some? && IsOldest(page, best.value)
    {
      best := None;
      var todo := page.Keys;
      while todo != {}
        invariant todo <= page.Keys
        invariant best.None? ==> todo == page.Keys
        invariant best.Some? ==> best.value in page && best.value !in todo
        invariant best.Some? ==> forall j :: j in page && j !in todo && j != best.value ==> Older(page, best.value, j)
        decreases |todo|
      {
        var k :| k in todo;
        if best.Some? {
          OlderIsTotal(page, k, best.value, k);
          forall j | j in page { OlderIsTotal(page, k, best.value, j); }
        }
        todo := todo - {k};
        if best.None? || page[k].expires < page[best.value].expires
          || (page[k].expires == page[best.value].expires && Less(k, best.value)) {
          best := Some(k);
        }
      }
    }

    method EvictCursorsToCap()
      modifies this
      ensures page == Evict(old(page), caps)
    {
      while true
        invariant Evict(page, caps) == Evict(old(page), caps)
        decreases |page|
      {
        var over := CursorCacheOverCap();
        if !over { return; }
        var victim := OldestCursorKey();
        if victim.None? { return; }
        OldestIsUnique(page, victim.value, Oldest(page));
        page := page - {victim.value};
      }
    }

    method StoreCursor(token: string, cur: Cursor, now: int)
      modifies this
      ensures page == PutCursor(old(page), caps, token, cur, now)
    {
      PruneExpiredCursors(now);
      if caps.maxItems > 0 && |cur.items| > caps.maxItems { return; }
      page := page[token := cur];
      EvictCursorsToCap();
    }

    /** The loop that splits emitted items into updated references and deleted hrefs. */
    method Emit(name: Name, emitted: seq<Change>) returns (updated: seq<SyncRef>, deleted: seq<string>)
      ensures updated == FullRefs(name, Updated(emitted)) && deleted == FullHrefs(name, Deleted(emitted))
    {
      updated, deleted := [], [];
      for i := 0 to |emitted|
        invariant updated + FullRefs(name, Updated(emitted[i..])) == FullRefs(name, Updated(emitted))
        invariant deleted + FullHrefs(name, Deleted(emitted[i..])) == FullHrefs(name, Deleted(emitted))
      {
        EmitStep(name, emitted, i);
        var it := emitted[i];
        if it.deleted {
          deleted := deleted + [Prefix(name) + it.href];
          continue;
        }
        updated := updated + [SyncRef(Prefix(name) + it.href, "\"" + it.etag + "\"")];
      }
    }

    /** A fresh page from items just read; a truncated one caches the rest. */
    method BuildPagedSyncResult(id: BookId, head: nat, name: Name, items: seq<Change>, limit: int, stamped: int, stored: int)
      returns (out: SyncResult)
      modifies this
      ensures var p := CutPage(head, items, limit);
        out == Render(name, id, p) && page == StoreRest(old(page), caps, id, head, p, stamped, stored)
      ensures out.truncated <==> 0 < limit < |items|
      ensures 0 < id <= MAX_INT64 && CutPage(head, items, limit).tokenRevision <= MAX_INT64 ==>
        ParseSyncToken(out.token) == Ok(SyncToken(id, CutPage(head, items, limit).tokenRevision))
    {
      if 0 < id { ParseOfFormat(id, CutPage(head, items, limit).tokenRevision); }
      var pageItems, remaining, truncated := items, [], false;
      if limit > 0 && |items| > limit {
        truncated := true;
        pageItems := items[..limit];
        remaining := items[limit..];
      }
      var tokenRevision := PageTokenRevision(head, pageItems, truncated);
      var emitted := CollapseSyncPageItems(pageItems);
      var updated, deleted := Emit(name, emitted);
      out := SyncResult(FormatSyncToken(id, tokenRevision), updated, deleted, truncated);
      if truncated {
        StoreCursor(out.token, Cursor(id, head, stamped + CURSOR_TTL, remaining), stored);
      }
    }

    method TakeCursorPage(token: SyncToken, name: Name, limit: int, now: int) returns (out: Option<SyncResult>)
      modifies this
      ensures var t := TakeCursor(old(page), caps, token.book, token.revision, limit, now);
        page == t.0 && out == if t.1.Some? then Some(Render(name, token.book, t.1.value)) else None
      ensures out.Some? ==>
        var key := FormatSyncToken(token.book, token.revision);
        key in old(page) && (out.value.truncated <==> 0 < limit < |old(page)[key].items|)
      ensures out.Some? && 0 < token.book <= MAX_INT64 ==>
        var p := TakeCursor(old(page), caps, token.book, token.revision, limit, now).1.value;
        p.tokenRevision <= MAX_INT64 ==> ParseSyncToken(out.value.token) == Ok(SyncToken(token.book, p.tokenRevision))
    {
      ghost var spec := TakeCursor(page, caps, token.book, token.revision, limit, now).1;
      if spec.Some? && 0 < token.book { ParseOfFormat(token.book, spec.value.tokenRevision); }
      var raw := FormatSyncToken(token.book, token.revision);
      PruneExpiredCursors(now);
      if raw !in page || page[raw].book != token.book || now > page[raw].expires { return None; }
      var cur := page[raw];
      page := page - {raw};
      var pageItems, remaining, truncated := cur.items, [], false;
      if limit > 0 && |cur.items| > limit {
        truncated := true;
        pageItems := cur.items[..limit];
        remaining := cur.items[limit..];
      }
      var tokenRevision := PageTokenRevision(cur.head, pageItems, truncated);
      var emitted := CollapseSyncPageItems(pageItems);
      var updated, deleted := Emit(name, emitted);
      var res := SyncResult(FormatSyncToken(token.book, tokenRevision), updated, deleted, truncated);
      if truncated {
        StoreCursor(res.token, Cursor(token.book, cur.head, now + CURSOR_TTL, remaining), now);
      }
      return Some(res);
    }

    ghost predicate Served(name: Name, spec: (Cache, Result<(BookId, Page), SyncError>), r: Result<SyncResult, SyncError>)
      reads this
    {
      page == spec.0 && r == match spec.1 { case Err(e) => Err(e) case Ok((id, p)) => Ok(Render(name, id, p)) }
    }

    /** The branch of an empty token: the whole listing. */
    method ServeListing(start: Start, name: Name, limit: int, stamped: int, stored: int) returns (r: Result<SyncResult, SyncError>)
      requires start.from.None?
      modifies this
      ensures Served(name, ServeFromStore(store.State(), old(page), caps, start, limit, stamped, stored), r)
    {
      var states := store.ListCurrentCardSyncStates(start.book, 0);
      var out := BuildPagedSyncResult(start.book, start.head, name, states, limit, stamped, stored);
      return Ok(out);
    }

    /** The branch of a token that no cursor answers: the journal, with the gap check. */
    method ServeChanges(start: Start, name: Name, limit: int, stamped: int, stored: int) returns (r: Result<SyncResult, SyncError>)
      requires start.from.Some?
      modifies this
      ensures Served(name, ServeFromStore(store.State(), old(page), caps, start, limit, stamped, stored), r)
    {
      var token := start.from.value;
      if token > start.head { return Err(InvalidToken); }
      var changes := store.ListCardChangesSince(start.book, token, if limit > 0 then 0 else limit);
      if token < start.head {
        if |changes| == 0 { return Err(InvalidToken); }
        if changes[0].revision > token + 1 { return Err(InvalidToken); }
      }
      var out := BuildPagedSyncResult(start.book, start.head, name, changes, limit, stamped, stored);
      return Ok(out);
    }

    method SyncCollection(name: Name, rawToken: string, limit: int, taken: int, stamped: int, stored: int)
      returns (r: Result<SyncResult, SyncError>)
      modifies this
      ensures Served(name, Sync(store.State(), old(page), caps, name, rawToken, limit, taken, stamped, stored), r)
      ensures r.Ok? ==>
        var served := Sync(store.State(), old(page), caps, name, rawToken, limit, taken, stamped, stored).1;
        && served.Ok?
        && (r.value.truncated <==> served.value.1.truncated)
        && (0 < served.value.0 <= MAX_INT64 && served.value.1.tokenRevision <= MAX_INT64 ==>
              ParseSyncToken(r.value.token) == Ok(SyncToken(served.value.0, served.value.1.tokenRevision)))
    {
      ghost var spec := Sync(store.State(), page, caps, name, rawToken, limit, taken, stamped, stored).1;
      if spec.Ok? && 0 < spec.value.0 { ParseOfFormat(spec.value.0, spec.value.1.tokenRevision); }
      if name !in store.names || store.names[name] !in store.books { return Err(AddressbookNotFound); }
      var id := store.names[name];
      var head := store.books[id].revision;
      if TrimSpace(rawToken) == "" {
        r := ServeListing(Start(id, head, None), name, limit, stamped, stored);
        return;
      }
      var parsed := ParseSyncToken(TrimSpace(rawToken));
      if parsed.Err? { return Err(InvalidToken); }
      var token := parsed.value;
      if token.book != id { return Err(InvalidToken); }
      if limit > 0 {
        var hit := TakeCursorPage(token, name, limit, taken);
        if hit.Some? { return Ok(hit.value); }
      }
      r := ServeChanges(Start(id, head, Some(token.revision)), name, limit, stamped, stored);
    }
  }

  lemma EmitStep(name: Name, emitted: seq<Change>, i: nat)
    requires i < |emitted|
    ensures var it, rest := emitted[i], emitted[i + 1..];
      && FullRefs(name, Updated(emitted[i..])) ==
           (if it.deleted then [] else [FullRef(name, SyncRef(it.href, it.etag))]) + FullRefs(name, Updated(rest))
      && FullHrefs(name, Deleted(emitted[i..])) ==
           (if it.deleted then [Prefix(name) + it.href] else []) + FullHrefs(name, Deleted(rest))
  {
    assert emitted[i..][1..] == emitted[i + 1..];
  }
}
