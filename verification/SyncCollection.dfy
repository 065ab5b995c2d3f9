/** One sync-collection request as its steps meet the store and the cursor cache
    (internal/carddavx/sync.go). Between any two of these functions other requests may run. */
module SyncCollection {
  import opened Basics
  import opened History
  import opened SyncItems
  import opened SyncTokens
  import opened CardStore
  import opened StoreInvariant
  import opened StoreReads
  import opened CursorCache

  datatype SyncError = AddressbookNotFound | InvalidToken

  // A request that has read its head revision; `from` is None for a first sync.
  datatype Start = Start(book: BookId, head: nat, from: Option<nat>)

  /** The addressbook lookup and the token checks that need no journal. */
  function StartRequest(st: StoreState, name: Name, rawToken: string): Result<Start, SyncError> {
    if name !in st.names || st.names[name] !in st.books then Err(AddressbookNotFound)
    else
      var id := st.names[name];
      var head := st.books[id].revision;
      if TrimSpace(rawToken) == "" then Ok(Start(id, head, None))
      else
        match ParseSyncToken(TrimSpace(rawToken))
        case Err(_) => Err(InvalidToken)
        case Ok(t) => if t.book != id then Err(InvalidToken) else Ok(Start(id, head, Some(t.revision)))
  }

  /** Rows of a book that was dropped since the request started read as none. */
  function Journal(st: StoreState, id: BookId): seq<Row> {
    if id in st.books then st.books[id].journal else []
  }

  /** The second read: the whole listing for a first sync, else the changes after the token. */
  ghost function ReadItems(st: StoreState, start: Start): Result<seq<Change>, SyncError> {
    match start.from
    case None => Ok(if start.book in st.books then StateListing(st.books[start.book]) else [])
    case Some(token) =>
      if token > start.head then Err(InvalidToken)
      else
        var changes := ChangesSince(Journal(st, start.book), token);
        if IsStale(token, start.head, changes) then Err(InvalidToken) else Ok(changes)
  }

  /** The request run alone, from the cache it finds to the cache it leaves. */
  ghost function Sync(st: StoreState, page: Cache, caps: Caps, name: Name, rawToken: string, limit: int, taken: int, stamped: int, stored: int)
    : (Cache, Result<(BookId, Page), SyncError>)
  {
    match StartRequest(st, name, rawToken)
    case Err(e) => (page, Err(e))
    case Ok(start) => ServeFrom(st, page, caps, start, limit, taken, stamped, stored)
  }

  /** A cursor if the request pages and one is there, the store otherwise. */
  ghost function ServeFrom(st: StoreState, page: Cache, caps: Caps, start: Start, limit: int, taken: int, stamped: int, stored: int)
    : (Cache, Result<(BookId, Page), SyncError>)
  {
    if start.from.Some? && limit > 0 then
      var t := TakeCursor(page, caps, start.book, start.from.value, limit, taken);
      if t.1.Some? then (t.0, Ok((start.book, t.1.value))) else ServeFromStore(st, t.0, caps, start, limit, stamped, stored)
    else ServeFromStore(st, page, caps, start, limit, stamped, stored)
  }

  ghost function ServeFromStore(st: StoreState, page: Cache, caps: Caps, start: Start, limit: int, stamped: int, stored: int)
    : (Cache, Result<(BookId, Page), SyncError>)
  {
    match ReadItems(st, start)
    case Err(e) => (page, Err(e))
    case Ok(items) =>
      var p := CutPage(start.head, items, limit);
      (StoreRest(page, caps, start.book, start.head, p, stamped, stored), Ok((start.book, p)))
  }

  /** Every accepted spelling of a token leads to the cursor under its canonical key: the request is
      the one for the canonical token, and a paging one is served from the unexpired cursor of the
      book that lies there. */
  lemma SpellingsShareOneKey(st: StoreState, page: Cache, caps: Caps, name: Name, raw: string, limit: int, taken: int, stamped: int, stored: int)
    requires ParseSyncToken(TrimSpace(raw)).Ok?
    ensures var t := ParseSyncToken(TrimSpace(raw)).value;
      var key := FormatSyncToken(t.book, t.revision);
      && Sync(st, page, caps, name, raw, limit, taken, stamped, stored) == Sync(st, page, caps, name, key, limit, taken, stamped, stored)
      && (&& Get(st.names, name) == Some(t.book) && t.book in st.books && limit > 0
          && key in page && taken <= page[key].expires && page[key].book == t.book ==>
            Sync(st, page, caps, name, raw, limit, taken, stamped, stored).1 == Ok((t.book, CutPage(page[key].head, page[key].items, limit))))
  {
    var t := ParseSyncToken(TrimSpace(raw)).value;
    FormatHasNoSpaces(t.book, t.revision);
    ParseOfFormat(t.book, t.revision);
    TakeHitsIff(page, caps, t.book, t.revision, limit, taken);
  }

  /** The first checks of a request, in full. */
  lemma StartDecides(st: StoreState, name: Name, raw: string)
    ensures var r := StartRequest(st, name, raw);
      var found := name in st.names && st.names[name] in st.books;
      var parsed := ParseSyncToken(TrimSpace(raw));
      && (r == Err(AddressbookNotFound) <==> !found)
      && (r == Err(InvalidToken) <==> found && TrimSpace(raw) != "" && (parsed.Err? || parsed.value.book != st.names[name]))
      && (r.Ok? ==>
            && r.value.book == st.names[name] && r.value.head == st.books[st.names[name]].revision
            && r.value.from == if TrimSpace(raw) == "" then None else Some(parsed.value.revision))
  {}

  /** Whether a paging request with this token finds an unexpired cursor of the addressbook. */
  ghost predicate CursorWaits(page: Cache, id: BookId, revision: nat, limit: int, now: int) {
    var key := FormatSyncToken(id, revision);
    limit > 0 && key in page && now <= page[key].expires && page[key].book == id
  }

  /** A token that neither a cursor nor the journal can go on from. Rows are missed by their revision,
      so this needs no assumption on clocks. */
  ghost predicate CannotGoOn(b: Book, page: Cache, id: BookId, token: nat, limit: int, now: int)
    requires b.revision <= |b.hist|
  {
    && !CursorWaits(page, id, token, limit, now)
    && (token > b.revision || (token < b.revision && b.hist[token] !in b.journal))
  }

  /** A request with nothing in between: which requests are refused, and with what error. */
  lemma SyncDecides(hash: Hash, st: StoreState, page: Cache, caps: Caps, name: Name, raw: string, limit: int, taken: int, stamped: int, stored: int)
    requires StoreOk(hash, st)
    ensures var r := Sync(st, page, caps, name, raw, limit, taken, stamped, stored).1;
      var found := name in st.names && st.names[name] in st.books;
      var parsed := ParseSyncToken(TrimSpace(raw));
      && (r == Err(AddressbookNotFound) <==> !found)
      && (r == Err(InvalidToken) <==>
            (&& found && TrimSpace(raw) != ""
             && (|| parsed.Err? || parsed.value.book != st.names[name]
                 || CannotGoOn(st.books[st.names[name]], page, st.names[name], parsed.value.revision, limit, taken))))
  {
    if name in st.names && st.names[name] in st.books && TrimSpace(raw) != "" {
      var parsed := ParseSyncToken(TrimSpace(raw));
      if parsed.Ok? && parsed.value.book == st.names[name] {
        TokenDecides(hash, st, page, caps, st.names[name], parsed.value.revision, limit, taken, stamped, stored);
      }
    }
  }

  /** A request whose token names its addressbook: from a waiting cursor, else from the journal. */
  lemma TokenDecides(hash: Hash, st: StoreState, page: Cache, caps: Caps, id: BookId, token: nat, limit: int, taken: int, stamped: int, stored: int)
    requires StoreOk(hash, st) && id in st.books
    ensures var b := st.books[id];
      var key := FormatSyncToken(id, token);
      ServeFrom(st, page, caps, Start(id, b.revision, Some(token)), limit, taken, stamped, stored).1 ==
        if CannotGoOn(b, page, id, token, limit, taken) then Err(InvalidToken)
        else if CursorWaits(page, id, token, limit, taken) then Ok((id, CutPage(page[key].head, page[key].items, limit)))
        else Ok((id, CutPage(b.revision, ChangesSince(b.journal, token), limit)))
  {
    TakeHitsIff(page, caps, id, token, limit, taken);
    JournalDecides(hash, st, page, caps, id, token, limit, stamped, stored);
    JournalDecides(hash, st, TakeCursor(page, caps, id, token, limit, taken).0, caps, id, token, limit, stamped, stored);
  }

  lemma JournalDecides(hash: Hash, st: StoreState, page: Cache, caps: Caps, id: BookId, token: nat, limit: int, stamped: int, stored: int)
    requires StoreOk(hash, st) && id in st.books
    ensures var b := st.books[id];
      ServeFromStore(st, page, caps, Start(id, b.revision, Some(token)), limit, stamped, stored).1 ==
        if token > b.revision || (token < b.revision && b.hist[token] !in b.journal) then Err(InvalidToken)
        else Ok((id, CutPage(b.revision, ChangesSince(b.journal, token), limit)))
  {
    if token < st.books[id].revision { StaleIffNextRowGone(hash, st.books[id], token, st.books[id].revision); }
  }

  /** What a request is served that is not refused. */
  lemma SyncServes(hash: Hash, st: StoreState, page: Cache, caps: Caps, name: Name, raw: string, limit: int, taken: int, stamped: int, stored: int)
    requires StoreOk(hash, st) && Sync(st, page, caps, name, raw, limit, taken, stamped, stored).1.Ok?
    ensures name in st.names && st.names[name] in st.books
    ensures var id := st.names[name];
      var b := st.books[id];
      var served := Sync(st, page, caps, name, raw, limit, taken, stamped, stored).1.value;
      if TrimSpace(raw) == "" then served == (id, CutPage(b.revision, StateListing(b), limit))
      else
        && ParseSyncToken(TrimSpace(raw)).Ok?
        && var token := ParseSyncToken(TrimSpace(raw)).value.revision;
           var key := FormatSyncToken(id, token);
           served == (id, if CursorWaits(page, id, token, limit, taken) then CutPage(page[key].head, page[key].items, limit)
                          else CutPage(b.revision, ChangesSince(b.journal, token), limit))
  {
    StartDecides(st, name, raw);
    if TrimSpace(raw) != "" {
      TokenDecides(hash, st, page, caps, st.names[name], ParseSyncToken(TrimSpace(raw)).value.revision, limit, taken, stamped, stored);
    }
  }

  const SERVER_PAGE_LIMIT := 500

  /** The limit a REPORT runs with: the server always pages. */
  function ReportLimit(requested: int): (limit: int)
    ensures 0 < requested <= 500 ==> limit == requested
    ensures requested <= 0 || requested > 500 ==> limit == 500
  {
    if requested > 0 then (if requested > SERVER_PAGE_LIMIT then SERVER_PAGE_LIMIT else requested) else SERVER_PAGE_LIMIT
  }

  // ---- The response on the wire ----

  datatype SyncResult = SyncResult(token: string, updated: seq<SyncRef>, deleted: seq<string>, truncated: bool)

  function Prefix(name: Name): string { "/" + name.username + "/" + name.slug + "/" }

  function FullRef(name: Name, ref: SyncRef): SyncRef {
    SyncRef(Prefix(name) + ref.href, "\"" + ref.etag + "\"")
  }

  function FullRefs(name: Name, refs: seq<SyncRef>): seq<SyncRef> {
    seq(|refs|, i requires 0 <= i < |refs| => FullRef(name, refs[i]))
  }

  function FullHrefs(name: Name, hrefs: seq<Href>): seq<string> {
    seq(|hrefs|, i requires 0 <= i < |hrefs| => Prefix(name) + hrefs[i])
  }

  function Render(name: Name, book: BookId, p: Page): SyncResult {
    var emitted := Collapse(p.items);
    SyncResult(FormatSyncToken(book, p.tokenRevision), FullRefs(name, Updated(emitted)), FullHrefs(name, Deleted(emitted)), p.truncated)
  }

  function StripRefs(name: Name, refs: seq<SyncRef>): seq<SyncRef> {
    seq(|refs|, i requires 0 <= i < |refs| =>
      if |Prefix(name)| <= |refs[i].href| && 2 <= |refs[i].etag|
      then SyncRef(refs[i].href[|Prefix(name)|..], refs[i].etag[1..|refs[i].etag| - 1]) else refs[i])
  }

  function StripHrefs(name: Name, hrefs: seq<string>): seq<Href> {
    seq(|hrefs|, i requires 0 <= i < |hrefs| =>
      if |Prefix(name)| <= |hrefs[i]| then hrefs[i][|Prefix(name)|..] else hrefs[i])
  }

  /** The response, entry by entry: every href of the page appears once, in the list that its last item
      says, under its full path, with its ETag in quotes; and nothing else appears. */
  lemma ResponseListsPage(name: Name, book: BookId, p: Page)
    ensures var res := Render(name, book, p);
      var path := "/" + name.username + "/" + name.slug + "/";
      && (forall i :: 0 <= i < |p.items| && (forall j :: i < j < |p.items| ==> p.items[j].href != p.items[i].href) ==>
            if p.items[i].deleted then path + p.items[i].href in res.deleted
            else SyncRef(path + p.items[i].href, "\"" + p.items[i].etag + "\"") in res.updated)
      && |res.updated| + |res.deleted| == |Hrefs(p.items)|
  {
    var res, emitted := Render(name, book, p), Collapse(p.items);
    forall i | 0 <= i < |p.items| && forall j :: i < j < |p.items| ==> p.items[j].href != p.items[i].href
      ensures if p.items[i].deleted then Prefix(name) + p.items[i].href in res.deleted
              else SyncRef(Prefix(name) + p.items[i].href, "\"" + p.items[i].etag + "\"") in res.updated
    {
      LastItemIsEmitted(p.items, i);
      EmittedIsRendered(name, emitted, p.items[i]);
    }
    CollapseIsDistinct(p.items);
    CollapseKeepsHrefs(p.items);
    DistinctCount(emitted);
    ListsCount(emitted);
  }

  lemma {:induction false} LastItemIsEmitted(items: seq<Change>, i: nat)
    requires i < |items| && forall j :: i < j < |items| ==> items[j].href != items[i].href
    ensures items[i] in Collapse(items)
  {
    if i == 0 {
      forall c | c in items[1..] ensures c.href != items[0].href {}
    } else {
      LastItemIsEmitted(items[1..], i - 1);
    }
  }

  lemma {:induction false} EmittedIsRendered(name: Name, items: seq<Change>, c: Change)
    requires c in items
    ensures c.deleted ==> Prefix(name) + c.href in FullHrefs(name, Deleted(items))
    ensures !c.deleted ==> FullRef(name, SyncRef(c.href, c.etag)) in FullRefs(name, Updated(items))
  {
    ItemIsListed(items, c);
    if c.deleted {
      var i :| 0 <= i < |Deleted(items)| && Deleted(items)[i] == c.href;
      assert FullHrefs(name, Deleted(items))[i] == Prefix(name) + c.href;
    } else {
      var i :| 0 <= i < |Updated(items)| && Updated(items)[i] == SyncRef(c.href, c.etag);
      assert FullRefs(name, Updated(items))[i] == FullRef(name, SyncRef(c.href, c.etag));
    }
  }

  lemma {:induction false} ItemIsListed(items: seq<Change>, c: Change)
    requires c in items
    ensures if c.deleted then c.href in Deleted(items) else SyncRef(c.href, c.etag) in Updated(items)
  {
    if items[0] != c { ItemIsListed(items[1..], c); }
  }

  lemma {:induction false} ListsCount(items: seq<Change>)
    ensures |Updated(items)| + |Deleted(items)| == |items|
  {
    if items != [] { ListsCount(items[1..]); }
  }

  lemma {:induction false} DistinctCount(items: seq<Change>)
    requires DistinctHrefs(items)
    ensures |Hrefs(items)| == |items|
  {
    if items != [] {
      var n := |items| - 1;
      DistinctCount(items[..n]);
      LastHrefIsNew(items);
    }
  }

  lemma LastHrefIsNew(items: seq<Change>)
    requires DistinctHrefs(items) && items != []
    ensures var n := |items| - 1;
      && DistinctHrefs(items[..n])
      && Hrefs(items) == Hrefs(items[..n]) + {items[n].href} && items[n].href !in Hrefs(items[..n])
  {
    var n := |items| - 1;
    HrefsConcat(items[..n], [items[n]]);
    assert items == items[..n] + [items[n]] && Hrefs([items[n]]) == {items[n].href};
    forall c | c in items[..n] ensures c.href != items[n].href {}
  }

  /** The token of a response is the one to come back with: it parses to the addressbook and the page's
      revision, and a request with it starts there. The response says "truncated" exactly when the
      page was. */
  lemma ResponseSaysWhereToGoOn(st: StoreState, name: Name, book: BookId, p: Page)
    requires 0 < book <= MAX_INT64 && p.tokenRevision <= MAX_INT64
    ensures var res := Render(name, book, p);
      && ParseSyncToken(res.token) == Ok(SyncToken(book, p.tokenRevision))
      && (res.truncated <==> p.truncated)
      && (Get(st.names, name) == Some(book) && book in st.books ==>
            StartRequest(st, name, res.token) == Ok(Start(book, st.books[book].revision, Some(p.tokenRevision))))
  {
    ParseOfFormat(book, p.tokenRevision);
    FormatHasNoSpaces(book, p.tokenRevision);
  }

  /** A client that strips the collection's path and the quotes applies exactly the page, deletes
      and updates in either order. */
  lemma ClientReadsPage(r: Replica, name: Name, book: BookId, p: Page)
    ensures var res := Render(name, book, p);
      && ApplyUpdated(ApplyDeleted(r, StripHrefs(name, res.deleted)), StripRefs(name, res.updated)) == ApplyPage(r, p)
      && ApplyDeleted(ApplyUpdated(r, StripRefs(name, res.updated)), StripHrefs(name, res.deleted)) == ApplyPage(r, p)
  {
    var res := Render(name, book, p);
    var items := Collapse(p.items);
    assert StripRefs(name, res.updated) == Updated(items) by {
      forall i | 0 <= i < |Updated(items)| ensures StripRefs(name, res.updated)[i] == Updated(items)[i] {
        var ref := FullRef(name, Updated(items)[i]);
        assert ref.href[|Prefix(name)|..] == Updated(items)[i].href;
        assert ref.etag[1..|ref.etag| - 1] == Updated(items)[i].etag;
      }
    }
    assert StripHrefs(name, res.deleted) == Deleted(items) by {
      forall i | 0 <= i < |Deleted(items)| ensures StripHrefs(name, res.deleted)[i] == Deleted(items)[i] {
        assert (Prefix(name) + Deleted(items)[i])[|Prefix(name)|..] == Deleted(items)[i];
      }
    }
    CollapseIsDistinct(p.items);
    ResponseOrderIrrelevant(r, items);
  }
}
