/** Delta cursors hold the history, whoever asks for them: what every event keeps when the change reads
    of one addressbook are whole. Who is served which cursor plays no role here. */
module DeltaCursors {
  import opened Basics
  import opened History
  import opened SyncItems
  import opened PageSafety
  import opened SyncTokens
  import opened CardStore
  import opened StoreInvariant
  import opened StoreReads
  import opened CursorCache
  import opened SyncCollection
  import opened SyncProtocol
  import opened TokenBounds

  /** Loaded items are a slice of the history from the token on, or a first listing. */
  ghost predicate LoadedOk(log: seq<Change>, start: Start, items: seq<Change>, listedAt: nat) {
    match start.from
    case None => start.head <= listedAt && InitialRest(map[], items, log, listedAt, 0)
    case Some(k) => DeltaCursorOk(log, k, start.head, items) && (items == [] ==> start.head == k)
  }

  /** A delta cursor under revision k holds exactly the changes (k, m]. */
  ghost predicate DeltaCursorOk(log: seq<Change>, k: nat, head: nat, items: seq<Change>) {
    k + |items| <= |log| && items == log[k..k + |items|] && head <= k + |items|
  }

  ghost predicate SliceLoaded(s: State, id: BookId, r: Request) {
    r.Loaded? && r.start.book == id && r.start.from.Some? && id in s.st.books ==>
      LoadedOk(Log(s.st.books[id]), r.start, r.items, r.listedAt)
  }

  ghost predicate SliceCached(s: State, id: BookId, k: nat) {
    var key := FormatSyncToken(id, k);
    key in s.page && id in s.st.books ==>
      key in s.tags && (s.tags[key].Delta? ==> DeltaCursorOk(Log(s.st.books[id]), k, s.page[key].head, s.page[key].items))
  }

  /** Every loaded change list and every delta cursor of the addressbook is a slice of its history. */
  ghost predicate Slices(cfg: Config, s: State, id: BookId) {
    && Bounded(cfg, s)
    && (forall c :: c in s.clients ==> SliceLoaded(s, id, s.clients[c].request))
    && (forall k: nat :: SliceCached(s, id, k))
  }

  lemma InitSlices(cfg: Config, s: State, id: BookId)
    requires Init(s)
    ensures Slices(cfg, s, id)
  {
    InitBounded(cfg, s);
    NothingInFlight(cfg, s, id);
  }

  // ---- Whole reads ----

  /** An accepted change read is an unbroken slice of the history, when no prune passed over a
      token that equals the head. */
  lemma ChangeReadIsSlice(hash: Hash, b: Book, k: nat, head: nat)
    requires BookOk(hash, b) && TimeOrdered(b.hist) && k <= head <= |b.hist|
    requires !IsStale(k, head, ChangesSince(b.journal, k))
    requires k == head ==> Floor(b) <= k
    ensures ChangesSince(b.journal, k) == Log(b)[k..]
  {
    StaleIffBehindFloor(hash, b, k, head);
  }

  /** What the second read returns is a first listing or an unbroken slice of the history. */
  lemma ReadIsSound(hash: Hash, b: Book, start: Start, st: StoreState)
    requires BookOk(hash, b) && (start.from.Some? ==> TimeOrdered(b.hist))
    requires start.book in st.books && st.books[start.book] == b && start.head <= |b.hist|
    requires start.from == Some(start.head) ==> Floor(b) <= start.head
    requires ReadItems(st, start).Ok?
    ensures LoadedOk(Log(b), start, ReadItems(st, start).value, b.revision)
  {
    match start.from
    case None => ListingStartsFirstSync(hash, b);
    case Some(k) => ChangeReadIsSlice(hash, b, k, start.head);
  }

  // ---- Every event ----

  /** After an event of one client that leaves the store alone and adds nothing to the cache. */
  lemma StepKeepsSlices(cfg: Config, s: State, s': State, c: ClientId, id: BookId)
    requires Slices(cfg, s, id) && Bounded(cfg, s') && c in s.clients && c in s'.clients
    requires s'.st == s.st && s'.tags == s.tags && SubCache(s'.page, s.page)
    requires s'.clients == s.clients[c := s'.clients[c]] && SliceLoaded(s, id, s'.clients[c].request)
    ensures Slices(cfg, s', id)
  {
    forall d | d in s'.clients ensures SliceLoaded(s', id, s'.clients[d].request) {
      assert SliceLoaded(s, id, s'.clients[d].request);
    }
    forall k: nat ensures SliceCached(s', id, k) { assert SliceCached(s, id, k); }
  }

  lemma SliceGrows(log: seq<Change>, log': seq<Change>, k: nat, head: nat, items: seq<Change>)
    requires DeltaCursorOk(log, k, head, items) && log <= log'
    ensures DeltaCursorOk(log', k, head, items)
  {
    assert log'[k..k + |items|] == log[k..k + |items|];
  }

  lemma CommitKeepsSlices(cfg: Config, s: State, op: Op, id: BookId)
    requires Slices(cfg, s, id)
    ensures Slices(cfg, Next(cfg, s, Commit(op)), id)
  {
    var s' := Next(cfg, s, Commit(op));
    CommitKeepsBounds(cfg, s, op);
    ApplyKeeps(cfg.hash, s.st, op);
    forall c | c in s.clients ensures SliceLoaded(s', id, s.clients[c].request) {
      LoadGrows(cfg, s, s', id, c);
    }
    forall k: nat ensures SliceCached(s', id, k) { CursorGrows(cfg, s, s', id, k); }
  }

  lemma LoadGrows(cfg: Config, s: State, s': State, id: BookId, c: ClientId)
    requires Slices(cfg, s, id) && Follows(s.st, s'.st) && s' == s.(st := s'.st) && c in s.clients
    ensures SliceLoaded(s', id, s.clients[c].request)
  {
    var r := s.clients[c].request;
    assert SliceLoaded(s, id, r) && RequestBounded(s, s.clients[c]);
    if r.Loaded? && r.start.book == id && r.start.from.Some? && id in s'.st.books {
      SliceGrows(Log(s.st.books[id]), Log(s'.st.books[id]), r.start.from.value, r.start.head, r.items);
    }
  }

  lemma CursorGrows(cfg: Config, s: State, s': State, id: BookId, k: nat)
    requires Slices(cfg, s, id) && Follows(s.st, s'.st) && s' == s.(st := s'.st)
    ensures SliceCached(s', id, k)
  {
    var key := FormatSyncToken(id, k);
    assert SliceCached(s, id, k) && CursorBounded(s, id, k);
    if key in s.page && id in s'.st.books && s.tags[key].Delta? {
      SliceGrows(Log(s.st.books[id]), Log(s'.st.books[id]), k, s.page[key].head, s.page[key].items);
    }
  }

  lemma ReadKeepsSlices(cfg: Config, s: State, c: ClientId, id: BookId)
    requires Slices(cfg, s, id) && ReadsWhole(s, ReadStore(c), id)
    ensures Slices(cfg, Next(cfg, s, ReadStore(c)), id)
  {
    if c in s.clients && CanRead(s.clients[c].request) {
      var start := s.clients[c].request.start;
      assert RequestBounded(s, s.clients[c]);
      ReadKeepsBounds(cfg, s, c);
      if ReadItems(s.st, start).Ok? && start.book == id && id in s.st.books && start.from.Some? {
        ReadIsSound(cfg.hash, s.st.books[id], start, s.st);
      }
      StepKeepsSlices(cfg, s, Next(cfg, s, ReadStore(c)), c, id);
    }
  }

  /** The rest of a slice is a slice under the page's token. */
  lemma RestIsSlice(log: seq<Change>, k: nat, head: nat, items: seq<Change>, limit: int)
    requires Numbered(log) && DeltaCursorOk(log, k, head, items) && (items == [] ==> head == k)
    ensures var p := CutPage(head, items, limit);
      p.truncated ==> DeltaCursorOk(log, p.tokenRevision, head, p.remaining)
  {
    DeltaToken(log, k, k + |items|, head, limit);
  }

  /** The rest of a page, if it is cached as a delta, is a slice again. */
  ghost predicate RestCacheable(s: State, id: BookId, book: BookId, head: nat, p: Page, tag: Tag) {
    book == id && id in s.st.books && p.truncated && tag.Delta? ==>
      DeltaCursorOk(Log(s.st.books[id]), p.tokenRevision, head, p.remaining)
  }

  lemma RestKeepsSlice(cfg: Config, s: State, s': State, base: Cache, book: BookId, head: nat, p: Page, tag: Tag, stamped: int, now: int, id: BookId, k: nat)
    requires SliceCached(s, id, k) && SubCache(base, s.page) && RestCacheable(s, id, book, head, p, tag)
    requires s'.st == s.st && s'.page == StoreRest(base, cfg.caps, book, head, p, stamped, now) && s'.tags == Retag(s.tags, cfg.caps, book, p, tag)
    ensures SliceCached(s', id, k)
  {
    var key, token := FormatSyncToken(id, k), FormatSyncToken(book, p.tokenRevision);
    if p.truncated && key in s'.page {
      PutCursorOrigin(base, cfg.caps, token, Cursor(book, head, stamped + CURSOR_TTL, p.remaining), now, key);
      if key == token { FormatIsInjective(id, k, book, p.tokenRevision); }
    }
  }

  /** A served page: nobody's load is changed, and the rest is cached under its own tag. */
  lemma ServeKeepsSlices(cfg: Config, s: State, s': State, c: ClientId, base: Cache, book: BookId, head: nat, p: Page, tag: Tag, stamped: int, now: int, id: BookId)
    requires Slices(cfg, s, id) && Bounded(cfg, s') && c in s.clients && c in s'.clients && SubCache(base, s.page)
    requires RestCacheable(s, id, book, head, p, tag)
    requires s'.st == s.st && s'.page == StoreRest(base, cfg.caps, book, head, p, stamped, now) && s'.tags == Retag(s.tags, cfg.caps, book, p, tag)
    requires s'.clients == s.clients[c := s'.clients[c]] && s'.clients[c].request.Idle?
    ensures Slices(cfg, s', id)
  {
    forall d | d in s'.clients ensures SliceLoaded(s', id, s'.clients[d].request) {
      if d != c { assert SliceLoaded(s, id, s.clients[d].request); }
    }
    forall k: nat ensures SliceCached(s', id, k) {
      assert SliceCached(s, id, k);
      RestKeepsSlice(cfg, s, s', base, book, head, p, tag, stamped, now, id, k);
    }
  }

  lemma BookNumbered(cfg: Config, s: State, id: BookId)
    requires Bounded(cfg, s) && id in s.st.books
    ensures Numbered(Log(s.st.books[id]))
  {}

  lemma RespondKeepsSlices(cfg: Config, s: State, c: ClientId, stamped: int, now: int, delivered: bool, id: BookId)
    requires Slices(cfg, s, id)
    ensures Slices(cfg, Next(cfg, s, Respond(c, stamped, now, delivered)), id)
  {
    if c in s.clients && s.clients[c].request.Loaded? {
      var Loaded(start, limit, items, listedAt) := s.clients[c].request;
      var tag := if start.from.None? then Initial(s.nextStamp, listedAt) else Delta;
      RespondKeepsBounds(cfg, s, c, stamped, now, delivered);
      assert SliceLoaded(s, id, s.clients[c].request);
      if start.book == id && id in s.st.books && start.from.Some? {
        BookNumbered(cfg, s, id);
        RestIsSlice(Log(s.st.books[id]), start.from.value, start.head, items, limit);
      }
      ServeKeepsSlices(cfg, s, Next(cfg, s, Respond(c, stamped, now, delivered)), c, s.page, start.book, start.head, CutPage(start.head, items, limit),
                       tag, stamped, now, id);
    }
  }

  lemma TakeKeepsSlices(cfg: Config, s: State, c: ClientId, now: int, delivered: bool, id: BookId)
    requires Slices(cfg, s, id)
    ensures Slices(cfg, Next(cfg, s, TakePage(c, now, delivered)), id)
  {
    if c in s.clients && s.clients[c].request.Started? && s.clients[c].request.start.from.Some? {
      var s' := Next(cfg, s, TakePage(c, now, delivered));
      var start, limit := s.clients[c].request.start, s.clients[c].request.limit;
      var book, k := start.book, start.from.value;
      var swept, key := PruneExpired(s.page, now), FormatSyncToken(book, k);
      TakeKeepsBounds(cfg, s, c, now, delivered);
      if key in swept && swept[key].book == book {
        assert CursorBounded(s, book, k);
        if book == id && id in s.st.books {
          assert SliceCached(s, id, k);
          BookNumbered(cfg, s, id);
          if s.tags[key].Delta? { RestIsSlice(Log(s.st.books[id]), k, s.page[key].head, s.page[key].items, limit); }
        }
        ServeKeepsSlices(cfg, s, s', c, swept - {key}, book, swept[key].head, CutPage(swept[key].head, swept[key].items, limit),
                         Continued(s.tags, key, s.nextStamp), now, now, id);
      } else {
        StepKeepsSlices(cfg, s, s', c, id);
      }
    }
  }

  lemma BeginKeepsSlices(cfg: Config, s: State, c: ClientId, limit: int, id: BookId)
    requires Slices(cfg, s, id)
    ensures Slices(cfg, Next(cfg, s, Begin(c, limit)), id)
  {
    if c in s.clients && s.clients[c].request.Idle? {
      BeginKeepsBounds(cfg, s, c, limit);
      BegunBounded(cfg, s, c, limit);
      BegunFrame(s, c, limit);
      if BeginStep(s, c, limit) != s { StepKeepsSlices(cfg, s, BeginStep(s, c, limit), c, id); }
    }
  }

  lemma StartOverFrame(cfg: Config, s: State, c: ClientId)
    requires c in s.clients
    ensures var s' := Next(cfg, s, StartOver(c));
      && s'.st == s.st && s'.tags == s.tags && s'.page == s.page && s'.nextStamp == s.nextStamp
      && c in s'.clients && s'.clients == s.clients[c := s'.clients[c]]
      && s'.clients[c].request.Idle? && s'.clients[c].phase.Fresh?
  {}

  lemma StartOverKeepsSlices(cfg: Config, s: State, c: ClientId, id: BookId)
    requires Slices(cfg, s, id) && c in s.clients
    ensures Slices(cfg, Next(cfg, s, StartOver(c)), id)
  {
    NextKeepsBounds(cfg, s, StartOver(c));
    StartOverFrame(cfg, s, c);
    StepKeepsSlices(cfg, s, Next(cfg, s, StartOver(c)), c, id);
  }

  lemma RestartFrame(cfg: Config, s: State)
    ensures var s' := Next(cfg, s, Restart);
      s'.st == s.st && s'.page == map[] && forall c :: c in s'.clients ==> s'.clients[c].request.Idle?
  {}

  lemma NothingInFlight(cfg: Config, s: State, id: BookId)
    requires Bounded(cfg, s) && s.page == map[] && forall c :: c in s.clients ==> s.clients[c].request.Idle?
    ensures Slices(cfg, s, id)
  {}

  lemma RestartKeepsSlices(cfg: Config, s: State, id: BookId)
    requires Slices(cfg, s, id)
    ensures Slices(cfg, Next(cfg, s, Restart), id)
  {
    RestartKeepsBounds(cfg, s);
    RestartFrame(cfg, s);
    NothingInFlight(cfg, Next(cfg, s, Restart), id);
  }

  /** Every event keeps the slices of an addressbook whose change reads are whole. */
  lemma NextKeepsSlices(cfg: Config, s: State, e: Event, id: BookId)
    requires Slices(cfg, s, id) && ReadsWhole(s, e, id)
    ensures Slices(cfg, Next(cfg, s, e), id)
  {
    match e
    case Commit(op) => CommitKeepsSlices(cfg, s, op, id);
    case Begin(c, limit) => BeginKeepsSlices(cfg, s, c, limit, id);
    case TakePage(c, now, delivered) => TakeKeepsSlices(cfg, s, c, now, delivered, id);
    case ReadStore(c) => ReadKeepsSlices(cfg, s, c, id);
    case Respond(c, stamped, now, delivered) => RespondKeepsSlices(cfg, s, c, stamped, now, delivered, id);
    case StartOver(c) => if c in s.clients { StartOverKeepsSlices(cfg, s, c, id); }
    case Restart => RestartKeepsSlices(cfg, s, id);
  }

  ghost predicate WholeReadsRun(cfg: Config, s: State, es: seq<Event>, id: BookId) {
    es == [] || (WholeReadsRun(cfg, s, es[..|es| - 1], id) && ReadsWhole(RunEvents(cfg, s, es[..|es| - 1]), es[|es| - 1], id))
  }

  lemma {:induction false} RunKeepsSlices(cfg: Config, s: State, es: seq<Event>, id: BookId)
    requires Slices(cfg, s, id) && WholeReadsRun(cfg, s, es, id)
    ensures Slices(cfg, RunEvents(cfg, s, es), id)
  {
    if es != [] {
      var n := |es| - 1;
      RunKeepsSlices(cfg, s, es[..n], id);
      NextKeepsSlices(cfg, RunEvents(cfg, s, es[..n]), es[n], id);
    }
  }

  // ---- Sharing ----

  /** A slice of the history takes any client at its start from one server state to a later one. */
  lemma SliceServesAnyClient(log: seq<Change>, k: nat, head: nat, items: seq<Change>, limit: int)
    requires Numbered(log) && DeltaCursorOk(log, k, head, items) && items != []
    ensures var p := CutPage(head, items, limit);
      k < p.tokenRevision <= |log| && ApplyPage(StateAt(log, k), p) == StateAt(log, p.tokenRevision)
  {
    var p := CutPage(head, items, limit);
    var t := k + |p.items|;
    assert items[|p.items| - 1] == log[t - 1];
    assert p.items == log[k..t];
    ApplyPageIsReplay(StateAt(log, k), p);
    StateSplit(log, k, t);
  }

  /** In every run with whole reads of the addressbook, whatever first listings were handed to whom, a
      delta cursor holds the history from its token on, pruned or not, so any client at that token
      may be served from it. */
  lemma DeltaCursorsMayBeShared(cfg: Config, s: State, es: seq<Event>, s': State, id: BookId, k: nat, limit: int)
    requires Init(s) && WholeReadsRun(cfg, s, es, id) && s' == RunEvents(cfg, s, es) && id in s'.st.books
    requires var key := FormatSyncToken(id, k);
      key in s'.page && key in s'.tags && s'.tags[key].Delta?
    ensures var cur, log := s'.page[FormatSyncToken(id, k)], Log(s'.st.books[id]);
      var p := CutPage(cur.head, cur.items, limit);
      && k + |cur.items| <= |log| && cur.items == log[k..k + |cur.items|]
      && k < p.tokenRevision <= |log|
      && ApplyPage(StateAt(log, k), p) == StateAt(log, p.tokenRevision)
  {
    InitSlices(cfg, s, id);
    RunKeepsSlices(cfg, s, es, id);
    assert SliceCached(s', id, k) && CursorBounded(s', id, k);
    var cur := s'.page[FormatSyncToken(id, k)];
    BookNumbered(cfg, s', id);
    SliceServesAnyClient(Log(s'.st.books[id]), k, cur.head, cur.items, limit);
  }
}
