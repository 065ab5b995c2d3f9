/** Tokens and cached items in order, whatever the clocks, the prunes and the other clients do: what
    every event keeps without any hypothesis. */
module TokenBounds {
  import opened Basics
  import opened History
  import opened SyncItems
  import opened SyncTokens
  import opened CardStore
  import opened StoreInvariant
  import opened StoreReads
  import opened CursorCache
  import opened SyncCollection
  import opened SyncProtocol

  /** Items in revision order, none of them before revision k; only revision 0, which a listing gives
      to cards without rows, may repeat. */
  ghost predicate RisesFrom(items: seq<Change>, k: nat) {
    && (forall i, j :: 0 <= i < j < |items| ==> items[i].revision == 0 || items[i].revision < items[j].revision)
    && (forall i :: 0 <= i < |items| ==> k <= items[i].revision)
  }

  /** The least revision that a cut at k may leave: past k, unless the cut fell among the cards without
      rows. */
  function After(k: nat): nat { if k == 0 then 0 else k + 1 }

  /** Neither the head nor any item leads the book's revision. */
  ghost predicate WithinHistory(st: StoreState, id: BookId, head: nat, items: seq<Change>) {
    id in st.books ==>
      && head <= |st.books[id].hist| && (items != [] ==> 0 < |st.books[id].hist|)
      && forall i :: 0 <= i < |items| ==> items[i].revision <= |st.books[id].hist|
  }

  ghost predicate RequestBounded(s: State, cl: Client) {
    match cl.request
    case Idle => true
    case Started(start, _) => StartOk(s, cl, start)
    case Missed(start, _) => StartOk(s, cl, start) && start.from.Some?
    case Loaded(start, _, items, _) =>
      && StartOk(s, cl, start) && WithinHistory(s.st, start.book, start.head, items)
      && (start.from.Some? ==> start.from.value <= start.head)
      && RisesFrom(items, if start.from.Some? then start.from.value + 1 else 0)
  }

  /** A cursor under revision k holds items past k, or past nothing, and k is not the head any more. */
  ghost predicate CursorBounded(s: State, id: BookId, k: nat) {
    var key := FormatSyncToken(id, k);
    key in s.page ==>
      && id < s.st.nextId && s.page[key].book == id && s.page[key].items != []
      && RisesFrom(s.page[key].items, After(k))
      && WithinHistory(s.st, id, s.page[key].head, s.page[key].items)
      && (id in s.st.books ==> k < |s.st.books[id].hist|)
  }

  ghost predicate Bounded(cfg: Config, s: State) {
    && StoreOk(cfg.hash, s.st)
    && !OverCap(s.page, cfg.caps)
    && (forall c :: c in s.clients ==> PhaseBounded(s, s.clients[c].phase) && RequestBounded(s, s.clients[c]))
    && (forall id: BookId, k: nat :: CursorBounded(s, id, k))
  }

  lemma InitBounded(cfg: Config, s: State)
    requires Init(s)
    ensures Bounded(cfg, s)
  {
    assert TotalItems(s.page) == 0;
  }

  // ---- One page ----

  /** Cutting items that rise from k: the token is not before k, and the rest lies past the token. */
  lemma CutRises(head: nat, items: seq<Change>, limit: int, k: nat)
    requires RisesFrom(items, k) && (items == [] ==> k <= head)
    ensures var p := CutPage(head, items, limit);
      k <= p.tokenRevision && RisesFrom(p.remaining, After(p.tokenRevision))
  {}

  lemma CutWithinHistory(st: StoreState, id: BookId, head: nat, items: seq<Change>, limit: int)
    requires WithinHistory(st, id, head, items) && RisesFrom(items, 0)
    ensures var p := CutPage(head, items, limit);
      && WithinHistory(st, id, head, p.remaining)
      && (id in st.books ==> p.tokenRevision <= |st.books[id].hist|)
      && (id in st.books && p.truncated ==> p.tokenRevision < |st.books[id].hist|)
  {
    var p := CutPage(head, items, limit);
    if p.truncated {
      assert items[|p.items| - 1].revision == p.tokenRevision;
      assert p.remaining[0] == items[|p.items|];
    }
  }

  // ---- What the second read returns ----

  /** Of two cards in a listing the first has revision 0 or the smaller one. */
  lemma ListingStrict(hash: Hash, b: Book, i: nat, j: nat)
    requires BookOk(hash, b) && i < j < |StateListing(b)|
    ensures var items := StateListing(b);
      items[i].revision == 0 || items[i].revision < items[j].revision
  {
    var x, y := StateListing(b)[i], StateListing(b)[j];
    assert x in StatesOf(b) && y in StatesOf(b) && StateBefore(x, y);
    ListedState(hash, b, x);
    ListedState(hash, b, y);
    if x.href == y.href { LessIsIrreflexive(x.href); }
  }

  lemma ListedWithin(hash: Hash, b: Book, c: Change)
    requires BookOk(hash, b) && c in StatesOf(b)
    ensures 0 < |b.hist| && c.revision <= |b.hist|
  {
    ListedState(hash, b, c);
    LiveWasChanged(Log(b), |b.hist|, c.href);
  }

  lemma ListingRises(hash: Hash, b: Book)
    requires BookOk(hash, b)
    ensures RisesFrom(StateListing(b), 0) && (StateListing(b) != [] ==> 0 < |b.hist|)
    ensures forall i :: 0 <= i < |StateListing(b)| ==> StateListing(b)[i].revision <= |b.hist|
  {
    var items := StateListing(b);
    forall i, j | 0 <= i < j < |items| ensures items[i].revision == 0 || items[i].revision < items[j].revision {
      ListingStrict(hash, b, i, j);
    }
    forall i | 0 <= i < |items| ensures 0 < |b.hist| && items[i].revision <= |b.hist| {
      assert items[i] in items;
      ListedWithin(hash, b, items[i]);
    }
  }

  /** A change read holds changes past the token only, in order, even with holes in the journal. */
  lemma ChangesRise(hash: Hash, b: Book, k: nat)
    requires BookOk(hash, b)
    ensures RisesFrom(ChangesSince(b.journal, k), k + 1)
    ensures forall i :: 0 <= i < |ChangesSince(b.journal, k)| ==> ChangesSince(b.journal, k)[i].revision <= |b.hist|
  {
    var kept := Keep(b.journal, NewerThan(k));
    KeepRetained(b.journal, b.hist, NewerThan(k));
    KeepMembers(b.journal, NewerThan(k));
    forall i | 0 <= i < |kept| ensures k < kept[i].change.revision <= |b.hist| {
      assert kept[i] in kept && RowOf(kept[i], b.hist);
    }
  }

  lemma ReadRises(hash: Hash, st: StoreState, start: Start)
    requires StoreOk(hash, st) && (start.book in st.books ==> start.head <= |st.books[start.book].hist|)
    requires ReadItems(st, start).Ok?
    ensures var items := ReadItems(st, start).value;
      && WithinHistory(st, start.book, start.head, items)
      && (start.from.Some? ==> start.from.value <= start.head)
      && RisesFrom(items, if start.from.Some? then start.from.value + 1 else 0)
  {
    if start.book in st.books {
      match start.from
      case None => ListingRises(hash, st.books[start.book]);
      case Some(k) => ChangesRise(hash, st.books[start.book], k);
    }
  }

  // ---- Every event ----

  /** A client's own token parses back to its book and revision, or the book is gone and the
      request is refused. */
  lemma StartSpeaksForClient(cfg: Config, s: State, cl: Client)
    requires StoreOk(cfg.hash, s.st) && PhaseBounded(s, cl.phase)
    requires StartRequest(s.st, cl.name, TokenOf(cl.phase)).Ok?
    ensures var start := StartRequest(s.st, cl.name, TokenOf(cl.phase)).value;
      && start.book in s.st.books && start.book == s.st.names[cl.name]
      && start.head == |s.st.books[start.book].hist|
      && start.from == (if cl.phase.Fresh? then None else Some(cl.phase.token))
      && (cl.phase.Synced? ==> cl.phase.book == start.book)
  {
    if cl.phase.Synced? {
      FormatHasNoSpaces(cl.phase.book, cl.phase.token);
      ParseOfFormat(cl.phase.book, cl.phase.token);
    }
  }

  /** After an event of one client that leaves the store alone and adds nothing to the cache. */
  lemma StepKeepsBounds(cfg: Config, s: State, s': State, c: ClientId)
    requires Bounded(cfg, s) && c in s.clients && c in s'.clients
    requires s'.st == s.st && s'.nextStamp == s.nextStamp && SubCache(s'.page, s.page)
    requires s'.clients == s.clients[c := s'.clients[c]]
    requires PhaseBounded(s, s'.clients[c].phase) && RequestBounded(s, s'.clients[c])
    ensures Bounded(cfg, s')
  {
    SubCacheFits(s'.page, s.page, cfg.caps);
    forall id: BookId, k: nat ensures CursorBounded(s', id, k) { assert CursorBounded(s, id, k); }
    forall d | d in s'.clients ensures PhaseBounded(s', s'.clients[d].phase) && RequestBounded(s', s'.clients[d]) {
      assert PhaseBounded(s, s'.clients[d].phase) && RequestBounded(s, s'.clients[d]);
    }
  }

  lemma CommitKeepsBounds(cfg: Config, s: State, op: Op)
    requires Bounded(cfg, s)
    ensures Bounded(cfg, Next(cfg, s, Commit(op)))
  {
    var s' := Next(cfg, s, Commit(op));
    ApplyKeeps(cfg.hash, s.st, op);
    forall c | c in s.clients ensures PhaseBounded(s', s.clients[c].phase) && RequestBounded(s', s.clients[c]) {
      assert PhaseBounded(s, s.clients[c].phase) && RequestBounded(s, s.clients[c]);
    }
    forall id: BookId, k: nat ensures CursorBounded(s', id, k) { assert CursorBounded(s, id, k); }
  }

  lemma BegunBounded(cfg: Config, s: State, c: ClientId, limit: int)
    requires StoreOk(cfg.hash, s.st) && c in s.clients && s.clients[c].request.Idle? && PhaseBounded(s, s.clients[c].phase)
    ensures var s' := BeginStep(s, c, limit);
      s' == s || (&& c in s'.clients && s' == s.(clients := s.clients[c := s'.clients[c]])
                  && PhaseBounded(s, s'.clients[c].phase) && RequestBounded(s, s'.clients[c]))
  {
    var cl := s.clients[c];
    if StartRequest(s.st, cl.name, TokenOf(cl.phase)).Ok? { StartSpeaksForClient(cfg, s, cl); }
  }

  lemma BegunFrame(s: State, c: ClientId, limit: int)
    requires c in s.clients && s.clients[c].request.Idle?
    ensures var s' := BeginStep(s, c, limit);
      && s'.st == s.st && s'.nextStamp == s.nextStamp && s'.tags == s.tags && s'.page == s.page && c in s'.clients
      && !s'.clients[c].request.Loaded? && s'.clients[c].replica == s.clients[c].replica
      && (s'.clients[c].phase.Fresh? || s'.clients[c].phase == s.clients[c].phase)
  {}

  lemma BeginKeepsBounds(cfg: Config, s: State, c: ClientId, limit: int)
    requires Bounded(cfg, s)
    ensures Bounded(cfg, Next(cfg, s, Begin(c, limit)))
  {
    if c in s.clients && s.clients[c].request.Idle? {
      BegunBounded(cfg, s, c, limit);
      if BeginStep(s, c, limit) != s { StepKeepsBounds(cfg, s, BeginStep(s, c, limit), c); }
    }
  }

  lemma ReadKeepsBounds(cfg: Config, s: State, c: ClientId)
    requires Bounded(cfg, s)
    ensures Bounded(cfg, Next(cfg, s, ReadStore(c)))
  {
    if c in s.clients && CanRead(s.clients[c].request) {
      var start := s.clients[c].request.start;
      assert RequestBounded(s, s.clients[c]) && PhaseBounded(s, s.clients[c].phase);
      if ReadItems(s.st, start).Ok? { ReadRises(cfg.hash, s.st, start); }
      StepKeepsBounds(cfg, s, Next(cfg, s, ReadStore(c)), c);
    }
  }

  lemma StoreRestKeepsBounds(cfg: Config, s: State, s': State, base: Cache, book: BookId, head: nat, p: Page, stamped: int, now: int, id: BookId, k: nat)
    requires CursorBounded(s, id, k) && book < s.st.nextId && SubCache(base, s.page)
    requires p.truncated ==>
      && p.remaining != [] && RisesFrom(p.remaining, After(p.tokenRevision)) && WithinHistory(s.st, book, head, p.remaining)
      && (book in s.st.books ==> p.tokenRevision < |s.st.books[book].hist|)
    requires s'.st == s.st && s'.page == StoreRest(base, cfg.caps, book, head, p, stamped, now)
    ensures CursorBounded(s', id, k)
  {
    var key, token := FormatSyncToken(id, k), FormatSyncToken(book, p.tokenRevision);
    if p.truncated && key in s'.page {
      PutCursorOrigin(base, cfg.caps, token, Cursor(book, head, stamped + CURSOR_TTL, p.remaining), now, key);
      if key == token { FormatIsInjective(id, k, book, p.tokenRevision); }
    }
  }

  lemma StoreRestFits(page: Cache, base: Cache, caps: Caps, book: BookId, head: nat, p: Page, stamped: int, now: int)
    requires SubCache(base, page) && !OverCap(page, caps)
    ensures !OverCap(StoreRest(base, caps, book, head, p, stamped, now), caps)
  {
    SubCacheFits(base, page, caps);
    PutCursorFits(base, caps, FormatSyncToken(book, p.tokenRevision), Cursor(book, head, stamped + CURSOR_TTL, p.remaining), now);
  }

  /** A page cut from bounded items, delivered or not, its rest cached or not. */
  lemma ServeKeepsBounds(cfg: Config, s: State, s': State, c: ClientId, base: Cache, book: BookId, head: nat, items: seq<Change>, limit: int,
                         r: Replica, bound: nat, stamped: int, now: int, delivered: bool)
    requires Bounded(cfg, s) && c in s.clients && 1 <= book < s.st.nextId && SubCache(base, s.page)
    requires RisesFrom(items, 0) && WithinHistory(s.st, book, head, items)
    requires s'.st == s.st && s'.nextStamp == s.nextStamp + 1
    requires s'.page == StoreRest(base, cfg.caps, book, head, CutPage(head, items, limit), stamped, now)
    requires s'.clients == s.clients[c := Deliver(s.clients[c], r, CutPage(head, items, limit), book, bound, s.nextStamp, delivered)]
    ensures Bounded(cfg, s')
  {
    var p := CutPage(head, items, limit);
    CutRises(head, items, limit, 0);
    CutWithinHistory(s.st, book, head, items, limit);
    StoreRestFits(s.page, base, cfg.caps, book, head, p, stamped, now);
    forall d | d in s'.clients ensures PhaseBounded(s', s'.clients[d].phase) && RequestBounded(s', s'.clients[d]) {
      assert PhaseBounded(s, s.clients[d].phase) && RequestBounded(s, s.clients[d]);
    }
    forall id: BookId, k: nat ensures CursorBounded(s', id, k) {
      StoreRestKeepsBounds(cfg, s, s', base, book, head, p, stamped, now, id, k);
    }
  }

  lemma RespondKeepsBounds(cfg: Config, s: State, c: ClientId, stamped: int, now: int, delivered: bool)
    requires Bounded(cfg, s)
    ensures Bounded(cfg, Next(cfg, s, Respond(c, stamped, now, delivered)))
  {
    if c in s.clients && s.clients[c].request.Loaded? {
      var cl := s.clients[c];
      var Loaded(start, limit, items, listedAt) := cl.request;
      assert RequestBounded(s, cl);
      var first := start.from.None?;
      ServeKeepsBounds(cfg, s, Next(cfg, s, Respond(c, stamped, now, delivered)), c, s.page, start.book, start.head, items, limit,
                       if first then map[] else cl.replica, if first then listedAt else BoundOf(cl.phase), stamped, now, delivered);
    }
  }

  lemma TakeKeepsBounds(cfg: Config, s: State, c: ClientId, now: int, delivered: bool)
    requires Bounded(cfg, s)
    ensures Bounded(cfg, Next(cfg, s, TakePage(c, now, delivered)))
  {
    if c in s.clients && s.clients[c].request.Started? && s.clients[c].request.start.from.Some? {
      var s', cl := Next(cfg, s, TakePage(c, now, delivered)), s.clients[c];
      var start, limit := cl.request.start, cl.request.limit;
      var id, k := start.book, start.from.value;
      var swept, key := PruneExpired(s.page, now), FormatSyncToken(id, k);
      assert RequestBounded(s, cl) && PhaseBounded(s, cl.phase) && CursorBounded(s, id, k);
      if key in swept && swept[key].book == id {
        ServeKeepsBounds(cfg, s, s', c, swept - {key}, id, swept[key].head, swept[key].items, limit,
                         cl.replica, BoundOf(cl.phase), now, now, delivered);
      } else {
        StepKeepsBounds(cfg, s, s', c);
      }
    }
  }

  lemma RestartKeepsBounds(cfg: Config, s: State)
    requires Bounded(cfg, s)
    ensures Bounded(cfg, Next(cfg, s, Restart))
  {
    var s' := Next(cfg, s, Restart);
    assert TotalItems(s'.page) == 0;
    forall c | c in s'.clients ensures PhaseBounded(s', s'.clients[c].phase) { assert PhaseBounded(s, s.clients[c].phase); }
  }

  /** Every event keeps the bounds, without any hypothesis. */
  lemma NextKeepsBounds(cfg: Config, s: State, e: Event)
    requires Bounded(cfg, s)
    ensures Bounded(cfg, Next(cfg, s, e))
  {
    match e
    case Commit(op) => CommitKeepsBounds(cfg, s, op);
    case Begin(c, limit) => BeginKeepsBounds(cfg, s, c, limit);
    case TakePage(c, now, delivered) => TakeKeepsBounds(cfg, s, c, now, delivered);
    case ReadStore(c) => ReadKeepsBounds(cfg, s, c);
    case Respond(c, stamped, now, delivered) => RespondKeepsBounds(cfg, s, c, stamped, now, delivered);
    case StartOver(c) => if c in s.clients { StepKeepsBounds(cfg, s, Next(cfg, s, e), c); }
    case Restart => RestartKeepsBounds(cfg, s);
  }

  lemma {:induction false} RunKeepsBounds(cfg: Config, s: State, es: seq<Event>)
    requires Bounded(cfg, s)
    ensures Bounded(cfg, RunEvents(cfg, s, es))
  {
    if es != [] {
      var n := |es| - 1;
      RunKeepsBounds(cfg, s, es[..n]);
      NextKeepsBounds(cfg, RunEvents(cfg, s, es[..n]), es[n]);
    }
  }

  /** In every run whatsoever no client's token leads the revision of its addressbook, and the cache
      holds both caps. */
  lemma TokensNeverLead(cfg: Config, s: State, es: seq<Event>, c: ClientId)
    requires Init(s) && c in RunEvents(cfg, s, es).clients
    ensures var s' := RunEvents(cfg, s, es);
      var phase := s'.clients[c].phase;
      && !OverCap(s'.page, cfg.caps)
      && (phase.Synced? && phase.book in s'.st.books ==> phase.token <= s'.st.books[phase.book].revision)
  {
    InitBounded(cfg, s);
    RunKeepsBounds(cfg, s, es);
    assert PhaseBounded(RunEvents(cfg, s, es), RunEvents(cfg, s, es).clients[c].phase);
  }

  // ---- Tokens in order ----

  /** Still synced with the same book, at the same token or a later one; or not synced. */
  ghost predicate Advances(before: Phase, after: Phase)
    requires before.Synced?
  {
    after.Synced? ==> after.book == before.book && before.token <= after.token
  }

  lemma TakenTokenAdvances(cfg: Config, s: State, c: ClientId, now: int)
    requires Bounded(cfg, s) && c in s.clients && s.clients[c].phase.Synced?
    requires s.clients[c].request.Started? && s.clients[c].request.start.from.Some?
    ensures Advances(s.clients[c].phase, TakeStep(cfg, s, c, now, true).clients[c].phase)
  {
    var cl := s.clients[c];
    var key := FormatSyncToken(cl.phase.book, cl.phase.token);
    assert RequestBounded(s, cl) && CursorBounded(s, cl.phase.book, cl.phase.token);
    if key in s.page { CutRises(s.page[key].head, s.page[key].items, cl.request.limit, After(cl.phase.token)); }
  }

  lemma RespondedTokenAdvances(cfg: Config, s: State, c: ClientId, stamped: int, now: int)
    requires Bounded(cfg, s) && c in s.clients && s.clients[c].phase.Synced? && s.clients[c].request.Loaded?
    ensures Advances(s.clients[c].phase, RespondStep(cfg, s, c, stamped, now, true).clients[c].phase)
  {
    var cl := s.clients[c];
    assert RequestBounded(s, cl);
    CutRises(cl.request.start.head, cl.request.items, cl.request.limit, cl.phase.token);
  }

  lemma OnlyResponsesMoveTokens(cfg: Config, s: State, e: Event, c: ClientId)
    requires c in s.clients
    ensures c in Next(cfg, s, e).clients
    ensures Next(cfg, s, e).clients[c].phase.Fresh?
         || Next(cfg, s, e).clients[c].phase == s.clients[c].phase
         || ((e.TakePage? || e.Respond?) && e.c == c)
  {}

  /** A client's token never goes back while it stays synced, at any event of any run: no hypothesis
      on clocks, prunes or cursors is needed, and the book may even have been dropped. */
  lemma TokensNeverGoBack(cfg: Config, s: State, es: seq<Event>, e: Event, c: ClientId)
    requires Init(s) && c in RunEvents(cfg, s, es).clients && RunEvents(cfg, s, es).clients[c].phase.Synced?
    ensures var before, after := RunEvents(cfg, s, es), RunEvents(cfg, s, es + [e]);
      c in after.clients && Advances(before.clients[c].phase, after.clients[c].phase)
  {
    InitBounded(cfg, s);
    RunKeepsBounds(cfg, s, es);
    RunOneMore(cfg, s, es, e);
    StepAdvances(cfg, RunEvents(cfg, s, es), e, c);
  }

  lemma StepAdvances(cfg: Config, s: State, e: Event, c: ClientId)
    requires Bounded(cfg, s) && c in s.clients && s.clients[c].phase.Synced?
    ensures c in Next(cfg, s, e).clients && Advances(s.clients[c].phase, Next(cfg, s, e).clients[c].phase)
  {
    OnlyResponsesMoveTokens(cfg, s, e, c);
    var cl := s.clients[c];
    if e.TakePage? && e.c == c && e.delivered && cl.request.Started? && cl.request.start.from.Some? {
      TakenTokenAdvances(cfg, s, c, e.now);
    } else if e.Respond? && e.c == c && e.delivered && cl.request.Loaded? {
      RespondedTokenAdvances(cfg, s, c, e.stamped, e.now);
    }
  }
}
