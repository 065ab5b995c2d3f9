/** Progress: a client that keeps following its token against a store that nobody writes to reaches
    exactly the server's cards, or is refused. */
module SyncProgress {
  import opened Basics
  import opened SyncItems
  import opened SyncTokens
  import opened CardStore
  import opened StoreInvariant
  import opened StoreReads
  import opened CursorCache
  import opened SyncCollection
  import opened SyncProtocol
  import opened TokenBounds
  import opened SyncInvariant
  import opened SyncConvergence

  /** The events of one request. Events that do not apply change nothing, so a cursor hit makes the
      last two idle. */
  function RequestEvents(c: ClientId, limit: int, now: int): seq<Event> {
    [Begin(c, limit), TakePage(c, now, true), ReadStore(c), Respond(c, now, now, true)]
  }

  /** One request run without interruption. */
  ghost function Round(cfg: Config, s: State, c: ClientId, limit: int, now: int): State {
    RunEvents(cfg, s, RequestEvents(c, limit, now))
  }

  lemma RoundUnfolds(cfg: Config, s: State, c: ClientId, limit: int, now: int)
    ensures Round(cfg, s, c, limit, now) ==
      Finish(cfg, Next(cfg, Next(cfg, s, Begin(c, limit)), TakePage(c, now, true)), c, now)
  {
    var es := RequestEvents(c, limit, now);
    assert es[..3] == [es[0], es[1], es[2]] && es[..3][..2] == [es[0], es[1]] && [es[0], es[1]][..1] == [es[0]] && [es[0]][..0] == [];
    RunOneMore(cfg, s, [], es[0]);
    RunOneMore(cfg, s, [es[0]], es[1]);
    RunOneMore(cfg, s, [es[0], es[1]], es[2]);
    RunOneMore(cfg, s, [es[0], es[1], es[2]], es[3]);
  }

  /** What a response leaves of a client. */
  ghost predicate Answered(cl: Client, cl': Client, res: Result<(BookId, Page), SyncError>) {
    match res
    case Err(AddressbookNotFound) => cl' == cl
    case Err(InvalidToken) => cl' == cl.(phase := Fresh)
    case Ok((id, p)) =>
      && cl'.request.Idle? && cl'.name == cl.name
      && cl'.replica == ApplyPage(if cl.phase.Fresh? then map[] else cl.replica, p)
      && cl'.phase.Synced? && cl'.phase.book == id && cl'.phase.token == p.tokenRevision
  }

  /** The client after a request began: refused, or reading with its own token and the present head. */
  ghost predicate Begun(s: State, cl: Client, cl1: Client, limit: int) {
    match StartRequest(s.st, cl.name, TokenOf(cl.phase))
    case Err(AddressbookNotFound) => cl1 == cl
    case Err(InvalidToken) => cl1 == cl.(phase := Fresh)
    case Ok(start) =>
      && cl1 == cl.(request := if start.from.Some? && limit <= 0 then Missed(start, limit) else Started(start, limit))
      && start.book in s.st.books && start.head == |s.st.books[start.book].hist|
      && start.from == (if cl.phase.Fresh? then None else Some(cl.phase.token))
      && (cl.phase.Synced? ==> cl.phase.book == start.book)
  }

  lemma BeginEffect(cfg: Config, s: State, c: ClientId, limit: int)
    requires StoreOk(cfg.hash, s.st) && c in s.clients && s.clients[c].request.Idle? && PhaseBounded(s, s.clients[c].phase)
    ensures var s1 := Next(cfg, s, Begin(c, limit));
      && c in s1.clients && s1 == s.(clients := s.clients[c := s1.clients[c]])
      && Begun(s, s.clients[c], s1.clients[c], limit)
  {
    var cl := s.clients[c];
    if StartRequest(s.st, cl.name, TokenOf(cl.phase)).Ok? { StartSpeaksForClient(cfg, s, cl); }
  }

  /** The second half of a request, from the read on. */
  ghost function Finish(cfg: Config, s: State, c: ClientId, now: int): State {
    Next(cfg, Next(cfg, s, ReadStore(c)), Respond(c, now, now, true))
  }

  lemma FinishIdle(cfg: Config, s: State, c: ClientId, now: int)
    requires c in s.clients && s.clients[c].request.Idle?
    ensures Finish(cfg, s, c, now) == s
  {}

  lemma FinishServes(cfg: Config, s: State, c: ClientId, now: int)
    requires c in s.clients && CanRead(s.clients[c].request)
    requires s.clients[c].request.start.from.None? <==> s.clients[c].phase.Fresh?
    ensures var cl, s' := s.clients[c], Finish(cfg, s, c, now);
      var r := ServeFromStore(s.st, s.page, cfg.caps, cl.request.start, cl.request.limit, now, now);
      && s'.st == s.st && s'.page == r.0
      && c in s'.clients && s'.clients == s.clients[c := s'.clients[c]]
      && Answered(cl.(request := Idle), s'.clients[c], r.1)
  {
    var cl, s1 := s.clients[c], ReadStep(s, c);
    match ReadItems(s.st, cl.request.start)
    case Err(e) =>
      assert e == InvalidToken && Finish(cfg, s, c, now) == s1;
    case Ok(items) =>
      assert Finish(cfg, s, c, now) == RespondStep(cfg, s1, c, now, now, true);
  }

  /** A started request, from the cache lookup on. */
  lemma StartedServes(cfg: Config, s: State, c: ClientId, now: int)
    requires c in s.clients && (CanRead(s.clients[c].request) || s.clients[c].request.Started?)
    requires s.clients[c].request.start.from.None? <==> s.clients[c].phase.Fresh?
    requires s.clients[c].request.start.from.Some? ==> (s.clients[c].request.Started? <==> s.clients[c].request.limit > 0)
    ensures var cl, s' := s.clients[c], Finish(cfg, Next(cfg, s, TakePage(c, now, true)), c, now);
      var r := ServeFrom(s.st, s.page, cfg.caps, cl.request.start, cl.request.limit, now, now, now);
      && s'.st == s.st && s'.page == r.0
      && c in s'.clients && s'.clients == s.clients[c := s'.clients[c]]
      && Answered(cl.(request := Idle), s'.clients[c], r.1)
  {
    var s2 := Next(cfg, s, TakePage(c, now, true));
    if s2.clients[c].request.Idle? { FinishIdle(cfg, s2, c, now); } else { FinishServes(cfg, s2, c, now); }
  }

  /** The small steps of one uninterrupted request are the request as a whole. */
  lemma RoundIsSync(cfg: Config, s: State, c: ClientId, limit: int, now: int)
    requires StoreOk(cfg.hash, s.st) && c in s.clients && s.clients[c].request.Idle? && PhaseBounded(s, s.clients[c].phase)
    ensures var r := Sync(s.st, s.page, cfg.caps, s.clients[c].name, TokenOf(s.clients[c].phase), limit, now, now, now);
      var s' := Round(cfg, s, c, limit, now);
      && s'.st == s.st && s'.page == r.0
      && c in s'.clients && s'.clients == s.clients[c := s'.clients[c]]
      && Answered(s.clients[c], s'.clients[c], r.1)
  {
    var cl := s.clients[c];
    var s1 := Next(cfg, s, Begin(c, limit));
    BeginEffect(cfg, s, c, limit);
    RoundUnfolds(cfg, s, c, limit, now);
    if s1.clients[c].request.Idle? {
      FinishIdle(cfg, s1, c, now);
    } else {
      StartedServes(cfg, s1, c, now);
    }
  }

  // ---- Progress, whatever the clocks, the prunes and the cursors of others ----

  /** The client is idle and synced with its collection. */
  ghost predicate Following(s: State, c: ClientId) {
    && c in s.clients && s.clients[c].request.Idle? && s.clients[c].phase.Synced?
    && s.clients[c].name in s.st.names && s.st.names[s.clients[c].name] == s.clients[c].phase.book
    && s.clients[c].phase.book in s.st.books
  }

  ghost function BookOf(s: State, c: ClientId): Book
    requires Following(s, c)
  {
    s.st.books[s.clients[c].phase.book]
  }

  function TokenRevision(s: State, c: ClientId): nat {
    if c in s.clients && s.clients[c].phase.Synced? then s.clients[c].phase.token else 0
  }

  /** The items still cached under the client's token. */
  function Pending(s: State, c: ClientId): nat {
    if c in s.clients && TokenOf(s.clients[c].phase) in s.page then |s.page[TokenOf(s.clients[c].phase)].items| else 0
  }

  lemma RoundKeepsBounds(cfg: Config, s: State, c: ClientId, limit: int, now: int)
    requires Bounded(cfg, s)
    ensures Bounded(cfg, Round(cfg, s, c, limit, now))
  {
    RunKeepsBounds(cfg, s, RequestEvents(c, limit, now));
  }

  /** A served rest is shorter than what it was cut from. */
  lemma TakenRestIsShorter(page: Cache, caps: Caps, id: BookId, k: nat, limit: int, now: int)
    requires limit >= 1 && TakeCursor(page, caps, id, k, limit, now).1.Some?
    ensures var key := FormatSyncToken(id, k);
      var t := TakeCursor(page, caps, id, k, limit, now);
      && key in page && t.1.value == CutPage(page[key].head, page[key].items, limit)
      && (key in t.0 ==> t.1.value.truncated && |t.0[key].items| < |page[key].items|)
  {
    var key := FormatSyncToken(id, k);
    var t := TakeCursor(page, caps, id, k, limit, now);
    var swept := PruneExpired(page, now);
    var p := t.1.value;
    if key in t.0 {
      PutCursorOrigin(swept - {key}, caps, FormatSyncToken(id, p.tokenRevision),
                      Cursor(id, swept[key].head, now + CURSOR_TTL, p.remaining), now, key);
    }
  }

  /** A client's own token on its own addressbook is answered by a cursor or by the journal. */
  lemma SyncOfFollower(cfg: Config, s: State, c: ClientId, limit: int, now: int)
    requires StoreOk(cfg.hash, s.st) && Following(s, c) && PhaseBounded(s, s.clients[c].phase) && limit >= 1
    ensures var cl := s.clients[c];
      var start := Start(cl.phase.book, BookOf(s, c).revision, Some(cl.phase.token));
      var t := TakeCursor(s.page, cfg.caps, start.book, cl.phase.token, limit, now);
      Sync(s.st, s.page, cfg.caps, cl.name, TokenOf(cl.phase), limit, now, now, now) ==
        if t.1.Some? then (t.0, Ok((start.book, t.1.value))) else ServeFromStore(s.st, t.0, cfg.caps, start, limit, now, now)
  {
    FormatHasNoSpaces(s.clients[c].phase.book, s.clients[c].phase.token);
    ParseOfFormat(s.clients[c].phase.book, s.clients[c].phase.token);
  }

  /** What a round of a client behind the head achieves: a refusal, and then the row of its next
      revision is gone; a later token; or fewer cached items under the same one. */
  ghost predicate Progress(s: State, s': State, c: ClientId)
    requires Following(s, c) && TokenRevision(s, c) < |BookOf(s, c).hist|
  {
    || (c in s'.clients && s'.clients[c].phase.Fresh? && BookOf(s, c).hist[TokenRevision(s, c)] !in BookOf(s, c).journal)
    || (&& Following(s', c) && s'.clients[c].phase.book == s.clients[c].phase.book
        && (|| TokenRevision(s, c) < TokenRevision(s', c) <= BookOf(s, c).revision
            || (TokenRevision(s', c) == TokenRevision(s, c) && Pending(s', c) < Pending(s, c))))
  }

  lemma HitProgresses(cfg: Config, s: State, s': State, c: ClientId, limit: int, now: int)
    requires Bounded(cfg, s) && Following(s, c) && limit >= 1 && TokenRevision(s, c) < |BookOf(s, c).hist|
    requires TakeCursor(s.page, cfg.caps, s.clients[c].phase.book, s.clients[c].phase.token, limit, now).1.Some?
    requires var id, k := s.clients[c].phase.book, s.clients[c].phase.token;
      var t := TakeCursor(s.page, cfg.caps, id, k, limit, now);
      && s'.st == s.st && s'.page == t.0 && c in s'.clients
      && Answered(s.clients[c], s'.clients[c], Ok((id, t.1.value)))
    ensures Progress(s, s', c)
  {
    var id, k := s.clients[c].phase.book, s.clients[c].phase.token;
    var cur := s.page[FormatSyncToken(id, k)];
    assert CursorBounded(s, id, k);
    TakenRestIsShorter(s.page, cfg.caps, id, k, limit, now);
    CutRises(cur.head, cur.items, limit, After(k));
    CutWithinHistory(s.st, id, cur.head, cur.items, limit);
    assert Following(s', c);
  }

  lemma StoreServesAdvance(hash: Hash, st: StoreState, page: Cache, caps: Caps, id: BookId, k: nat, limit: int, now: int)
    requires StoreOk(hash, st) && id in st.books && k < st.books[id].revision && limit >= 1
    ensures match ServeFromStore(st, page, caps, Start(id, st.books[id].revision, Some(k)), limit, now, now).1
      case Err(e) => e == InvalidToken && st.books[id].hist[k] !in st.books[id].journal
      case Ok((served, p)) => served == id && k < p.tokenRevision <= st.books[id].revision
  {
    var b := st.books[id];
    StaleIffNextRowGone(hash, b, k, b.revision);
    ChangesRise(hash, b, k);
    CutRises(b.revision, ChangesSince(b.journal, k), limit, k + 1);
    CutWithinHistory(st, id, b.revision, ChangesSince(b.journal, k), limit);
  }

  lemma MissProgresses(cfg: Config, s: State, s': State, c: ClientId, page: Cache, limit: int, now: int)
    requires StoreOk(cfg.hash, s.st) && Following(s, c) && limit >= 1 && TokenRevision(s, c) < |BookOf(s, c).hist|
    requires var cl := s.clients[c];
      var start := Start(cl.phase.book, BookOf(s, c).revision, Some(cl.phase.token));
      && s'.st == s.st && c in s'.clients
      && Answered(cl, s'.clients[c], ServeFromStore(s.st, page, cfg.caps, start, limit, now, now).1)
    ensures Progress(s, s', c)
  {
    StoreServesAdvance(cfg.hash, s.st, page, cfg.caps, s.clients[c].phase.book, s.clients[c].phase.token, limit, now);
  }

  /** Every round of a client behind the head is refused, moves its token forward, or leaves it
      fewer cached items at the same token: whoever the cursor under its token belongs to. */
  lemma RoundProgresses(cfg: Config, s: State, c: ClientId, limit: int, now: int)
    requires Bounded(cfg, s) && Following(s, c) && limit >= 1 && TokenRevision(s, c) < |BookOf(s, c).hist|
    ensures var s' := Round(cfg, s, c, limit, now);
      s'.st == s.st && c in s'.clients && Progress(s, s', c)
  {
    var cl, s' := s.clients[c], Round(cfg, s, c, limit, now);
    assert PhaseBounded(s, cl.phase);
    RoundIsSync(cfg, s, c, limit, now);
    SyncOfFollower(cfg, s, c, limit, now);
    var t := TakeCursor(s.page, cfg.caps, cl.phase.book, cl.phase.token, limit, now);
    if t.1.Some? {
      HitProgresses(cfg, s, s', c, limit, now);
    } else {
      MissProgresses(cfg, s, s', c, t.0, limit, now);
    }
  }

  // ---- Following tokens to the end ----

  /** What surrounds the rounds of a client: its limits, the clock, and a prune after each round. */
  datatype Schedule = Schedule(limit: nat -> int, clock: nat -> int, prune: nat -> Op)

  ghost predicate Paging(sched: Schedule) {
    forall i :: sched.limit(i) >= 1 && (sched.prune(i).OpPruneByAge? || sched.prune(i).OpPruneByMaxRevisions?)
  }

  ghost function RoundThenPrune(cfg: Config, s: State, c: ClientId, sched: Schedule, i: nat): State {
    Next(cfg, Round(cfg, s, c, sched.limit(i), sched.clock(i)), Commit(sched.prune(i)))
  }

  /** n requests in a row, the first of them being number i of the schedule. */
  ghost function Rounds(cfg: Config, s: State, c: ClientId, sched: Schedule, i: nat, n: nat): State
    decreases n
  {
    if n == 0 then s else Rounds(cfg, RoundThenPrune(cfg, s, c, sched, i), c, sched, i + 1, n - 1)
  }

  /** Prunes leave cards and history alone and only take rows away. */
  ghost predicate OnlyPruned(b: Book, b': Book) {
    && b'.hist == b.hist && b'.cards == b.cards && b'.revision == b.revision
    && Floor(b) <= Floor(b') && forall r :: r in b'.journal ==> r in b.journal
  }

  lemma PruneEffect(cfg: Config, s: State, op: Op, id: BookId)
    requires op.OpPruneByAge? || op.OpPruneByMaxRevisions?
    requires id in s.st.books
    ensures var s' := Next(cfg, s, Commit(op));
      && s' == s.(st := s'.st) && s'.st.names == s.st.names
      && id in s'.st.books && OnlyPruned(s.st.books[id], s'.st.books[id])
  {
    var b := s.st.books[id];
    if op.OpPruneByAge? {
      KeepMembers(b.journal, NotOlderThan(op.cutoff));
    } else if op.keep > 0 {
      KeepMembers(b.journal, NewerThan(b.revision - op.keep));
    }
  }

  /** How following tokens may end: at the head with no continuation left; or refused, and then the row after some token that
      the client reached is gone. */
  ghost predicate Ended(s: State, s': State, c: ClientId)
    requires Following(s, c)
  {
    var b := BookOf(s, c);
    && c in s'.clients && s.clients[c].phase.book in s'.st.books && OnlyPruned(b, s'.st.books[s.clients[c].phase.book])
    && if s'.clients[c].phase.Fresh?
       then exists k :: TokenRevision(s, c) <= k < |b.hist| && b.hist[k] !in s'.st.books[s.clients[c].phase.book].journal
       else Following(s', c) && s'.clients[c].phase.book == s.clients[c].phase.book && TokenRevision(s', c) == b.revision
            && TokenOf(s'.clients[c].phase) !in s'.page
  }

  lemma EndedLater(s: State, s1: State, s': State, c: ClientId)
    requires Following(s, c) && Following(s1, c) && Ended(s1, s', c)
    requires s1.clients[c].phase.book == s.clients[c].phase.book && TokenRevision(s, c) <= TokenRevision(s1, c)
    requires OnlyPruned(BookOf(s, c), BookOf(s1, c))
    ensures Ended(s, s', c)
  {}

  lemma RoundThenPruneProgresses(cfg: Config, s: State, c: ClientId, sched: Schedule, i: nat)
    requires Bounded(cfg, s) && Following(s, c) && Paging(sched) && TokenRevision(s, c) < |BookOf(s, c).hist|
    ensures var s' := RoundThenPrune(cfg, s, c, sched, i);
      && Bounded(cfg, s') && c in s'.clients
      && s.clients[c].phase.book in s'.st.books && OnlyPruned(BookOf(s, c), s'.st.books[s.clients[c].phase.book])
      && Progress(s, s', c)
  {
    var s1 := Round(cfg, s, c, sched.limit(i), sched.clock(i));
    RoundProgresses(cfg, s, c, sched.limit(i), sched.clock(i));
    RoundKeepsBounds(cfg, s, c, sched.limit(i), sched.clock(i));
    NextKeepsBounds(cfg, s1, Commit(sched.prune(i)));
    PruneEffect(cfg, s1, sched.prune(i), s.clients[c].phase.book);
  }

  lemma RefusalEnds(s: State, s1: State, c: ClientId)
    requires Following(s, c) && TokenRevision(s, c) < |BookOf(s, c).hist|
    requires Progress(s, s1, c) && s1.clients[c].phase.Fresh?
    requires s.clients[c].phase.book in s1.st.books && OnlyPruned(BookOf(s, c), s1.st.books[s.clients[c].phase.book])
    ensures Ended(s, s1, c)
  {
    var k := TokenRevision(s, c);
    assert BookOf(s, c).hist[k] !in s1.st.books[s.clients[c].phase.book].journal;
  }

  /** s1 is nearer to the end than s, for the same client on the same collection. */
  ghost predicate Nearer(s: State, s1: State, c: ClientId)
    requires Following(s, c)
  {
    && Following(s1, c) && s1.clients[c].phase.book == s.clients[c].phase.book && OnlyPruned(BookOf(s, c), BookOf(s1, c))
    && TokenRevision(s1, c) <= BookOf(s, c).revision
    && (|| TokenRevision(s, c) < TokenRevision(s1, c)
        || (TokenRevision(s1, c) == TokenRevision(s, c) && Pending(s1, c) < Pending(s, c)))
  }

  lemma OneRound(cfg: Config, s: State, c: ClientId, sched: Schedule, i: nat)
    requires Bounded(cfg, s) && Following(s, c) && Paging(sched) && TokenRevision(s, c) < |BookOf(s, c).hist|
    ensures var s1 := RoundThenPrune(cfg, s, c, sched, i);
      Bounded(cfg, s1) && (Ended(s, s1, c) || Nearer(s, s1, c))
  {
    var s1 := RoundThenPrune(cfg, s, c, sched, i);
    RoundThenPruneProgresses(cfg, s, c, sched, i);
    if s1.clients[c].phase.Fresh? { RefusalEnds(s, s1, c); }
  }

  lemma RoundsFirst(cfg: Config, s: State, c: ClientId, sched: Schedule, i: nat, n: nat)
    ensures Rounds(cfg, s, c, sched, i, n + 1) == Rounds(cfg, RoundThenPrune(cfg, s, c, sched, i), c, sched, i + 1, n)
    ensures Rounds(cfg, s, c, sched, i, 0) == s
  {}

  lemma NearerEnds(cfg: Config, s: State, c: ClientId, sched: Schedule, i: nat, n: nat)
    requires Following(s, c) && Nearer(s, RoundThenPrune(cfg, s, c, sched, i), c)
    requires var s1 := RoundThenPrune(cfg, s, c, sched, i);
      Ended(s1, Rounds(cfg, s1, c, sched, i + 1, n), c)
    ensures Ended(s, Rounds(cfg, s, c, sched, i, n + 1), c)
  {
    var s1 := RoundThenPrune(cfg, s, c, sched, i);
    RoundsFirst(cfg, s, c, sched, i, n);
    EndedLater(s, s1, Rounds(cfg, s1, c, sched, i + 1, n), c);
  }

  lemma {:induction false} RoundsToTheEnd(cfg: Config, s: State, c: ClientId, sched: Schedule, i: nat) returns (n: nat)
    requires Bounded(cfg, s) && Following(s, c) && Paging(sched)
    ensures Ended(s, Rounds(cfg, s, c, sched, i, n), c)
    decreases BookOf(s, c).revision - TokenRevision(s, c), Pending(s, c)
  {
    assert PhaseBounded(s, s.clients[c].phase);
    if TokenRevision(s, c) == |BookOf(s, c).hist| {
      n := 0;
      assert CursorBounded(s, s.clients[c].phase.book, TokenRevision(s, c));
    } else {
      var s1 := RoundThenPrune(cfg, s, c, sched, i);
      OneRound(cfg, s, c, sched, i);
      if Ended(s, s1, c) {
        n := 1;
        RoundsFirst(cfg, s, c, sched, i, 0);
        RoundsFirst(cfg, s1, c, sched, i + 1, 0);
      } else {
        n := RoundsToTheEnd(cfg, s1, c, sched, i + 1);
        NearerEnds(cfg, s, c, sched, i, n);
        n := n + 1;
      }
    }
  }

  /** Following tokens ends: against a store that nobody writes to, for all limits, clocks and
      prunes, and whatever cursors of other clients are cached, some number of requests leads to the
      head of the collection or to a refusal. */
  lemma FollowingEnds(cfg: Config, s: State, c: ClientId, sched: Schedule, i: nat)
    requires Bounded(cfg, s) && Following(s, c) && Paging(sched)
    ensures exists n :: Ended(s, Rounds(cfg, s, c, sched, i, n), c)
  {
    var n := RoundsToTheEnd(cfg, s, c, sched, i);
  }

  // ---- With everybody else running ----

  /** The event brings a synced client a response. */
  ghost predicate Served(cfg: Config, s: State, e: Event, c: ClientId) {
    && c in s.clients && s.clients[c].phase.Synced? && c in Next(cfg, s, e).clients
    && Next(cfg, s, e).clients[c].phase.Synced? && Next(cfg, s, e).clients[c].phase.stamp != s.clients[c].phase.stamp
  }

  /** The client's request read a head past its token. */
  predicate Behind(s: State, c: ClientId) {
    c in s.clients && s.clients[c].phase.Synced? && !s.clients[c].request.Idle? && s.clients[c].phase.token < s.clients[c].request.start.head
  }

  lemma HitMovesOn(cfg: Config, s: State, c: ClientId, now: int)
    requires Bounded(cfg, s) && c in s.clients && s.clients[c].phase.Synced? && s.clients[c].phase.token > 0
    requires s.clients[c].request.Started? && s.clients[c].request.start.from.Some?
    ensures var after := TakeStep(cfg, s, c, now, true).clients[c].phase;
      after == s.clients[c].phase || (after.Synced? && s.clients[c].phase.token < after.token)
  {
    var cl := s.clients[c];
    var key := FormatSyncToken(cl.phase.book, cl.phase.token);
    assert RequestBounded(s, cl) && CursorBounded(s, cl.phase.book, cl.phase.token);
    if key in s.page { CutRises(s.page[key].head, s.page[key].items, cl.request.limit, After(cl.phase.token)); }
  }

  lemma LoadMovesOn(cfg: Config, s: State, c: ClientId, stamped: int, now: int)
    requires Bounded(cfg, s) && c in s.clients && s.clients[c].request.Loaded? && Behind(s, c)
    ensures s.clients[c].phase.token < RespondStep(cfg, s, c, stamped, now, true).clients[c].phase.token
  {
    var cl := s.clients[c];
    assert RequestBounded(s, cl);
    CutRises(cl.request.start.head, cl.request.items, cl.request.limit, cl.phase.token + 1);
  }

  /** Past token 0 every response to a request from behind the head strictly advances the token, in any
      state that a run can reach and whatever other requests run in between. */
  lemma ServedMovesOn(cfg: Config, s: State, e: Event, c: ClientId)
    requires Bounded(cfg, s) && Served(cfg, s, e, c) && Behind(s, c) && s.clients[c].phase.token > 0
    ensures s.clients[c].phase.token < Next(cfg, s, e).clients[c].phase.token
  {
    OnlyResponsesMoveTokens(cfg, s, e, c);
    var cl := s.clients[c];
    if e.TakePage? && e.c == c && e.delivered && cl.request.Started? && cl.request.start.from.Some? {
      HitMovesOn(cfg, s, c, e.now);
    } else if e.Respond? && e.c == c && e.delivered && cl.request.Loaded? {
      LoadMovesOn(cfg, s, c, e.stamped, e.now);
    }
  }

  ghost predicate StaysSynced(cfg: Config, s: State, es: seq<Event>, c: ClientId) {
    && c in RunEvents(cfg, s, es).clients && RunEvents(cfg, s, es).clients[c].phase.Synced?
    && (es == [] || StaysSynced(cfg, s, es[..|es| - 1], c))
  }

  /** How many responses the client got to requests from behind the head. */
  ghost function ServedBehind(cfg: Config, s: State, es: seq<Event>, c: ClientId): nat {
    if es == [] then 0
    else
      var before, e := RunEvents(cfg, s, es[..|es| - 1]), es[|es| - 1];
      ServedBehind(cfg, s, es[..|es| - 1], c) + if Served(cfg, before, e, c) && Behind(before, c) then 1 else 0
  }

  lemma StepCounts(cfg: Config, s: State, e: Event, c: ClientId)
    requires Bounded(cfg, s) && c in s.clients && s.clients[c].phase.Synced? && s.clients[c].phase.token > 0
    requires c in Next(cfg, s, e).clients && Next(cfg, s, e).clients[c].phase.Synced?
    ensures var before, after := s.clients[c].phase, Next(cfg, s, e).clients[c].phase;
      && after.book == before.book
      && before.token + (if Served(cfg, s, e, c) && Behind(s, c) then 1 else 0) <= after.token
  {
    StepAdvances(cfg, s, e, c);
    if Served(cfg, s, e, c) && Behind(s, c) { ServedMovesOn(cfg, s, e, c); }
  }

  /** Following tokens ends with everybody else running: in any run in which a client with a token past
      0 stays synced, at most as many requests are served to it from behind the head as its token
      grows, and its token never leads the revision. Writers, prunes, other clients' requests and
      their cursors may come in between as they like. */
  lemma {:induction false} FollowingEndsAmongOthers(cfg: Config, s: State, es: seq<Event>, c: ClientId)
    requires Bounded(cfg, s) && StaysSynced(cfg, s, es, c)
    requires c in s.clients && s.clients[c].phase.Synced? && s.clients[c].phase.token > 0
    ensures var s' := RunEvents(cfg, s, es);
      var id := s.clients[c].phase.book;
      && s'.clients[c].phase.book == id
      && s.clients[c].phase.token + ServedBehind(cfg, s, es, c) <= s'.clients[c].phase.token
      && (id in s'.st.books ==> s'.clients[c].phase.token <= s'.st.books[id].revision)
  {
    RunKeepsBounds(cfg, s, es);
    assert PhaseBounded(RunEvents(cfg, s, es), RunEvents(cfg, s, es).clients[c].phase);
    if es != [] {
      var n := |es| - 1;
      FollowingEndsAmongOthers(cfg, s, es[..n], c);
      RunKeepsBounds(cfg, s, es[..n]);
      StepCounts(cfg, RunEvents(cfg, s, es[..n]), es[n], c);
    }
  }

  // ---- Where it ends, under the hypotheses of the convergence theorem ----

  /** The cursor under the client's token, if it was cut from a first listing, is the client's own. */
  ghost predicate OwnsNext(s: State, c: ClientId) {
    c in s.clients && s.clients[c].phase.Synced? ==>
      var key := TokenOf(s.clients[c].phase);
      key in s.page && key in s.tags && s.tags[key].Initial? ==> s.clients[c].phase.stamp == s.tags[key].stamp
  }

  /** A request that read the present head is in no danger from prunes. */
  lemma FinishKeeps(cfg: Config, s: State, c: ClientId, now: int, id: BookId)
    requires Inv(cfg, s, c, id) && ClocksOrdered(s.st, id) && c in s.clients
    requires CanRead(s.clients[c].request) ==>
      var start := s.clients[c].request.start;
      start.book in s.st.books && start.head == |s.st.books[start.book].hist|
    ensures Inv(cfg, Finish(cfg, s, c, now), c, id)
  {
    ReadKeeps(cfg, s, c, c, id);
    RespondKeeps(cfg, Next(cfg, s, ReadStore(c)), c, now, now, true, c, id);
  }

  lemma TakeEffect(cfg: Config, s: State, c: ClientId, now: int)
    requires c in s.clients
    ensures var s2 := Next(cfg, s, TakePage(c, now, true));
      && s2.st == s.st && c in s2.clients
      && (CanRead(s2.clients[c].request) ==>
            !s.clients[c].request.Idle? && s2.clients[c].request.start == s.clients[c].request.start)
  {}

  lemma RoundKeeps(cfg: Config, s: State, c: ClientId, limit: int, now: int, id: BookId)
    requires Inv(cfg, s, c, id) && ClocksOrdered(s.st, id) && c in s.clients && s.clients[c].request.Idle? && OwnsNext(s, c)
    ensures Inv(cfg, Round(cfg, s, c, limit, now), c, id)
  {
    var s1 := Next(cfg, s, Begin(c, limit));
    assert PhaseBounded(s, s.clients[c].phase);
    BeginEffect(cfg, s, c, limit);
    BeginKeeps(cfg, s, c, limit, c, id);
    TakeKeeps(cfg, s1, c, now, true, c, id);
    TakeEffect(cfg, s1, c, now);
    FinishKeeps(cfg, Next(cfg, s1, TakePage(c, now, true)), c, now, id);
    RoundUnfolds(cfg, s, c, limit, now);
  }

  lemma RoundLeavesIdle(cfg: Config, s: State, c: ClientId, limit: int, now: int)
    requires StoreOk(cfg.hash, s.st) && c in s.clients && s.clients[c].request.Idle? && PhaseBounded(s, s.clients[c].phase)
    ensures var s' := Round(cfg, s, c, limit, now);
      s'.st == s.st && c in s'.clients && s'.clients[c].request.Idle?
  {
    RoundIsSync(cfg, s, c, limit, now);
  }

  /** None of the next n requests meets a cursor of another client's first listing. */
  ghost predicate OwnsAll(cfg: Config, s: State, c: ClientId, sched: Schedule, i: nat, n: nat)
    decreases n
  {
    n == 0 || (OwnsNext(s, c) && OwnsAll(cfg, RoundThenPrune(cfg, s, c, sched, i), c, sched, i + 1, n - 1))
  }

  lemma PruneKeepsClocks(cfg: Config, s: State, op: Op, id: BookId)
    requires ClocksOrdered(s.st, id) && (op.OpPruneByAge? || op.OpPruneByMaxRevisions?)
    ensures var s' := Next(cfg, s, Commit(op));
      ClocksOrdered(s'.st, id) && s'.clients == s.clients
  {
    if id in s.st.books { PruneEffect(cfg, s, op, id); }
  }

  lemma PruneKeeps(cfg: Config, s: State, op: Op, me: ClientId, id: BookId)
    requires Inv(cfg, s, me, id) && ClocksOrdered(s.st, id) && (op.OpPruneByAge? || op.OpPruneByMaxRevisions?)
    ensures var s' := Next(cfg, s, Commit(op));
      Inv(cfg, s', me, id) && ClocksOrdered(s'.st, id) && s'.clients == s.clients
  {
    CommitKeeps(cfg, s, op, me, id);
    PruneKeepsClocks(cfg, s, op, id);
  }

  /** A client between two requests, with what it may rely on. */
  ghost predicate Ready(cfg: Config, s: State, c: ClientId, id: BookId) {
    Inv(cfg, s, c, id) && ClocksOrdered(s.st, id) && c in s.clients && s.clients[c].request.Idle?
  }

  lemma RoundThenPruneKeeps(cfg: Config, s: State, c: ClientId, sched: Schedule, i: nat, id: BookId)
    requires Ready(cfg, s, c, id) && Paging(sched) && OwnsNext(s, c)
    ensures Ready(cfg, RoundThenPrune(cfg, s, c, sched, i), c, id)
  {
    assert PhaseBounded(s, s.clients[c].phase);
    RoundKeeps(cfg, s, c, sched.limit(i), sched.clock(i), id);
    RoundLeavesIdle(cfg, s, c, sched.limit(i), sched.clock(i));
    PruneKeeps(cfg, Round(cfg, s, c, sched.limit(i), sched.clock(i)), sched.prune(i), c, id);
  }

  /** From a ready client, n requests on its own cursors lead to s'. */
  ghost predicate Leads(cfg: Config, s: State, c: ClientId, sched: Schedule, i: nat, n: nat, s': State, id: BookId) {
    Ready(cfg, s, c, id) && Paging(sched) && OwnsAll(cfg, s, c, sched, i, n) && s' == Rounds(cfg, s, c, sched, i, n)
  }

  lemma OwnsFirst(cfg: Config, s: State, c: ClientId, sched: Schedule, i: nat, n: nat)
    requires OwnsAll(cfg, s, c, sched, i, n + 1)
    ensures OwnsNext(s, c) && OwnsAll(cfg, RoundThenPrune(cfg, s, c, sched, i), c, sched, i + 1, n)
  {}

  lemma LeadsFirst(cfg: Config, s: State, c: ClientId, sched: Schedule, i: nat, n: nat, s': State, id: BookId)
    returns (s1: State, j: nat, m: nat)
    requires n > 0 && Leads(cfg, s, c, sched, i, n, s', id)
    ensures m < n && Leads(cfg, s1, c, sched, j, m, s', id)
  {
    s1, j, m := RoundThenPrune(cfg, s, c, sched, i), i + 1, n - 1;
    OwnsFirst(cfg, s, c, sched, i, m);
    RoundsFirst(cfg, s, c, sched, i, m);
    RoundThenPruneKeeps(cfg, s, c, sched, i, id);
  }

  lemma {:induction false} RoundsKeepInv(cfg: Config, s: State, c: ClientId, sched: Schedule, i: nat, n: nat, s': State, id: BookId)
    requires Leads(cfg, s, c, sched, i, n, s', id)
    ensures Ready(cfg, s', c, id)
    decreases n
  {
    if n > 0 {
      var s1, j, m := LeadsFirst(cfg, s, c, sched, i, n, s', id);
      RoundsKeepInv(cfg, s1, c, sched, j, m, s', id);
    }
  }

  lemma MissingRowBehindFloor(hash: Hash, b: Book, k: nat)
    requires BookOk(hash, b) && TimeOrdered(b.hist) && k < |b.hist| && b.hist[k] !in b.journal
    ensures k < Floor(b)
  {
    StaleIffNextRowGone(hash, b, k, |b.hist|);
    StaleIffBehindFloor(hash, b, k, |b.hist|);
  }

  /** Where following ends, with the addressbook's clock readings in order and no other client's first
      listing on the way, whatever other clients were handed before: with exactly the server's cards,
      or refused, and then the client started behind the retained journal. */
  lemma EndIsExact(cfg: Config, s: State, c: ClientId, sched: Schedule, i: nat, n: nat)
    requires Following(s, c) && Inv(cfg, s, c, s.clients[c].phase.book) && ClocksOrdered(s.st, s.clients[c].phase.book) && Paging(sched)
    requires OwnsAll(cfg, s, c, sched, i, n) && Ended(s, Rounds(cfg, s, c, sched, i, n), c)
    ensures var s', id := Rounds(cfg, s, c, sched, i, n), s.clients[c].phase.book;
      if s'.clients[c].phase.Fresh? then TokenRevision(s, c) < Floor(s'.st.books[id])
      else s'.clients[c].replica == Etags(s.st.books[id].cards)
  {
    RoundsKeepInv(cfg, s, c, sched, i, n, Rounds(cfg, s, c, sched, i, n), s.clients[c].phase.book);
    EndedExactly(cfg, s, Rounds(cfg, s, c, sched, i, n), c);
  }

  lemma EndedExactly(cfg: Config, s: State, s': State, c: ClientId)
    requires Following(s, c) && Inv(cfg, s', c, s.clients[c].phase.book) && ClocksOrdered(s.st, s.clients[c].phase.book) && Ended(s, s', c)
    ensures var id := s.clients[c].phase.book;
      if s'.clients[c].phase.Fresh? then TokenRevision(s, c) < Floor(s'.st.books[id])
      else s'.clients[c].replica == Etags(s.st.books[id].cards)
  {
    if s'.clients[c].phase.Fresh? {
      var b' := s'.st.books[s.clients[c].phase.book];
      var k :| TokenRevision(s, c) <= k < |b'.hist| && b'.hist[k] !in b'.journal;
      MissingRowBehindFloor(cfg.hash, b', k);
    } else {
      InvConverges(cfg, s', c, s.clients[c].phase.book);
    }
  }

  /** The first request of a fresh client on an existing addressbook is always served, and from then
      on it follows tokens. */
  lemma FirstRoundSyncs(cfg: Config, s: State, c: ClientId, limit: int, now: int, id: BookId)
    requires Bounded(cfg, s) && c in s.clients
    requires s.clients[c].phase.Fresh? && s.clients[c].request.Idle? && s.clients[c].name in s.st.names
    ensures var s' := Round(cfg, s, c, limit, now);
      && Bounded(cfg, s') && Following(s', c)
      && (Inv(cfg, s, c, id) && ClocksOrdered(s.st, id) ==> Inv(cfg, s', c, id))
  {
    RoundKeepsBounds(cfg, s, c, limit, now);
    RoundIsSync(cfg, s, c, limit, now);
    if Inv(cfg, s, c, id) && ClocksOrdered(s.st, id) { RoundKeeps(cfg, s, c, limit, now, id); }
  }
}
