/** Runs that keep two of the three hypotheses of the convergence theorem and break the third: a
    client ends at the head without the server's cards. */
module HypothesisRuns {
  import opened Basics
  import opened History
  import opened SyncItems
  import opened SyncTokens
  import opened VCardText
  import opened CardStore
  import opened StoreInvariant
  import opened CursorCache
  import opened SyncCollection
  import opened SyncProtocol
  import opened TokenBounds
  import opened SyncConvergence
  import opened SyncProgress

  datatype Hypothesis = OrderedClocks | NoPruneInRead | OwnFirstListings

  /** The hypotheses of Disciplined for client 0 and addressbook 1, without one of them. */
  ghost predicate AllBut(h: Hypothesis, s: State, e: Event) {
    && (h.OrderedClocks? || ClocksOrdered(s.st, 1))
    && (h.NoPruneInRead? || NoPruneDuringRead(s, e, 1))
    && (h.OwnFirstListings? || FirstListingsOwned(s, e, 0, 1))
  }

  ghost predicate RunAllBut(cfg: Config, h: Hypothesis, s: State, es: seq<Event>) {
    es == [] || (RunAllBut(cfg, h, s, es[..|es| - 1]) && AllBut(h, RunEvents(cfg, s, es[..|es| - 1]), es[|es| - 1]))
  }

  ghost predicate Reaches(cfg: Config, h: Hypothesis, s: State, es: seq<Event>, s': State) {
    RunAllBut(cfg, h, s, es) && RunEvents(cfg, s, es) == s'
  }

  lemma ReachOne(cfg: Config, h: Hypothesis, s: State, e: Event)
    requires AllBut(h, s, e)
    ensures Reaches(cfg, h, s, [e], Next(cfg, s, e))
  {
    assert [e][..|[e]| - 1] == [];
  }

  lemma ReachMore(cfg: Config, h: Hypothesis, s: State, es: seq<Event>, mid: State, e: Event)
    requires Reaches(cfg, h, s, es, mid) && AllBut(h, mid, e)
    ensures Reaches(cfg, h, s, es + [e], Next(cfg, mid, e))
  {
    assert (es + [e])[..|es|] == es;
  }

  lemma ReachesPrefix(cfg: Config, h: Hypothesis, s: State, es: seq<Event>, s': State) returns (mid: State)
    requires es != [] && Reaches(cfg, h, s, es, s')
    ensures Reaches(cfg, h, s, es[..|es| - 1], mid) && AllBut(h, mid, es[|es| - 1]) && s' == Next(cfg, mid, es[|es| - 1])
  {
    mid := RunEvents(cfg, s, es[..|es| - 1]);
  }

  lemma {:induction false} ReachOn(cfg: Config, h: Hypothesis, s: State, es: seq<Event>, mid: State, es': seq<Event>, s': State)
    requires Reaches(cfg, h, s, es, mid) && Reaches(cfg, h, mid, es', s')
    ensures Reaches(cfg, h, s, es + es', s')
  {
    if es' == [] {
      assert es + es' == es;
    } else {
      var n := |es'| - 1;
      var before := ReachesPrefix(cfg, h, mid, es', s');
      ReachOn(cfg, h, s, es, mid, es'[..n], before);
      ReachMore(cfg, h, s, es + es'[..n], before, es'[n]);
      assert es + es'[..n] + [es'[n]] == es + es';
    }
  }

  // ---- One addressbook, and what writers do to it ----

  const NAME := Name("user", "book")

  const PAGE_LIMIT := 500

  function CardWrite(href: Href, now: int): Write { Write(PutInput(1, href, href, ""), now, true) }

  function PutOp(href: Href, now: int): Op { OpPut(CardWrite(href, now), None) }

  function DeleteOp(href: Href, now: int): Op { OpDelete(1, href, None, now) }

  function Tag(hash: Hash): ETag { hash(Canonicalize("")) }

  function NewBook(): Book { Book(0, map[], [], [], Metadata("", "", "")) }

  function Holding(b: Book): StoreState { StoreState(map[NAME := 1], map[1 := b], 2) }

  function Putting(hash: Hash, b: Book, href: Href, now: int): Book { WithPut(hash, b, CardWrite(href, now)) }

  function Deleting(b: Book, href: Href, now: int): Book { DeleteInBook(b, href, None, now).0 }

  // ---- Macro steps ----

  ghost predicate Calm(h: Hypothesis, st: StoreState) { h.OrderedClocks? || ClocksOrdered(st, 1) }

  lemma ReachTwo(cfg: Config, h: Hypothesis, s: State, e0: Event, e1: Event)
    requires AllBut(h, s, e0) && AllBut(h, Next(cfg, s, e0), e1)
    ensures Reaches(cfg, h, s, [e0, e1], Next(cfg, Next(cfg, s, e0), e1))
  {
    var s1 := Next(cfg, s, e0);
    ReachOne(cfg, h, s, e0);
    ReachOne(cfg, h, s1, e1);
    ReachOn(cfg, h, s, [e0], s1, [e1], Next(cfg, s1, e1));
    assert [e0] + [e1] == [e0, e1];
  }

  lemma ReachFour(cfg: Config, h: Hypothesis, s: State, e0: Event, e1: Event, e2: Event, e3: Event)
    requires AllBut(h, s, e0)
    requires var s1 := Next(cfg, s, e0);
      AllBut(h, s1, e1) && AllBut(h, Next(cfg, s1, e1), e2) && AllBut(h, Next(cfg, Next(cfg, s1, e1), e2), e3)
    ensures RunAllBut(cfg, h, s, [e0, e1, e2, e3])
  {
    var s2 := Next(cfg, Next(cfg, s, e0), e1);
    ReachTwo(cfg, h, s, e0, e1);
    ReachTwo(cfg, h, s2, e2, e3);
    ReachOn(cfg, h, s, [e0, e1], s2, [e2, e3], Next(cfg, Next(cfg, s2, e2), e3));
    assert [e0, e1] + [e2, e3] == [e0, e1, e2, e3];
  }

  lemma TakeIsDisciplined(cfg: Config, h: Hypothesis, s: State, c: ClientId)
    requires Calm(h, s.st) && (h.OwnFirstListings? || s.page == map[])
    ensures AllBut(h, s, TakePage(c, 0, true))
  {}

  lemma ReadIsDisciplined(cfg: Config, h: Hypothesis, s: State, c: ClientId)
    requires Calm(h, s.st) && c in s.clients
    requires CanRead(s.clients[c].request) ==>
      var start := s.clients[c].request.start;
      start.book in s.st.books ==> start.head == |s.st.books[start.book].hist|
    ensures AllBut(h, s, ReadStore(c))
  {}

  lemma ReadKeepsStore(cfg: Config, s: State, c: ClientId)
    ensures Next(cfg, s, ReadStore(c)).st == s.st
  {}

  /** An uninterrupted request is always disciplined, as long as it cannot meet a foreign cursor: it
      reads the head that it compares with. */
  lemma RoundReaches(cfg: Config, h: Hypothesis, s: State, c: ClientId, limit: int)
    requires Bounded(cfg, s) && Calm(h, s.st) && c in s.clients && s.clients[c].request.Idle?
    requires h.OwnFirstListings? || s.page == map[]
    ensures Reaches(cfg, h, s, RequestEvents(c, limit, 0), Round(cfg, s, c, limit, 0))
  {
    var s1 := Next(cfg, s, Begin(c, limit));
    var s2 := Next(cfg, s1, TakePage(c, 0, true));
    assert PhaseBounded(s, s.clients[c].phase);
    BeginEffect(cfg, s, c, limit);
    TakeIsDisciplined(cfg, h, s1, c);
    TakeEffect(cfg, s1, c, 0);
    ReadIsDisciplined(cfg, h, s2, c);
    ReadKeepsStore(cfg, s2, c);
    ReachFour(cfg, h, s, Begin(c, limit), TakePage(c, 0, true), ReadStore(c), Respond(c, 0, 0, true));
  }

  /** Client c is idle with the one addressbook. */
  ghost predicate Waits(cfg: Config, s: State, b: Book, page: Cache, c: ClientId) {
    && Bounded(cfg, s) && s.st == Holding(b) && s.page == page
    && c in s.clients && s.clients[c].request.Idle? && s.clients[c].name == NAME
  }

  ghost predicate WaitsAt(cfg: Config, s: State, b: Book, page: Cache, c: ClientId, token: nat, r: Replica) {
    && Waits(cfg, s, b, page, c) && s.clients[c].replica == r
    && s.clients[c].phase.Synced? && s.clients[c].phase.book == 1 && s.clients[c].phase.token == token
  }

  function CommitEvents(ops: seq<Op>): seq<Event> {
    if ops == [] then [] else CommitEvents(ops[..|ops| - 1]) + [Commit(ops[|ops| - 1])]
  }

  /** One writer's step from book to book. */
  ghost predicate Link(hash: Hash, h: Hypothesis, b: Book, op: Op, b': Book) {
    Calm(h, Holding(b)) && Apply(hash, Holding(b), op) == Holding(b')
  }

  /** What a run of writers makes of the book, one operation after the other. */
  ghost predicate Chain(hash: Hash, h: Hypothesis, books: seq<Book>, ops: seq<Op>) {
    |books| == |ops| + 1 && forall i :: 0 <= i < |ops| ==> Link(hash, h, books[i], ops[i], books[i + 1])
  }

  /** The books of these runs: few revisions, the href of a card as its UID, and clock readings that
      are in order unless they need not be. */
  ghost predicate Small(h: Hypothesis, b: Book) {
    && b.revision < 10 && (forall x :: x in b.cards ==> b.cards[x].uid == x)
    && (h.OrderedClocks? || forall r :: r in b.hist ==> r.changedAt == 0)
  }

  lemma SmallIsCalm(h: Hypothesis, b: Book)
    requires Small(h, b)
    ensures Calm(h, Holding(b))
  {}

  lemma LinkPut(hash: Hash, h: Hypothesis, b: Book, href: Href, now: int)
    requires Small(h, b) && href != "" && (h.OrderedClocks? || now == 0)
    ensures Link(hash, h, b, PutOp(href, now), Putting(hash, b, href, now))
    ensures b.revision < 9 ==> Small(h, Putting(hash, b, href, now))
  {
    SmallIsCalm(h, b);
    UnconditionalPut(hash, Holding(b), CardWrite(href, now));
    assert map[1 := b][1 := Putting(hash, b, href, now)] == map[1 := Putting(hash, b, href, now)];
  }

  lemma LinkDelete(hash: Hash, h: Hypothesis, b: Book, href: Href, now: int)
    requires Small(h, b) && href != "" && href in b.cards && (h.OrderedClocks? || now == 0)
    ensures Link(hash, h, b, DeleteOp(href, now), Deleting(b, href, now))
    ensures b.revision < 9 ==> Small(h, Deleting(b, href, now))
  {
    SmallIsCalm(h, b);
    assert map[1 := b][1 := Deleting(b, href, now)] == map[1 := Deleting(b, href, now)];
  }

  lemma LinkPrune(hash: Hash, h: Hypothesis, b: Book, n: int)
    requires Small(h, b)
    ensures Link(hash, h, b, OpPruneByAge(n), PruneBookByAge(b, n))
    ensures n > 0 ==> Link(hash, h, b, OpPruneByMaxRevisions(n), PruneBookByMaxRevisions(b, n))
  {
    SmallIsCalm(h, b);
    assert PruneByAge(map[1 := b], n) == map[1 := PruneBookByAge(b, n)];
    if n > 0 { assert PruneByMaxRevisions(map[1 := b], n) == map[1 := PruneBookByMaxRevisions(b, n)]; }
  }

  lemma OneMoreCommit(cfg: Config, h: Hypothesis, s: State, es: seq<Event>, mid: State, b: Book, op: Op, b': Book)
    requires Reaches(cfg, h, s, es, mid) && mid.st == Holding(b) && Link(cfg.hash, h, b, op, b')
    ensures Reaches(cfg, h, s, es + [Commit(op)], mid.(st := Holding(b')))
  {
    ReachMore(cfg, h, s, es, mid, Commit(op));
  }

  lemma ChainSplits(hash: Hash, h: Hypothesis, books: seq<Book>, ops: seq<Op>) returns (init: seq<Book>)
    requires ops != [] && Chain(hash, h, books, ops)
    ensures var n := |ops| - 1;
      && Chain(hash, h, init, ops[..n]) && init[0] == books[0] && init[n] == books[n]
      && Link(hash, h, books[n], ops[n], books[n + 1])
  {
    init := books[..|ops|];
  }

  lemma {:induction false} CommitsReachState(cfg: Config, h: Hypothesis, s: State, books: seq<Book>, ops: seq<Op>)
    requires Chain(cfg.hash, h, books, ops) && s.st == Holding(books[0])
    ensures Reaches(cfg, h, s, CommitEvents(ops), s.(st := Holding(books[|ops|])))
    decreases |ops|
  {
    if ops != [] {
      var n := |ops| - 1;
      var init := ChainSplits(cfg.hash, h, books, ops);
      CommitsReachState(cfg, h, s, init, ops[..n]);
      OneMoreCommit(cfg, h, s, CommitEvents(ops[..n]), s.(st := Holding(books[n])), books[n], ops[n], books[n + 1]);
    }
  }

  lemma CommitsReach(cfg: Config, h: Hypothesis, s: State, books: seq<Book>, ops: seq<Op>)
    requires Chain(cfg.hash, h, books, ops) && Bounded(cfg, s) && s.st == Holding(books[0])
    ensures var s' := s.(st := Holding(books[|ops|]));
      Bounded(cfg, s') && Reaches(cfg, h, s, CommitEvents(ops), s')
  {
    CommitsReachState(cfg, h, s, books, ops);
    RunKeepsBounds(cfg, s, CommitEvents(ops));
  }

  lemma EmptyListing(b: Book)
    requires b.cards == map[]
    ensures StateListing(b) == []
  {
    assert StatesOf(b) == {};
  }

  /** A first sync of the empty addressbook. */
  lemma JoinEmpty(cfg: Config, h: Hypothesis, s: State, c: ClientId)
    requires Waits(cfg, s, NewBook(), map[], c) && Calm(h, s.st) && s.clients[c].phase.Fresh?
    ensures var s' := Round(cfg, s, c, PAGE_LIMIT, 0);
      && WaitsAt(cfg, s', NewBook(), map[], c, 0, map[]) && s'.clients == s.clients[c := s'.clients[c]]
      && Reaches(cfg, h, s, RequestEvents(c, PAGE_LIMIT, 0), s')
  {
    RoundReaches(cfg, h, s, c, PAGE_LIMIT);
    RoundKeepsBounds(cfg, s, c, PAGE_LIMIT, 0);
    RoundIsSync(cfg, s, c, PAGE_LIMIT, 0);
    EmptyListing(NewBook());
    ApplyPageIsReplay(map[], CutPage(0, [], PAGE_LIMIT));
  }

  /** The changes that one page can carry from a token to the head. */
  ghost predicate OnePage(b: Book, token: nat, items: seq<Change>) {
    && token < b.revision && ChangesSince(b.journal, token) == items && 0 < |items| <= PAGE_LIMIT
    && items[0].revision == token + 1 && items[|items| - 1].revision == b.revision
  }

  lemma EmptyCacheMisses(caps: Caps, k: nat)
    ensures TakeCursor(map[], caps, 1, k, PAGE_LIMIT, 0) == (map[], None)
  {}

  lemma JournalAnswer(caps: Caps, b: Book, token: nat, items: seq<Change>)
    requires OnePage(b, token, items)
    ensures ServeFromStore(Holding(b), map[], caps, SyncCollection.Start(1, b.revision, Some(token)), PAGE_LIMIT, 0, 0) ==
      (map[], Ok((1, Page(b.revision, items, false, []))))
  {}

  lemma PollAnswer(cfg: Config, s: State, b: Book, c: ClientId, token: nat, r: Replica, items: seq<Change>)
    requires WaitsAt(cfg, s, b, map[], c, token, r) && OnePage(b, token, items)
    ensures Sync(s.st, s.page, cfg.caps, NAME, TokenOf(s.clients[c].phase), PAGE_LIMIT, 0, 0, 0) ==
      (map[], Ok((1, Page(b.revision, items, false, []))))
  {
    assert PhaseBounded(s, s.clients[c].phase);
    SyncOfFollower(cfg, s, c, PAGE_LIMIT, 0);
    EmptyCacheMisses(cfg.caps, token);
    JournalAnswer(cfg.caps, b, token, items);
  }

  /** A poll that is answered from the journal with one page. */
  lemma Poll(cfg: Config, h: Hypothesis, s: State, b: Book, c: ClientId, token: nat, r: Replica, items: seq<Change>)
    requires WaitsAt(cfg, s, b, map[], c, token, r) && Calm(h, s.st) && OnePage(b, token, items)
    ensures var s' := Round(cfg, s, c, PAGE_LIMIT, 0);
      && WaitsAt(cfg, s', b, map[], c, b.revision, Replay(r, items)) && s'.clients == s.clients[c := s'.clients[c]]
      && Reaches(cfg, h, s, RequestEvents(c, PAGE_LIMIT, 0), s')
  {
    RoundReaches(cfg, h, s, c, PAGE_LIMIT);
    RoundKeepsBounds(cfg, s, c, PAGE_LIMIT, 0);
    PollAnswer(cfg, s, b, c, token, r, items);
    ApplyPageIsReplay(r, Page(b.revision, items, false, []));
    PollLeaves(cfg, s, b, c, token, r, items);
  }

  lemma PollLeaves(cfg: Config, s: State, b: Book, c: ClientId, token: nat, r: Replica, items: seq<Change>)
    requires WaitsAt(cfg, s, b, map[], c, token, r)
    requires Sync(s.st, s.page, cfg.caps, NAME, TokenOf(s.clients[c].phase), PAGE_LIMIT, 0, 0, 0) ==
      (map[], Ok((1, Page(b.revision, items, false, []))))
    ensures var s' := Round(cfg, s, c, PAGE_LIMIT, 0);
      && s'.st == s.st && s'.page == map[] && c in s'.clients && s'.clients == s.clients[c := s'.clients[c]]
      && Answered(s.clients[c], s'.clients[c], Ok((1, Page(b.revision, items, false, []))))
  {
    assert PhaseBounded(s, s.clients[c].phase);
    RoundIsSync(cfg, s, c, PAGE_LIMIT, 0);
  }

  function Start(ids: set<ClientId>): State {
    State(EmptyStore(), map[], map[], map c | c in ids :: Client(NAME, Fresh, map[], Idle), 0)
  }

  function Opening(): seq<Event> { [Commit(OpCreate(NAME, ""))] + RequestEvents(0, PAGE_LIMIT, 0) }

  lemma EmptyIsCalm(h: Hypothesis)
    ensures Calm(h, EmptyStore()) && Calm(h, Holding(NewBook()))
  {}

  /** Every run starts with an addressbook and a client 0 that has joined it empty. */
  lemma Opens(cfg: Config, h: Hypothesis, ids: set<ClientId>)
    requires 0 in ids
    ensures var s' := RunEvents(cfg, Start(ids), Opening());
      && Reaches(cfg, h, Start(ids), Opening(), s')
      && WaitsAt(cfg, s', NewBook(), map[], 0, 0, map[])
      && s'.clients == Start(ids).clients[0 := s'.clients[0]]
  {
    var s, create := Start(ids), Commit(OpCreate(NAME, ""));
    var s1 := Next(cfg, s, create);
    InitBounded(cfg, s);
    NextKeepsBounds(cfg, s, create);
    EmptyIsCalm(h);
    ReachOne(cfg, h, s, create);
    JoinEmpty(cfg, h, s1, 0);
    ReachOn(cfg, h, s, [create], s1, RequestEvents(0, PAGE_LIMIT, 0), Round(cfg, s1, 0, PAGE_LIMIT, 0));
  }

  lemma ReplayTwo(m: Replica, a: Change, b: Change)
    ensures Replay(m, [a, b]) == Effect(Effect(m, a), b)
  {
    assert [a, b] == [a] + [b];
    ReplayConcat(m, [a], [b]);
    assert [a][..0] == [] && [b][..0] == [];
  }

  /** Client 0 joins, then the writers do their part. */
  lemma OpenThenWrite(cfg: Config, h: Hypothesis, ids: set<ClientId>, books: seq<Book>, ops: seq<Op>)
    requires 0 in ids && Chain(cfg.hash, h, books, ops) && books[0] == NewBook()
    ensures var s' := RunEvents(cfg, Start(ids), Opening() + CommitEvents(ops));
      && Reaches(cfg, h, Start(ids), Opening() + CommitEvents(ops), s')
      && WaitsAt(cfg, s', books[|ops|], map[], 0, 0, map[])
      && s'.clients == Start(ids).clients[0 := s'.clients[0]]
  {
    Opens(cfg, h, ids);
    var s1 := RunEvents(cfg, Start(ids), Opening());
    CommitsReach(cfg, h, s1, books, ops);
    ReachOn(cfg, h, Start(ids), Opening(), s1, CommitEvents(ops), RunEvents(cfg, s1, CommitEvents(ops)));
  }

  lemma MissesServer(cfg: Config, s: State, b: Book, page: Cache, c: ClientId, r: Replica)
    requires WaitsAt(cfg, s, b, page, c, b.revision, r) && r != Etags(b.cards)
    ensures !Converged(s, s.clients[c])
  {}

  /** A last poll that leaves client 0 with something else than the server's cards. */
  lemma EndsAstray(cfg: Config, h: Hypothesis, ids: set<ClientId>, es: seq<Event>, b: Book, token: nat, r: Replica, items: seq<Change>)
    requires var s := RunEvents(cfg, Start(ids), es);
      Reaches(cfg, h, Start(ids), es, s) && WaitsAt(cfg, s, b, map[], 0, token, r) && Calm(h, s.st)
    requires OnePage(b, token, items) && Replay(r, items) != Etags(b.cards)
    ensures var s' := RunEvents(cfg, Start(ids), es + RequestEvents(0, PAGE_LIMIT, 0));
      && Init(Start(ids)) && RunAllBut(cfg, h, Start(ids), es + RequestEvents(0, PAGE_LIMIT, 0))
      && 0 in s'.clients && !Converged(s', s'.clients[0])
  {
    var s := RunEvents(cfg, Start(ids), es);
    Poll(cfg, h, s, b, 0, token, r, items);
    ReachOn(cfg, h, Start(ids), es, s, RequestEvents(0, PAGE_LIMIT, 0), Round(cfg, s, 0, PAGE_LIMIT, 0));
    MissesServer(cfg, Round(cfg, s, 0, PAGE_LIMIT, 0), b, map[], 0, Replay(r, items));
  }

  lemma WritesLeadAstray(cfg: Config, h: Hypothesis, ids: set<ClientId>, books: seq<Book>, ops: seq<Op>, items: seq<Change>)
    requires 0 in ids && Chain(cfg.hash, h, books, ops) && books[0] == NewBook() && Calm(h, Holding(books[|ops|]))
    requires OnePage(books[|ops|], 0, items) && Replay(map[], items) != Etags(books[|ops|].cards)
    ensures var es := Opening() + CommitEvents(ops) + RequestEvents(0, PAGE_LIMIT, 0);
      var s' := RunEvents(cfg, Start(ids), es);
      && Init(Start(ids)) && RunAllBut(cfg, h, Start(ids), es)
      && 0 in s'.clients && !Converged(s', s'.clients[0])
  {
    OpenThenWrite(cfg, h, ids, books, ops);
    EndsAstray(cfg, h, ids, Opening() + CommitEvents(ops), books[|ops|], 0, map[], items);
  }

  // ---- Without ordered clocks ----

  /** A put at time 5, a delete that read its clock at 3 and got the lock later, a put at 5, a prune
      of what is older than 4. */
  function LateDeleteOps(): seq<Op> { [PutOp("a", 5), DeleteOp("a", 3), PutOp("b", 5), OpPruneByAge(4)] }

  function LateDeleteBooks(hash: Hash): seq<Book> {
    var b1 := Putting(hash, NewBook(), "a", 5);
    var b2 := Deleting(b1, "a", 3);
    var b3 := Putting(hash, b2, "b", 5);
    [NewBook(), b1, b2, b3, PruneBookByAge(b3, 4)]
  }

  lemma LateDeleteRows(hash: Hash)
    ensures var e := Tag(hash);
      var b4 := LateDeleteBooks(hash)[4];
      && b4.revision == 3 && Etags(b4.cards) == map["b" := e]
      && b4.journal == [Row(Change(1, "a", e, false), 5), Row(Change(3, "b", e, false), 5)]
  {
    var e := Tag(hash);
    var r1, r2, r3 := Row(Change(1, "a", e, false), 5), Row(Change(2, "a", e, true), 3), Row(Change(3, "b", e, false), 5);
    var books := LateDeleteBooks(hash);
    assert books[1].journal == [r1] && books[2].journal == [r1, r2] && books[3].journal == [r1, r2] + [r3];
    assert books[2].cards == map[];
    KeepConcat([r1, r2], [r3], NotOlderThan(4));
    KeepConcat([r1], [r2], NotOlderThan(4));
    assert [r1] + [r2] == [r1, r2] && [r1] + [r3] == [r1, r3];
  }

  lemma LateDeleteChain(hash: Hash)
    ensures Chain(hash, OrderedClocks, LateDeleteBooks(hash), LateDeleteOps())
  {
    var b1 := Putting(hash, NewBook(), "a", 5);
    var b2 := Deleting(b1, "a", 3);
    LinkPut(hash, OrderedClocks, NewBook(), "a", 5);
    LinkDelete(hash, OrderedClocks, b1, "a", 3);
    LinkPut(hash, OrderedClocks, b2, "b", 5);
    LinkPrune(hash, OrderedClocks, Putting(hash, b2, "b", 5), 4);
    forall i | 0 <= i < 4 ensures Link(hash, OrderedClocks, LateDeleteBooks(hash)[i], LateDeleteOps()[i], LateDeleteBooks(hash)[i + 1]) {
      if i == 0 {} else if i == 1 {} else if i == 2 {} else {}
    }
  }

  lemma LateDeletePoll(b: Book, e: ETag)
    requires b.revision == 3 && b.journal == [Row(Change(1, "a", e, false), 5), Row(Change(3, "b", e, false), 5)]
    ensures var items := [Change(1, "a", e, false), Change(3, "b", e, false)];
      OnePage(b, 0, items) && Replay(map[], items) == map["a" := e, "b" := e]
  {
    KeepAll(b.journal, NewerThan(0));
    ReplayTwo(map[], Change(1, "a", e, false), Change(3, "b", e, false));
  }

  /** With a delete that read its clock before it held the lock, everything else disciplined, a client
      ends at the head with a card that the server has not. */
  lemma ClocksMustBeOrdered(cfg: Config)
    ensures var es := Opening() + CommitEvents(LateDeleteOps()) + RequestEvents(0, PAGE_LIMIT, 0);
      var s' := RunEvents(cfg, Start({0}), es);
      && Init(Start({0})) && RunAllBut(cfg, OrderedClocks, Start({0}), es)
      && 0 in s'.clients && !Converged(s', s'.clients[0])
  {
    var books, e := LateDeleteBooks(cfg.hash), Tag(cfg.hash);
    LateDeleteChain(cfg.hash);
    LateDeleteRows(cfg.hash);
    LateDeletePoll(books[4], e);
    assert "a" in map["a" := e, "b" := e] && "a" !in Etags(books[4].cards);
    WritesLeadAstray(cfg, OrderedClocks, {0}, books, LateDeleteOps(), [Change(1, "a", e, false), Change(3, "b", e, false)]);
  }

  // ---- With a prune between the two reads ----

  /** Client 0 has asked with token 0 when the head was 0, and found no cursor. */
  ghost predicate Asking(cfg: Config, s: State, b: Book) {
    && Bounded(cfg, s) && s.st == Holding(b) && s.page == map[] && 0 in s.clients
    && s.clients[0].name == NAME && s.clients[0].replica == map[]
    && s.clients[0].phase.Synced? && s.clients[0].phase.book == 1
    && s.clients[0].request == Missed(SyncCollection.Start(1, 0, Some(0)), PAGE_LIMIT)
  }

  function AskEvents(): seq<Event> { [Begin(0, PAGE_LIMIT), TakePage(0, 0, true)] }

  function AnswerEvents(): seq<Event> { [ReadStore(0), Respond(0, 0, 0, true)] }

  lemma AskBegins(cfg: Config, s: State)
    requires WaitsAt(cfg, s, NewBook(), map[], 0, 0, map[])
    ensures var s' := Next(cfg, s, Begin(0, PAGE_LIMIT));
      && Bounded(cfg, s') && s'.st == s.st && s'.page == map[]
      && s'.clients == s.clients[0 := s.clients[0].(request := Started(SyncCollection.Start(1, 0, Some(0)), PAGE_LIMIT))]
  {
    assert PhaseBounded(s, s.clients[0].phase);
    BeginEffect(cfg, s, 0, PAGE_LIMIT);
    FormatHasNoSpaces(1, 0);
    ParseOfFormat(1, 0);
    NextKeepsBounds(cfg, s, Begin(0, PAGE_LIMIT));
  }

  lemma AskMisses(cfg: Config, s: State)
    requires Bounded(cfg, s) && s.page == map[] && 0 in s.clients
    requires s.clients[0].request == Started(SyncCollection.Start(1, 0, Some(0)), PAGE_LIMIT)
    ensures var s' := Next(cfg, s, TakePage(0, 0, true));
      && Bounded(cfg, s') && s'.st == s.st && s'.page == map[]
      && s'.clients == s.clients[0 := s.clients[0].(request := Missed(SyncCollection.Start(1, 0, Some(0)), PAGE_LIMIT))]
  {
    EmptyCacheMisses(cfg.caps, 0);
    NextKeepsBounds(cfg, s, TakePage(0, 0, true));
  }

  lemma Asks(cfg: Config, h: Hypothesis, s: State)
    requires WaitsAt(cfg, s, NewBook(), map[], 0, 0, map[]) && Calm(h, s.st)
    ensures var s' := RunEvents(cfg, s, AskEvents());
      Reaches(cfg, h, s, AskEvents(), s') && Asking(cfg, s', NewBook())
  {
    AskBegins(cfg, s);
    AskMisses(cfg, Next(cfg, s, Begin(0, PAGE_LIMIT)));
    TakeIsDisciplined(cfg, h, Next(cfg, s, Begin(0, PAGE_LIMIT)), 0);
    ReachTwo(cfg, h, s, Begin(0, PAGE_LIMIT), TakePage(0, 0, true));
  }

  /** What one page may carry when the token equals the head that was read: whatever is left. */
  ghost predicate LatePage(b: Book, items: seq<Change>) {
    ChangesSince(b.journal, 0) == items && 0 < |items| <= PAGE_LIMIT && items[|items| - 1].revision == b.revision
  }

  lemma LateAnswer(cfg: Config, s: State, b: Book, items: seq<Change>)
    requires Asking(cfg, s, b) && LatePage(b, items)
    ensures ServeFromStore(Holding(b), map[], cfg.caps, s.clients[0].request.start, PAGE_LIMIT, 0, 0) ==
      (map[], Ok((1, Page(b.revision, items, false, []))))
  {}

  lemma LateRead(cfg: Config, s: State, b: Book, items: seq<Change>)
    requires Asking(cfg, s, b) && Calm(NoPruneInRead, s.st) && LatePage(b, items)
    ensures var s' := RunEvents(cfg, s, AnswerEvents());
      && Reaches(cfg, NoPruneInRead, s, AnswerEvents(), s')
      && WaitsAt(cfg, s', b, map[], 0, b.revision, Replay(map[], items))
  {
    LateAnswer(cfg, s, b, items);
    FinishServes(cfg, s, 0, 0);
    ReadKeepsStore(cfg, s, 0);
    NextKeepsBounds(cfg, s, ReadStore(0));
    NextKeepsBounds(cfg, Next(cfg, s, ReadStore(0)), Respond(0, 0, 0, true));
    ReachTwo(cfg, NoPruneInRead, s, ReadStore(0), Respond(0, 0, 0, true));
    ApplyPageIsReplay(map[], Page(b.revision, items, false, []));
  }

  /** Two puts, and a prune of the first. */
  function PrunedOps(): seq<Op> { [PutOp("a", 0), PutOp("b", 0), OpPruneByMaxRevisions(1)] }

  function PrunedBooks(hash: Hash): seq<Book> {
    var b1 := Putting(hash, NewBook(), "a", 0);
    var b2 := Putting(hash, b1, "b", 0);
    [NewBook(), b1, b2, PruneBookByMaxRevisions(b2, 1)]
  }

  lemma PrunedRows(hash: Hash)
    ensures var e := Tag(hash);
      var b := PrunedBooks(hash)[3];
      && b.revision == 2 && Etags(b.cards) == map["a" := e, "b" := e]
      && ChangesSince(b.journal, 0) == [Change(2, "b", e, false)]
      && forall r :: r in b.hist ==> r.changedAt == 0
  {
    var e := Tag(hash);
    var r1, r2 := Row(Change(1, "a", e, false), 0), Row(Change(2, "b", e, false), 0);
    var books := PrunedBooks(hash);
    assert books[1].journal == [r1] && books[2].journal == [r1] + [r2];
    KeepConcat([r1], [r2], NewerThan(1));
    assert books[3].journal == [r2];
    KeepAll([r2], NewerThan(0));
  }

  lemma PrunedChain(hash: Hash)
    ensures Chain(hash, NoPruneInRead, PrunedBooks(hash), PrunedOps())
  {
    var b1 := Putting(hash, NewBook(), "a", 0);
    var b2 := Putting(hash, b1, "b", 0);
    LinkPut(hash, NoPruneInRead, NewBook(), "a", 0);
    LinkPut(hash, NoPruneInRead, b1, "b", 0);
    LinkPrune(hash, NoPruneInRead, b2, 1);
    forall i | 0 <= i < 3 ensures Link(hash, NoPruneInRead, PrunedBooks(hash)[i], PrunedOps()[i], PrunedBooks(hash)[i + 1]) {
      if i == 0 {} else if i == 1 {} else {}
    }
  }

  /** With a prune between the two reads of one poll whose token equals the head it read, everything
      else disciplined, a client ends at the head without a card that the server has. */
  lemma ReadsMustNotBePruned(cfg: Config)
    ensures var es := Opening() + AskEvents() + CommitEvents(PrunedOps()) + AnswerEvents();
      var s' := RunEvents(cfg, Start({0}), es);
      && Init(Start({0})) && RunAllBut(cfg, NoPruneInRead, Start({0}), es)
      && 0 in s'.clients && !Converged(s', s'.clients[0])
  {
    var books, e := PrunedBooks(cfg.hash), Tag(cfg.hash);
    PrunedChain(cfg.hash);
    PrunedRows(cfg.hash);
    ReplayOne(map[], Change(2, "b", e, false));
    assert Calm(NoPruneInRead, Holding(books[3]));
    assert "a" in map["a" := e, "b" := e];
    PrunedReadAstray(cfg, books, PrunedOps(), [Change(2, "b", e, false)]);
  }

  lemma ReplayOne(m: Replica, a: Change)
    ensures Replay(m, [a]) == Effect(m, a)
  {
    assert [a][..0] == [];
  }

  lemma PrunedReadAstray(cfg: Config, books: seq<Book>, ops: seq<Op>, items: seq<Change>)
    requires Chain(cfg.hash, NoPruneInRead, books, ops) && books[0] == NewBook() && Calm(NoPruneInRead, Holding(books[|ops|]))
    requires LatePage(books[|ops|], items) && Replay(map[], items) != Etags(books[|ops|].cards)
    ensures var es := Opening() + AskEvents() + CommitEvents(ops) + AnswerEvents();
      var s' := RunEvents(cfg, Start({0}), es);
      && Init(Start({0})) && RunAllBut(cfg, NoPruneInRead, Start({0}), es)
      && 0 in s'.clients && !Converged(s', s'.clients[0])
  {
    var h, s := NoPruneInRead, Start({0});
    Opens(cfg, h, {0});
    var s1 := RunEvents(cfg, s, Opening());
    EmptyIsCalm(h);
    Asks(cfg, h, s1);
    var s2 := RunEvents(cfg, s1, AskEvents());
    CommitsReach(cfg, h, s2, books, ops);
    var s3 := RunEvents(cfg, s2, CommitEvents(ops));
    LateRead(cfg, s3, books[|ops|], items);
    var s4 := RunEvents(cfg, s3, AnswerEvents());
    ReachOn(cfg, h, s, Opening(), s1, AskEvents(), s2);
    ReachOn(cfg, h, s, Opening() + AskEvents(), s2, CommitEvents(ops), s3);
    ReachOn(cfg, h, s, Opening() + AskEvents() + CommitEvents(ops), s3, AnswerEvents(), s4);
    MissesServer(cfg, s4, books[|ops|], map[], 0, Replay(map[], items));
  }

  // ---- With a first listing that belongs to another client ----

  /** Client 0 knows two cards; then one of them is deleted and another is put. */
  function SharedOps(): seq<Op> { [PutOp("a", 0), PutOp("b", 0)] }

  function LaterOps(): seq<Op> { [DeleteOp("a", 0), PutOp("c", 0)] }

  function SharedBooks(hash: Hash): seq<Book> {
    var b1 := Putting(hash, NewBook(), "a", 0);
    [NewBook(), b1, Putting(hash, b1, "b", 0)]
  }

  function LaterBooks(hash: Hash): seq<Book> {
    var b2 := SharedBooks(hash)[2];
    var b3 := Deleting(b2, "a", 0);
    [b2, b3, Putting(hash, b3, "c", 0)]
  }

  lemma SharedChain(hash: Hash)
    ensures Chain(hash, OwnFirstListings, SharedBooks(hash), SharedOps())
    ensures Small(OwnFirstListings, SharedBooks(hash)[2]) && SharedBooks(hash)[2].revision == 2 && "a" in SharedBooks(hash)[2].cards
  {
    var b1 := SharedBooks(hash)[1];
    LinkPut(hash, OwnFirstListings, NewBook(), "a", 0);
    LinkPut(hash, OwnFirstListings, b1, "b", 0);
  }

  lemma LaterChain(hash: Hash)
    ensures Chain(hash, OwnFirstListings, LaterBooks(hash), LaterOps())
    ensures Small(OwnFirstListings, LaterBooks(hash)[2])
  {
    var b3 := LaterBooks(hash)[1];
    SharedChain(hash);
    LinkDelete(hash, OwnFirstListings, SharedBooks(hash)[2], "a", 0);
    LinkPut(hash, OwnFirstListings, b3, "c", 0);
  }

  lemma SharedRows(hash: Hash)
    ensures var e, b := Tag(hash), SharedBooks(hash)[2];
      var items := [Change(1, "a", e, false), Change(2, "b", e, false)];
      OnePage(b, 0, items) && Replay(map[], items) == map["a" := e, "b" := e]
  {
    var e := Tag(hash);
    var r1, r2 := Row(Change(1, "a", e, false), 0), Row(Change(2, "b", e, false), 0);
    assert SharedBooks(hash)[2].journal == [r1, r2];
    KeepAll([r1, r2], NewerThan(0));
    ReplayTwo(map[], r1.change, r2.change);
  }

  lemma TwoInOrder(items: seq<Change>, x: Change, y: Change)
    requires IsSortedListing({x, y}, items) && StateBefore(x, y)
    ensures items == [x, y]
  {
    StateOrderIsTotal(x, y, x);
    StateOrderIsTotal(x, x, x);
    StateOrderIsTotal(y, y, y);
    assert x in items && y in items;
    assert forall n :: 0 <= n < |items| ==> items[n] in items;
    assert items[0] == x;
    assert items[1] == y;
    forall n | 0 <= n < |items| ensures (items[n] == x ==> n == 0) && (items[n] == y ==> n == 1) {}
    assert items[|items| - 1] in items;
  }

  lemma MaxRevisionMore(journal: seq<Row>, row: Row, href: Href)
    ensures MaxRevision(journal + [row], href) ==
      Max(if row.change.href == href then row.change.revision else 0, MaxRevision(journal, href))
  {
    assert (journal + [row])[..|journal|] == journal;
  }

  lemma LaterRevisions(e: ETag, journal: seq<Row>)
    requires journal == [Row(Change(1, "a", e, false), 0), Row(Change(2, "b", e, false), 0), Row(Change(3, "a", e, true), 0), Row(Change(4, "c", e, false), 0)]
    ensures MaxRevision(journal, "b") == 2 && MaxRevision(journal, "c") == 4
  {
    var r1, r2, r3, r4 := journal[0], journal[1], journal[2], journal[3];
    assert journal == [] + [r1] + [r2] + [r3] + [r4];
    MaxRevisionMore([], r1, "b");
    MaxRevisionMore([] + [r1], r2, "b");
    MaxRevisionMore([] + [r1] + [r2], r3, "b");
    MaxRevisionMore([] + [r1] + [r2] + [r3], r4, "b");
    MaxRevisionMore([], r1, "c");
    MaxRevisionMore([] + [r1], r2, "c");
    MaxRevisionMore([] + [r1] + [r2], r3, "c");
    MaxRevisionMore([] + [r1] + [r2] + [r3], r4, "c");
  }

  lemma LaterListing(b: Book, e: ETag)
    requires b.cards.Keys == {"b", "c"} && b.cards["b"].etag == e == b.cards["c"].etag
    requires MaxRevision(b.journal, "b") == 2 && MaxRevision(b.journal, "c") == 4
    ensures StateListing(b) == [Change(2, "b", e, false), Change(4, "c", e, false)]
  {
    var x, y := CardState(b, "b"), CardState(b, "c");
    forall c ensures c in StatesOf(b) <==> c == x || c == y {}
    assert StatesOf(b) == {x, y};
    TwoInOrder(StateListing(b), x, y);
  }

  lemma LaterRows(hash: Hash)
    ensures var e, b := Tag(hash), LaterBooks(hash)[2];
      && b.revision == 4 && Etags(b.cards) == map["b" := e, "c" := e]
      && StateListing(b) == [Change(2, "b", e, false), Change(4, "c", e, false)]
  {
    var e, b := Tag(hash), LaterBooks(hash)[2];
    assert b.cards.Keys == {"b", "c"};
    LaterRevisions(e, b.journal);
    LaterListing(b, e);
  }

  lemma OneCursorFits(caps: Caps, token: string, cur: Cursor)
    requires |cur.items| == 1 && cur.expires >= 0
    ensures PutCursor(map[], caps, token, cur, 0) == map[token := cur]
  {
    var page := map[token := cur];
    assert PruneExpired(map[], 0) == map[];
    TotalItemsRemove(page, token);
    assert page - {token} == map[];
  }

  /** The first page of a listing of two, with one item per page: the rest is cached. */
  lemma FirstOfTwo(caps: Caps, b: Book, x: Change, y: Change)
    requires StateListing(b) == [x, y]
    ensures Sync(Holding(b), map[], caps, NAME, "", 1, 0, 0, 0).0 ==
      map[FormatSyncToken(1, x.revision) := Cursor(1, b.revision, CURSOR_TTL, [y])]
  {
    var items := [x, y];
    assert items[..1] == [x] && items[1..] == [y];
    OneCursorFits(caps, FormatSyncToken(1, x.revision), Cursor(1, b.revision, CURSOR_TTL, [y]));
  }

  /** Another client starts its first sync and leaves a cursor; client 0 notices nothing. */
  lemma OtherStarts(cfg: Config, h: Hypothesis, s: State, b: Book, token: nat, r: Replica, x: Change, y: Change)
    requires WaitsAt(cfg, s, b, map[], 0, token, r) && Waits(cfg, s, b, map[], 1) && s.clients[1].phase.Fresh? && Calm(h, s.st)
    requires StateListing(b) == [x, y]
    ensures var s' := Round(cfg, s, 1, 1, 0);
      && WaitsAt(cfg, s', b, map[FormatSyncToken(1, x.revision) := Cursor(1, b.revision, CURSOR_TTL, [y])], 0, token, r)
      && Reaches(cfg, h, s, RequestEvents(1, 1, 0), s')
  {
    RoundReaches(cfg, h, s, 1, 1);
    RoundKeepsBounds(cfg, s, 1, 1, 0);
    RoundIsSync(cfg, s, 1, 1, 0);
    FirstOfTwo(cfg.caps, b, x, y);
  }

  lemma ForeignHit(caps: Caps, k: nat, head: nat, y: Change)
    requires y.revision == head
    ensures var page: Cache := map[FormatSyncToken(1, k) := Cursor(1, head, CURSOR_TTL, [y])];
      TakeCursor(page, caps, 1, k, PAGE_LIMIT, 0).1 == Some(Page(head, [y], false, []))
  {}

  /** Client 0 polls and is handed that cursor. */
  lemma ForeignPoll(cfg: Config, s: State, b: Book, k: nat, r: Replica, y: Change)
    requires var page: Cache := map[FormatSyncToken(1, k) := Cursor(1, b.revision, CURSOR_TTL, [y])];
      WaitsAt(cfg, s, b, page, 0, k, r) && Calm(OwnFirstListings, s.st) && y.revision == b.revision
    ensures var s' := Round(cfg, s, 0, PAGE_LIMIT, 0);
      && WaitsAt(cfg, s', b, s'.page, 0, b.revision, Replay(r, [y]))
      && Reaches(cfg, OwnFirstListings, s, RequestEvents(0, PAGE_LIMIT, 0), s')
  {
    RoundReaches(cfg, OwnFirstListings, s, 0, PAGE_LIMIT);
    RoundKeepsBounds(cfg, s, 0, PAGE_LIMIT, 0);
    ForeignAnswer(cfg, s, b, k, r, y);
    ApplyPageIsReplay(r, Page(b.revision, [y], false, []));
  }

  lemma ForeignAnswer(cfg: Config, s: State, b: Book, k: nat, r: Replica, y: Change)
    requires var page: Cache := map[FormatSyncToken(1, k) := Cursor(1, b.revision, CURSOR_TTL, [y])];
      WaitsAt(cfg, s, b, page, 0, k, r) && y.revision == b.revision
    ensures var s' := Round(cfg, s, 0, PAGE_LIMIT, 0);
      && s'.st == s.st && 0 in s'.clients
      && Answered(s.clients[0], s'.clients[0], Ok((1, Page(b.revision, [y], false, []))))
  {
    assert PhaseBounded(s, s.clients[0].phase);
    SyncOfFollower(cfg, s, 0, PAGE_LIMIT, 0);
    ForeignHit(cfg.caps, k, b.revision, y);
    RoundIsSync(cfg, s, 0, PAGE_LIMIT, 0);
  }

  /** Client 0 polls, and the writers go on. */
  lemma PollThenWrite(cfg: Config, h: Hypothesis, s: State, es: seq<Event>, mid: State, items: seq<Change>, books: seq<Book>, ops: seq<Op>)
    requires Reaches(cfg, h, s, es, mid) && Chain(cfg.hash, h, books, ops) && Calm(h, mid.st)
    requires WaitsAt(cfg, mid, books[0], map[], 0, 0, map[]) && OnePage(books[0], 0, items)
    ensures var s' := RunEvents(cfg, s, es + RequestEvents(0, PAGE_LIMIT, 0) + CommitEvents(ops));
      && Reaches(cfg, h, s, es + RequestEvents(0, PAGE_LIMIT, 0) + CommitEvents(ops), s')
      && WaitsAt(cfg, s', books[|ops|], map[], 0, books[0].revision, Replay(map[], items))
      && 0 in s'.clients && s'.clients == mid.clients[0 := s'.clients[0]]
  {
    Poll(cfg, h, mid, books[0], 0, 0, map[], items);
    var s1 := Round(cfg, mid, 0, PAGE_LIMIT, 0);
    CommitsReach(cfg, h, s1, books, ops);
    ReachOn(cfg, h, s, es, mid, RequestEvents(0, PAGE_LIMIT, 0), s1);
    ReachOn(cfg, h, s, es + RequestEvents(0, PAGE_LIMIT, 0), s1, CommitEvents(ops), s1.(st := Holding(books[|ops|])));
  }

  lemma SharedListingAstray(cfg: Config, books: seq<Book>, ops: seq<Op>, items: seq<Change>, books': seq<Book>, ops': seq<Op>, x: Change, y: Change)
    requires Chain(cfg.hash, OwnFirstListings, books, ops) && books[0] == NewBook()
    requires Chain(cfg.hash, OwnFirstListings, books', ops') && books'[0] == books[|ops|]
    requires Calm(OwnFirstListings, Holding(books'[0])) && Calm(OwnFirstListings, Holding(books'[|ops'|]))
    requires OnePage(books'[0], 0, items) && x.revision == books'[0].revision
    requires StateListing(books'[|ops'|]) == [x, y] && y.revision == books'[|ops'|].revision
    requires Replay(Replay(map[], items), [y]) != Etags(books'[|ops'|].cards)
    ensures var es := Opening() + CommitEvents(ops) + RequestEvents(0, PAGE_LIMIT, 0) + CommitEvents(ops')
                      + RequestEvents(1, 1, 0) + RequestEvents(0, PAGE_LIMIT, 0);
      var s' := RunEvents(cfg, Start({0, 1}), es);
      && Init(Start({0, 1})) && RunAllBut(cfg, OwnFirstListings, Start({0, 1}), es)
      && 0 in s'.clients && !Converged(s', s'.clients[0])
  {
    var h, s := OwnFirstListings, Start({0, 1});
    var es1 := Opening() + CommitEvents(ops);
    OpenThenWrite(cfg, h, {0, 1}, books, ops);
    var s1 := RunEvents(cfg, s, es1);
    PollThenWrite(cfg, h, s, es1, s1, items, books', ops');
    var es2 := es1 + RequestEvents(0, PAGE_LIMIT, 0) + CommitEvents(ops');
    SharedListingEnds(cfg, s, es2, RunEvents(cfg, s, es2), books'[|ops'|], Replay(map[], items), x, y);
  }

  lemma SharedListingEnds(cfg: Config, s: State, es: seq<Event>, mid: State, b: Book, r: Replica, x: Change, y: Change)
    requires Reaches(cfg, OwnFirstListings, s, es, mid) && Calm(OwnFirstListings, mid.st)
    requires WaitsAt(cfg, mid, b, map[], 0, x.revision, r) && Waits(cfg, mid, b, map[], 1) && mid.clients[1].phase.Fresh?
    requires StateListing(b) == [x, y] && y.revision == b.revision && Replay(r, [y]) != Etags(b.cards)
    ensures var es' := es + RequestEvents(1, 1, 0) + RequestEvents(0, PAGE_LIMIT, 0);
      var s' := RunEvents(cfg, s, es');
      RunAllBut(cfg, OwnFirstListings, s, es') && 0 in s'.clients && !Converged(s', s'.clients[0])
  {
    var h := OwnFirstListings;
    OtherStarts(cfg, h, mid, b, x.revision, r, x, y);
    var s4 := Round(cfg, mid, 1, 1, 0);
    ForeignPoll(cfg, s4, b, x.revision, r, y);
    var s5 := Round(cfg, s4, 0, PAGE_LIMIT, 0);
    ReachOn(cfg, h, s, es, mid, RequestEvents(1, 1, 0), s4);
    ReachOn(cfg, h, s, es + RequestEvents(1, 1, 0), s4, RequestEvents(0, PAGE_LIMIT, 0), s5);
    MissesServer(cfg, s5, b, s5.page, 0, Replay(r, [y]));
  }

  /** With another client's first listing served to it, everything else disciplined, a client ends at
      the head with a card that the server has deleted. */
  lemma FirstListingsMustBeOwned(cfg: Config)
    ensures var es := Opening() + CommitEvents(SharedOps()) + RequestEvents(0, PAGE_LIMIT, 0) + CommitEvents(LaterOps())
                      + RequestEvents(1, 1, 0) + RequestEvents(0, PAGE_LIMIT, 0);
      var s' := RunEvents(cfg, Start({0, 1}), es);
      && Init(Start({0, 1})) && RunAllBut(cfg, OwnFirstListings, Start({0, 1}), es)
      && 0 in s'.clients && !Converged(s', s'.clients[0])
  {
    var books, books', e := SharedBooks(cfg.hash), LaterBooks(cfg.hash), Tag(cfg.hash);
    var x, y := Change(2, "b", e, false), Change(4, "c", e, false);
    SharedChain(cfg.hash);
    LaterChain(cfg.hash);
    SharedRows(cfg.hash);
    LaterRows(cfg.hash);
    SmallIsCalm(OwnFirstListings, books'[0]);
    SmallIsCalm(OwnFirstListings, books'[2]);
    ReplayOne(map["a" := e, "b" := e], y);
    assert "a" in map["a" := e, "b" := e]["c" := e];
    SharedListingAstray(cfg, books, SharedOps(), [Change(1, "a", e, false), Change(2, "b", e, false)], books', LaterOps(), x, y);
  }
}
