/** Clients, writers and the cursor cache as a state machine. An event is one atomic access to
    the store or to the cache, so a request of one client interleaves with every other. */
module SyncProtocol {
  import opened History
  import opened SyncItems
  import opened SyncTokens
  import opened CardStore
  import opened StoreInvariant
  import opened CursorCache
  import opened SyncCollection

  type ClientId = nat

  /** Where a client stands: its next token, and the revision its last first sync listed. Each
      response is stamped, so that a cursor can be tied to the response that stored it. */
  datatype Phase = Fresh | Synced(book: BookId, token: nat, bound: nat, stamp: nat)

  datatype Request =
    | Idle
    | Started(start: Start, limit: int)
    | Missed(start: Start, limit: int)
    | Loaded(start: Start, limit: int, items: seq<Change>, listedAt: nat)

  datatype Client = Client(name: Name, phase: Phase, replica: Replica, request: Request)

  // History variable: what a cached cursor was cut from.
  datatype Tag = Delta | Initial(stamp: nat, bound: nat)

  datatype State = State(st: StoreState, page: Cache, tags: map<string, Tag>, clients: map<ClientId, Client>, nextStamp: nat)

  /** The parts of the service that no step changes. */
  datatype Config = Config(hash: Hash, caps: Caps)

  datatype Event =
    | Commit(op: Op)
    | Begin(c: ClientId, limit: int)
    | TakePage(c: ClientId, now: int, delivered: bool)
    | ReadStore(c: ClientId)
    | Respond(c: ClientId, stamped: int, now: int, delivered: bool)
    | StartOver(c: ClientId)
    | Restart

  function TokenOf(phase: Phase): string {
    if phase.Fresh? then "" else FormatSyncToken(phase.book, phase.token)
  }

  /** A client takes in a response; one that is lost on the way changes nothing for it. */
  function Deliver(cl: Client, r: Replica, p: Page, book: BookId, bound: nat, stamp: nat, delivered: bool): Client {
    if delivered then Client(cl.name, Synced(book, p.tokenRevision, bound, stamp), ApplyPage(r, p), Idle)
    else cl.(request := Idle)
  }

  function BoundOf(phase: Phase): nat { if phase.Synced? then phase.bound else 0 }

  function Retag(tags: map<string, Tag>, caps: Caps, book: BookId, p: Page, tag: Tag): map<string, Tag> {
    if p.truncated && !Refused(caps, p.remaining) then tags[FormatSyncToken(book, p.tokenRevision) := tag] else tags
  }

  /** What the rest of a cursor's items is: a first listing stays one, under the new stamp. */
  function Continued(tags: map<string, Tag>, key: string, stamp: nat): Tag {
    if key in tags && tags[key].Initial? then Initial(stamp, tags[key].bound) else Delta
  }

  ghost function BeginStep(s: State, c: ClientId, limit: int): State
    requires c in s.clients
  {
    var cl := s.clients[c];
    match StartRequest(s.st, cl.name, TokenOf(cl.phase))
    case Err(AddressbookNotFound) => s
    case Err(InvalidToken) => s.(clients := s.clients[c := cl.(phase := Fresh)])
    case Ok(start) =>
      var request := if start.from.Some? && limit <= 0 then Missed(start, limit) else Started(start, limit);
      s.(clients := s.clients[c := cl.(request := request)])
  }

  ghost function TakeStep(cfg: Config, s: State, c: ClientId, now: int, delivered: bool): State
    requires c in s.clients && s.clients[c].request.Started? && s.clients[c].request.start.from.Some?
  {
    var cl := s.clients[c];
    var start := cl.request.start;
    var t := TakeCursor(s.page, cfg.caps, start.book, start.from.value, cl.request.limit, now);
    match t.1
    case None => s.(page := t.0, clients := s.clients[c := cl.(request := Missed(start, cl.request.limit))])
    case Some(p) =>
      var tag := Continued(s.tags, FormatSyncToken(start.book, start.from.value), s.nextStamp);
      State(s.st, t.0, Retag(s.tags, cfg.caps, start.book, p, tag),
            s.clients[c := Deliver(cl, cl.replica, p, start.book, BoundOf(cl.phase), s.nextStamp, delivered)],
            s.nextStamp + 1)
  }

  ghost predicate CanRead(r: Request) { (r.Started? && r.start.from.None?) || r.Missed? }

  ghost function ReadStep(s: State, c: ClientId): State
    requires c in s.clients && CanRead(s.clients[c].request)
  {
    var cl := s.clients[c];
    var start := cl.request.start;
    match ReadItems(s.st, start)
    case Err(_) => s.(clients := s.clients[c := cl.(phase := Fresh, request := Idle)])
    case Ok(items) =>
      var listedAt := if start.book in s.st.books then s.st.books[start.book].revision else 0;
      s.(clients := s.clients[c := cl.(request := Loaded(start, cl.request.limit, items, listedAt))])
  }

  ghost function RespondStep(cfg: Config, s: State, c: ClientId, stamped: int, now: int, delivered: bool): State
    requires c in s.clients && s.clients[c].request.Loaded?
  {
    var cl := s.clients[c];
    var Loaded(start, limit, items, listedAt) := cl.request;
    var p := CutPage(start.head, items, limit);
    var first := start.from.None?;
    State(s.st,
          StoreRest(s.page, cfg.caps, start.book, start.head, p, stamped, now),
          Retag(s.tags, cfg.caps, start.book, p, if first then Initial(s.nextStamp, listedAt) else Delta),
          s.clients[c := Deliver(cl, if first then map[] else cl.replica, p, start.book,
                                 if first then listedAt else BoundOf(cl.phase), s.nextStamp, delivered)],
          s.nextStamp + 1)
  }

  /** One event. An event that the state does not allow changes nothing. */
  ghost function Next(cfg: Config, s: State, e: Event): State {
    match e
    case Commit(op) => s.(st := Apply(cfg.hash, s.st, op))
    case Begin(c, limit) =>
      if c in s.clients && s.clients[c].request.Idle? then BeginStep(s, c, limit) else s
    case TakePage(c, now, delivered) =>
      if c in s.clients && s.clients[c].request.Started? && s.clients[c].request.start.from.Some?
      then TakeStep(cfg, s, c, now, delivered) else s
    case ReadStore(c) =>
      if c in s.clients && CanRead(s.clients[c].request) then ReadStep(s, c) else s
    case Respond(c, stamped, now, delivered) =>
      if c in s.clients && s.clients[c].request.Loaded? then RespondStep(cfg, s, c, stamped, now, delivered) else s
    case StartOver(c) =>
      if c in s.clients then s.(clients := s.clients[c := s.clients[c].(phase := Fresh, request := Idle)]) else s
    case Restart =>
      s.(page := map[], clients := map c | c in s.clients :: s.clients[c].(request := Idle))
  }

  ghost function RunEvents(cfg: Config, s: State, es: seq<Event>): State {
    if es == [] then s else Next(cfg, RunEvents(cfg, s, es[..|es| - 1]), es[|es| - 1])
  }

  lemma RunOneMore(cfg: Config, s: State, es: seq<Event>, e: Event)
    ensures RunEvents(cfg, s, es + [e]) == Next(cfg, RunEvents(cfg, s, es), e)
  {
    assert (es + [e])[..|es|] == es;
  }

  /** Any set of clients that have not synced yet, an empty store and an empty cache. */
  ghost predicate Init(s: State) {
    && s.st == EmptyStore() && s.page == map[]
    && forall c :: c in s.clients ==> s.clients[c].phase.Fresh? && s.clients[c].request.Idle?
  }

  // ---- The hypotheses the code does not enforce, for one client and one addressbook ----

  /** The addressbook's clock readings are in revision order. */
  ghost predicate ClocksOrdered(st: StoreState, id: BookId) {
    id in st.books ==> TimeOrdered(st.books[id].hist)
  }

  /** No prune passes over the token of a request whose token equals the head it read: there the
      gap check is skipped. */
  ghost predicate NoPruneDuringRead(s: State, e: Event, id: BookId) {
    e.ReadStore? && e.c in s.clients && s.clients[e.c].request.Missed? ==>
      var start := s.clients[e.c].request.start;
      start.book == id && start.from.Some? && start.from.value == start.head && id in s.st.books ==>
        Floor(s.st.books[id]) <= start.head
  }

  /** A cursor cut from a first listing reaches this client only if its last response stored it. What
      other clients are handed does not matter. */
  ghost predicate FirstListingsOwned(s: State, e: Event, me: ClientId, id: BookId) {
    e.TakePage? && e.delivered && e.c == me && me in s.clients && s.clients[me].request.Started?
      && s.clients[me].request.start.book == id && s.clients[me].request.start.from.Some? ==>
      var cl := s.clients[me];
      var key := FormatSyncToken(id, cl.request.start.from.value);
      key in s.page && key in s.tags && s.tags[key].Initial? ==>
        cl.phase.Synced? && cl.phase.stamp == s.tags[key].stamp
  }

  /** The hypotheses under which change reads are whole. */
  ghost predicate ReadsWhole(s: State, e: Event, id: BookId) {
    ClocksOrdered(s.st, id) && NoPruneDuringRead(s, e, id)
  }

  ghost predicate Disciplined(s: State, e: Event, me: ClientId, id: BookId) {
    ReadsWhole(s, e, id) && FirstListingsOwned(s, e, me, id)
  }

  // ---- What every event keeps without any hypothesis: its first part ----

  /** A token names a book that exists or existed, and never leads its revision. */
  ghost predicate PhaseBounded(s: State, phase: Phase) {
    phase.Synced? ==>
      && 1 <= phase.book < s.st.nextId
      && phase.stamp < s.nextStamp
      && (phase.book in s.st.books ==> phase.token <= |s.st.books[phase.book].hist|)
  }

  /** A started request speaks for its client's token, and read a head that still lies behind. */
  ghost predicate StartOk(s: State, cl: Client, start: Start) {
    && 1 <= start.book < s.st.nextId
    && (start.from.Some? ==> cl.phase.Synced? && cl.phase.book == start.book && cl.phase.token == start.from.value)
    && (start.from.None? ==> cl.phase.Fresh?)
    && (start.book in s.st.books ==> start.head <= |s.st.books[start.book].hist|)
  }
}
