/** Every event keeps what one client may rely on for one addressbook, under the hypotheses of
    Disciplined for that client and that addressbook. */
module SyncInvariant {
  import opened History
  import opened SyncItems
  import opened PageSafety
  import opened SyncTokens
  import opened CardStore
  import opened StoreInvariant
  import opened CursorCache
  import opened SyncCollection
  import opened SyncProtocol
  import opened TokenBounds
  import opened DeltaCursors

  /** The client's replica agrees with the server at its token, and what it has loaded is sound. */
  ghost predicate MineOk(s: State, me: ClientId, id: BookId) {
    me in s.clients && id in s.st.books ==>
      var cl, log := s.clients[me], Log(s.st.books[id]);
      && (cl.phase.Synced? && cl.phase.book == id ==> Agrees(cl.replica, log, cl.phase.token, cl.phase.bound))
      && (cl.request.Loaded? && cl.request.start.book == id ==>
            LoadedOk(log, cl.request.start, cl.request.items, cl.request.listedAt))
  }

  /** A cursor that the client's last response cut from a first listing is the rest of it, and the
      client is still where the cut left it. */
  ghost predicate OwnCursorOk(s: State, me: ClientId, id: BookId, k: nat) {
    var key := FormatSyncToken(id, k);
    key in s.page && id in s.st.books && key in s.tags && s.tags[key].Initial? ==>
      var tag, cur := s.tags[key], s.page[key];
      && tag.stamp < s.nextStamp
      && (me in s.clients && s.clients[me].phase.Synced? && s.clients[me].phase.stamp == tag.stamp ==>
            && cur.head <= tag.bound
            && s.clients[me].phase == Synced(id, k, tag.bound, tag.stamp)
            && InitialRest(s.clients[me].replica, cur.items, Log(s.st.books[id]), tag.bound, k))
  }

  ghost predicate Inv(cfg: Config, s: State, me: ClientId, id: BookId) {
    && Slices(cfg, s, id)
    && MineOk(s, me, id)
    && (forall k: nat :: OwnCursorOk(s, me, id, k))
  }

  lemma InitInv(cfg: Config, s: State, me: ClientId, id: BookId)
    requires Init(s)
    ensures Inv(cfg, s, me, id)
  {
    InitSlices(cfg, s, id);
  }

  // ---- Events that leave the cache's contents where they were ----

  lemma QuietStepKeeps(cfg: Config, s: State, s': State, c: ClientId, me: ClientId, id: BookId)
    requires Inv(cfg, s, me, id) && Slices(cfg, s', id) && MineOk(s', me, id)
    requires s'.st == s.st && s'.nextStamp == s.nextStamp && s'.tags == s.tags && SubCache(s'.page, s.page)
    requires c in s.clients && c in s'.clients && s'.clients == s.clients[c := s'.clients[c]]
    requires s'.clients[c].phase.Fresh? || (s'.clients[c].phase == s.clients[c].phase && s'.clients[c].replica == s.clients[c].replica)
    ensures Inv(cfg, s', me, id)
  {
    forall k: nat ensures OwnCursorOk(s', me, id, k) { assert OwnCursorOk(s, me, id, k); }
  }

  lemma InitialRestExtends(r: Replica, items: seq<Change>, log: seq<Change>, log': seq<Change>, bound: nat, k: nat)
    requires InitialRest(r, items, log, bound, k) && log <= log'
    ensures InitialRest(r, items, log', bound, k)
  {
    assert log'[..bound] == log[..bound];
  }

  lemma LoadedExtends(log: seq<Change>, log': seq<Change>, start: Start, items: seq<Change>, listedAt: nat)
    requires LoadedOk(log, start, items, listedAt) && log <= log'
    ensures LoadedOk(log', start, items, listedAt)
  {
    match start.from
    case None => InitialRestExtends(map[], items, log, log', listedAt, 0);
    case Some(k) => SliceGrows(log, log', k, start.head, items);
  }

  /** A book that is there after a commit and that anybody may speak of was there before. */
  lemma MineSurvivesCommit(cfg: Config, s: State, s': State, me: ClientId, id: BookId)
    requires Inv(cfg, s, me, id) && Follows(s.st, s'.st) && s' == s.(st := s'.st)
    ensures MineOk(s', me, id)
  {
    if me in s.clients && id in s'.st.books {
      var cl := s.clients[me];
      assert PhaseBounded(s, cl.phase) && RequestBounded(s, cl);
      if cl.phase.Synced? && cl.phase.book == id {
        AgreesExtends(cl.replica, Log(s.st.books[id]), Log(s'.st.books[id]), cl.phase.token, cl.phase.bound);
      }
      if cl.request.Loaded? && cl.request.start.book == id {
        LoadedExtends(Log(s.st.books[id]), Log(s'.st.books[id]), cl.request.start, cl.request.items, cl.request.listedAt);
      }
    }
  }

  lemma OwnCursorSurvivesCommit(cfg: Config, s: State, s': State, me: ClientId, id: BookId, k: nat)
    requires Inv(cfg, s, me, id) && Follows(s.st, s'.st) && s' == s.(st := s'.st)
    ensures OwnCursorOk(s', me, id, k)
  {
    var key := FormatSyncToken(id, k);
    assert OwnCursorOk(s, me, id, k) && CursorBounded(s, id, k);
    if key in s.page && id in s'.st.books && key in s.tags && s.tags[key].Initial? && me in s.clients
       && s.clients[me].phase.Synced? && s.clients[me].phase.stamp == s.tags[key].stamp {
      InitialRestExtends(s.clients[me].replica, s.page[key].items, Log(s.st.books[id]), Log(s'.st.books[id]), s.tags[key].bound, k);
    }
  }

  lemma CommitKeeps(cfg: Config, s: State, op: Op, me: ClientId, id: BookId)
    requires Inv(cfg, s, me, id)
    ensures Inv(cfg, Next(cfg, s, Commit(op)), me, id)
  {
    var s' := Next(cfg, s, Commit(op));
    CommitKeepsSlices(cfg, s, op, id);
    ApplyKeeps(cfg.hash, s.st, op);
    MineSurvivesCommit(cfg, s, s', me, id);
    forall k: nat ensures OwnCursorOk(s', me, id, k) { OwnCursorSurvivesCommit(cfg, s, s', me, id, k); }
  }

  /** A client whose request changes, but neither its standing nor what it holds. */
  lemma MineStays(s: State, s': State, c: ClientId, me: ClientId, id: BookId)
    requires MineOk(s, me, id) && s'.st == s.st && c in s.clients && c in s'.clients && s'.clients == s.clients[c := s'.clients[c]]
    requires s'.clients[c].phase.Fresh? || (s'.clients[c].phase == s.clients[c].phase && s'.clients[c].replica == s.clients[c].replica)
    requires c == me && s'.clients[c].request.Loaded? && s'.clients[c].request.start.book == id && id in s.st.books ==>
      LoadedOk(Log(s.st.books[id]), s'.clients[c].request.start, s'.clients[c].request.items, s'.clients[c].request.listedAt)
    ensures MineOk(s', me, id)
  {}

  lemma BeginKeeps(cfg: Config, s: State, c: ClientId, limit: int, me: ClientId, id: BookId)
    requires Inv(cfg, s, me, id)
    ensures Inv(cfg, Next(cfg, s, Begin(c, limit)), me, id)
  {
    if c in s.clients && s.clients[c].request.Idle? {
      var s' := BeginStep(s, c, limit);
      BeginKeepsSlices(cfg, s, c, limit, id);
      BegunBounded(cfg, s, c, limit);
      BegunFrame(s, c, limit);
      if s' != s {
        MineStays(s, s', c, me, id);
        QuietStepKeeps(cfg, s, s', c, me, id);
      }
    }
  }

  lemma ReadMine(cfg: Config, s: State, c: ClientId, me: ClientId, id: BookId)
    requires Bounded(cfg, s) && MineOk(s, me, id) && ReadsWhole(s, ReadStore(c), id) && c in s.clients && CanRead(s.clients[c].request)
    ensures MineOk(ReadStep(s, c), me, id)
  {
    var start := s.clients[c].request.start;
    assert RequestBounded(s, s.clients[c]);
    if ReadItems(s.st, start).Ok? && start.book == id && id in s.st.books {
      ReadIsSound(cfg.hash, s.st.books[id], start, s.st);
    }
    MineStays(s, ReadStep(s, c), c, me, id);
  }

  lemma ReadFrame(s: State, c: ClientId)
    requires c in s.clients && CanRead(s.clients[c].request)
    ensures var s' := ReadStep(s, c);
      && s'.st == s.st && s'.nextStamp == s.nextStamp && s'.tags == s.tags && s'.page == s.page
      && c in s'.clients && s'.clients == s.clients[c := s'.clients[c]] && s'.clients[c].replica == s.clients[c].replica
      && (s'.clients[c].phase.Fresh? || s'.clients[c].phase == s.clients[c].phase)
  {}

  lemma ReadKeeps(cfg: Config, s: State, c: ClientId, me: ClientId, id: BookId)
    requires Inv(cfg, s, me, id) && ReadsWhole(s, ReadStore(c), id)
    ensures Inv(cfg, Next(cfg, s, ReadStore(c)), me, id)
  {
    if c in s.clients && CanRead(s.clients[c].request) {
      ReadKeepsSlices(cfg, s, c, id);
      ReadMine(cfg, s, c, me, id);
      ReadFrame(s, c);
      QuietStepKeeps(cfg, s, ReadStep(s, c), c, me, id);
    }
  }

  // ---- Serving a page ----

  /** What is asked of a page that the client takes in. */
  ghost predicate PageFits(s: State, id: BookId, r: Replica, head: nat, p: Page, bound: nat, tag: Tag) {
    id in s.st.books ==>
      var log := Log(s.st.books[id]);
      && Agrees(ApplyPage(r, p), log, p.tokenRevision, bound)
      && (p.truncated && tag.Initial? ==>
            tag.bound == bound && head <= bound && InitialRest(ApplyPage(r, p), p.remaining, log, bound, p.tokenRevision))
  }

  /** Any client's response: only this client's own is asked to fit. */
  lemma ServedCursorOk(cfg: Config, s: State, s': State, c: ClientId, base: Cache, book: BookId, r: Replica, head: nat, p: Page,
                       bound: nat, tag: Tag, stamped: int, now: int, delivered: bool, me: ClientId, id: BookId, k: nat)
    requires Bounded(cfg, s) && OwnCursorOk(s, me, id, k) && c in s.clients && SubCache(base, s.page)
    requires tag.Initial? ==> tag.stamp == s.nextStamp
    requires c == me && delivered && book == id ==> PageFits(s, id, r, head, p, bound, tag)
    requires s'.st == s.st && s'.nextStamp == s.nextStamp + 1
    requires s'.page == StoreRest(base, cfg.caps, book, head, p, stamped, now) && s'.tags == Retag(s.tags, cfg.caps, book, p, tag)
    requires s'.clients == s.clients[c := Deliver(s.clients[c], r, p, book, bound, s.nextStamp, delivered)]
    ensures OwnCursorOk(s', me, id, k)
  {
    var key, token := FormatSyncToken(id, k), FormatSyncToken(book, p.tokenRevision);
    if me in s.clients { assert PhaseBounded(s, s.clients[me].phase); }
    if key in s'.page {
      if p.truncated {
        PutCursorOrigin(base, cfg.caps, token, Cursor(book, head, stamped + CURSOR_TTL, p.remaining), now, key);
        if key == token { FormatIsInjective(id, k, book, p.tokenRevision); }
      }
    }
  }

  lemma ServeKeeps(cfg: Config, s: State, s': State, c: ClientId, base: Cache, book: BookId, r: Replica, head: nat, p: Page,
                   bound: nat, tag: Tag, stamped: int, now: int, delivered: bool, me: ClientId, id: BookId)
    requires Inv(cfg, s, me, id) && Slices(cfg, s', id) && c in s.clients && SubCache(base, s.page)
    requires tag.Initial? ==> tag.stamp == s.nextStamp
    requires c == me && delivered && book == id ==> PageFits(s, id, r, head, p, bound, tag)
    requires s'.st == s.st && s'.nextStamp == s.nextStamp + 1
    requires s'.page == StoreRest(base, cfg.caps, book, head, p, stamped, now) && s'.tags == Retag(s.tags, cfg.caps, book, p, tag)
    requires s'.clients == s.clients[c := Deliver(s.clients[c], r, p, book, bound, s.nextStamp, delivered)]
    ensures Inv(cfg, s', me, id)
  {
    forall k: nat ensures OwnCursorOk(s', me, id, k) {
      assert OwnCursorOk(s, me, id, k);
      ServedCursorOk(cfg, s, s', c, base, book, r, head, p, bound, tag, stamped, now, delivered, me, id, k);
    }
  }

  lemma SlicePageAgrees(log: seq<Change>, r: Replica, k: nat, items: seq<Change>, bound: nat, head: nat, limit: int)
    requires Numbered(log) && Agrees(r, log, k, bound) && DeltaCursorOk(log, k, head, items) && (items == [] ==> head == k)
    ensures var p := CutPage(head, items, limit);
      Agrees(ApplyPage(r, p), log, p.tokenRevision, bound)
  {
    var m := k + |items|;
    assert CutPage(head, log[k..m], limit) == CutPage(head, items, limit);
    DeltaPage(r, log, k, m, bound, head, limit);
  }

  /** A page of a slice fits every client at its start. */
  lemma DeltaFits(s: State, id: BookId, r: Replica, k: nat, items: seq<Change>, bound: nat, head: nat, limit: int)
    requires id in s.st.books ==>
      var log := Log(s.st.books[id]);
      Numbered(log) && Agrees(r, log, k, bound) && DeltaCursorOk(log, k, head, items) && (items == [] ==> head == k)
    ensures PageFits(s, id, r, head, CutPage(head, items, limit), bound, Delta)
  {
    if id in s.st.books { SlicePageAgrees(Log(s.st.books[id]), r, k, items, bound, head, limit); }
  }

  /** A page of a first listing fits the client that it was listed for. */
  lemma InitialFits(s: State, id: BookId, r: Replica, k: nat, items: seq<Change>, bound: nat, head: nat, limit: int, tag: Tag)
    requires tag.Initial? && tag.bound == bound
    requires id in s.st.books ==>
      head <= bound && (items == [] ==> k <= head) && InitialRest(r, items, Log(s.st.books[id]), bound, k)
    ensures PageFits(s, id, r, head, CutPage(head, items, limit), bound, tag)
  {
    if id in s.st.books {
      var log := Log(s.st.books[id]);
      InitialPageAgrees(r, items, log, bound, k, head, limit);
      if CutPage(head, items, limit).truncated { InitialPageRest(r, items, log, bound, k, head, limit); }
    }
  }

  lemma LoadedFits(cfg: Config, s: State, me: ClientId, id: BookId)
    requires Inv(cfg, s, me, id) && me in s.clients && s.clients[me].request.Loaded? && s.clients[me].request.start.book == id
    ensures var cl := s.clients[me];
      var Loaded(start, limit, items, listedAt) := cl.request;
      var first := start.from.None?;
      PageFits(s, id, if first then map[] else cl.replica, start.head, CutPage(start.head, items, limit),
               if first then listedAt else BoundOf(cl.phase), if first then Initial(s.nextStamp, listedAt) else Delta)
  {
    var cl := s.clients[me];
    var Loaded(start, limit, items, listedAt) := cl.request;
    assert RequestBounded(s, cl);
    if start.from.None? {
      InitialFits(s, id, map[], 0, items, listedAt, start.head, limit, Initial(s.nextStamp, listedAt));
    } else {
      if id in s.st.books { BookNumbered(cfg, s, id); }
      DeltaFits(s, id, cl.replica, start.from.value, items, BoundOf(cl.phase), start.head, limit);
    }
  }

  lemma RespondKeeps(cfg: Config, s: State, c: ClientId, stamped: int, now: int, delivered: bool, me: ClientId, id: BookId)
    requires Inv(cfg, s, me, id)
    ensures Inv(cfg, Next(cfg, s, Respond(c, stamped, now, delivered)), me, id)
  {
    if c in s.clients && s.clients[c].request.Loaded? {
      var cl := s.clients[c];
      var Loaded(start, limit, items, listedAt) := cl.request;
      var first := start.from.None?;
      RespondKeepsSlices(cfg, s, c, stamped, now, delivered, id);
      if c == me && start.book == id { LoadedFits(cfg, s, me, id); }
      ServeKeeps(cfg, s, Next(cfg, s, Respond(c, stamped, now, delivered)), c, s.page, start.book, if first then map[] else cl.replica,
                 start.head, CutPage(start.head, items, limit), if first then listedAt else BoundOf(cl.phase),
                 if first then Initial(s.nextStamp, listedAt) else Delta, stamped, now, delivered, me, id);
    }
  }

  /** A cursor fits the client, if it holds changes or is the client's own. */
  lemma CursorFits(cfg: Config, s: State, me: ClientId, id: BookId, k: nat, limit: int)
    requires Inv(cfg, s, me, id) && me in s.clients && FormatSyncToken(id, k) in s.page
    requires var cl, key := s.clients[me], FormatSyncToken(id, k);
      && cl.phase.Synced? && cl.phase.book == id && cl.phase.token == k
      && (key in s.tags && s.tags[key].Initial? ==> cl.phase.stamp == s.tags[key].stamp)
    ensures var cl, key := s.clients[me], FormatSyncToken(id, k);
      PageFits(s, id, cl.replica, s.page[key].head, CutPage(s.page[key].head, s.page[key].items, limit),
               BoundOf(cl.phase), Continued(s.tags, key, s.nextStamp))
  {
    var cl, key := s.clients[me], FormatSyncToken(id, k);
    var cur, tag := s.page[key], Continued(s.tags, key, s.nextStamp);
    assert SliceCached(s, id, k) && CursorBounded(s, id, k) && OwnCursorOk(s, me, id, k);
    if tag.Delta? {
      if id in s.st.books { BookNumbered(cfg, s, id); }
      DeltaFits(s, id, cl.replica, k, cur.items, BoundOf(cl.phase), cur.head, limit);
    } else if id in s.st.books {
      InitialFits(s, id, cl.replica, k, cur.items, BoundOf(cl.phase), cur.head, limit, tag);
    }
  }

  lemma TakeKeeps(cfg: Config, s: State, c: ClientId, now: int, delivered: bool, me: ClientId, id: BookId)
    requires Inv(cfg, s, me, id) && FirstListingsOwned(s, TakePage(c, now, delivered), me, id)
    ensures Inv(cfg, Next(cfg, s, TakePage(c, now, delivered)), me, id)
  {
    if c in s.clients && s.clients[c].request.Started? && s.clients[c].request.start.from.Some? {
      var s', cl := Next(cfg, s, TakePage(c, now, delivered)), s.clients[c];
      var limit, book, k := cl.request.limit, cl.request.start.book, cl.request.start.from.value;
      var swept, key := PruneExpired(s.page, now), FormatSyncToken(book, k);
      assert RequestBounded(s, cl);
      TakeKeepsSlices(cfg, s, c, now, delivered, id);
      if key in swept && swept[key].book == book {
        if c == me && delivered && book == id { CursorFits(cfg, s, me, id, k, limit); }
        ServeKeeps(cfg, s, s', c, swept - {key}, book, cl.replica, swept[key].head, CutPage(swept[key].head, swept[key].items, limit),
                   BoundOf(cl.phase), Continued(s.tags, key, s.nextStamp), now, now, delivered, me, id);
      } else {
        QuietStepKeeps(cfg, s, s', c, me, id);
      }
    }
  }

  /** Every event, of whatever client, keeps the invariant of one client and one addressbook. */
  lemma NextKeeps(cfg: Config, s: State, e: Event, me: ClientId, id: BookId)
    requires Inv(cfg, s, me, id) && Disciplined(s, e, me, id)
    ensures Inv(cfg, Next(cfg, s, e), me, id)
  {
    match e
    case Commit(op) => CommitKeeps(cfg, s, op, me, id);
    case Begin(c, limit) => BeginKeeps(cfg, s, c, limit, me, id);
    case TakePage(c, now, delivered) => TakeKeeps(cfg, s, c, now, delivered, me, id);
    case ReadStore(c) => ReadKeeps(cfg, s, c, me, id);
    case Respond(c, stamped, now, delivered) => RespondKeeps(cfg, s, c, stamped, now, delivered, me, id);
    case StartOver(c) =>
      NextKeepsSlices(cfg, s, e, id);
      if c in s.clients { QuietStepKeeps(cfg, s, Next(cfg, s, e), c, me, id); }
    case Restart => NextKeepsSlices(cfg, s, e, id);
  }
}
