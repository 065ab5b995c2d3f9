/** The theorems about sync-collection: convergence over whole runs, tokens, progress, and what
    each hypothesis is needed for. */
module SyncConvergence {
  import opened Basics
  import opened History
  import opened SyncItems
  import opened PageSafety
  import opened CardStore
  import opened StoreInvariant
  import opened StoreReads
  import opened CursorCache
  import opened SyncCollection
  import opened SyncProtocol
  import opened TokenBounds
  import opened DeltaCursors
  import opened SyncInvariant

  /** A run that keeps the hypotheses for one client and one addressbook. */
  ghost predicate DisciplinedRun(cfg: Config, s: State, es: seq<Event>, me: ClientId, id: BookId) {
    es == [] || (DisciplinedRun(cfg, s, es[..|es| - 1], me, id) && Disciplined(RunEvents(cfg, s, es[..|es| - 1]), es[|es| - 1], me, id))
  }

  /** What a client may rely on. */
  ghost predicate Converged(s: State, cl: Client) {
    cl.phase.Synced? && cl.phase.book in s.st.books ==>
      var b, k, bound := s.st.books[cl.phase.book], cl.phase.token, cl.phase.bound;
      && k <= b.revision == |b.hist| && bound <= b.revision
      && (forall x :: !ChangedIn(Log(b), k, bound, x) ==> Get(cl.replica, x) == Get(StateAt(Log(b), k), x))
      && (bound <= k ==> cl.replica == StateAt(Log(b), k))
      && (k == b.revision ==> cl.replica == Etags(b.cards))
  }

  lemma InvConverges(cfg: Config, s: State, me: ClientId, id: BookId)
    requires Inv(cfg, s, me, id) && me in s.clients && s.clients[me].phase.Synced? && s.clients[me].phase.book == id
    ensures Converged(s, s.clients[me])
  {
    var cl := s.clients[me];
    assert PhaseBounded(s, cl.phase);
    if id in s.st.books {
      var b := s.st.books[id];
      if cl.phase.bound <= cl.phase.token { AgreesExactly(cl.replica, Log(b), cl.phase.token, cl.phase.bound); }
    }
  }

  lemma {:induction false} RunKeepsInv(cfg: Config, s: State, es: seq<Event>, me: ClientId, id: BookId)
    requires Inv(cfg, s, me, id) && DisciplinedRun(cfg, s, es, me, id)
    ensures Inv(cfg, RunEvents(cfg, s, es), me, id)
  {
    if es != [] {
      var n := |es| - 1;
      RunKeepsInv(cfg, s, es[..n], me, id);
      NextKeeps(cfg, RunEvents(cfg, s, es[..n]), es[n], me, id);
    }
  }

  /** Whole-run convergence: after any interleaving of writers, prunes, expiries, evictions, lost
      responses, restarts and other clients, a client that only follows returned tokens holds the
      server's state at its token on every href not changed since, up to the revision its first sync
      listed; past that revision it holds it exactly. The hypotheses concern only the client's own
      addressbook, and only the cursors that it is handed itself. */
  lemma RunsConverge(cfg: Config, s: State, es: seq<Event>, me: ClientId, id: BookId)
    requires Init(s) && DisciplinedRun(cfg, s, es, me, id) && me in RunEvents(cfg, s, es).clients
    ensures var s' := RunEvents(cfg, s, es);
      && !OverCap(s'.page, cfg.caps)
      && (s'.clients[me].phase.Synced? && s'.clients[me].phase.book == id ==> Converged(s', s'.clients[me]))
  {
    var s' := RunEvents(cfg, s, es);
    InitInv(cfg, s, me, id);
    TokensNeverLead(cfg, s, es, me);
    RunKeepsInv(cfg, s, es, me, id);
    if s'.clients[me].phase.Synced? && s'.clients[me].phase.book == id { InvConverges(cfg, s', me, id); }
  }

  /** A first sync that fits one page is exact: its token is the revision and the client holds the
      server's cards, whatever was pruned. */
  lemma WholeFirstSyncIsExact(hash: Hash, st: StoreState, id: BookId, limit: int)
    requires StoreOk(hash, st) && id in st.books
    ensures var b := st.books[id];
      var read := ReadItems(st, Start(id, b.revision, None));
      && read.Ok?
      && var p := CutPage(b.revision, read.value, limit);
         !p.truncated ==> p.tokenRevision == b.revision && ApplyPage(map[], p) == Etags(b.cards)
  {
    var b := st.books[id];
    var items, log := StateListing(b), Log(b);
    ListingStartsFirstSync(hash, b);
    InitialToken(items, log, |log|, 0, b.revision, limit);
    InitialPageAgrees(map[], items, log, |log|, 0, b.revision, limit);
    if !CutPage(b.revision, items, limit).truncated {
      AgreesExactly(ApplyPage(map[], CutPage(b.revision, items, limit)), log, |log|, |log|);
    }
  }

  /** Writes between the two reads of a delta request do no harm: whatever head was read before, the
      page takes the client from the state at its token to exactly the state at the new one. */
  lemma LateChangeReadIsExact(hash: Hash, b: Book, k: nat, head: nat, limit: int)
    requires BookOk(hash, b) && TimeOrdered(b.hist) && k <= head <= |b.hist|
    requires !IsStale(k, head, ChangesSince(b.journal, k)) && (k == head ==> Floor(b) <= k)
    ensures var p := CutPage(head, ChangesSince(b.journal, k), limit);
      && k <= p.tokenRevision <= |b.hist|
      && ApplyPage(StateAt(Log(b), k), p) == StateAt(Log(b), p.tokenRevision)
  {
    var log := Log(b);
    ChangeReadIsSlice(hash, b, k, head);
    assert log[k..] == log[k..|log|];
    DeltaToken(log, k, |log|, head, limit);
    ApplyPageIsReplay(StateAt(log, k), CutPage(head, log[k..|log|], limit));
    StateSplit(log, k, CutPage(head, log[k..|log|], limit).tokenRevision);
  }

  /** A first listing read after further writes differs from the state at the page's token at most
      on what changed after that token, up to the listing. */
  lemma LateListingAgrees(hash: Hash, b: Book, head: nat, limit: int)
    requires BookOk(hash, b) && head <= |b.hist|
    ensures var p := CutPage(head, StateListing(b), limit);
      && p.tokenRevision <= |b.hist|
      && Agrees(ApplyPage(map[], p), Log(b), p.tokenRevision, |b.hist|)
  {
    ListingStartsFirstSync(hash, b);
    InitialPageAgrees(map[], StateListing(b), Log(b), |b.hist|, 0, head, limit);
  }

  // ---- Tokens ----

  /** A token minted for a dropped book is refused for ever, in every run and after any further
      operations, also when the slug is taken again: no later book has its id, and no cursor under it
      is consulted. */
  lemma DroppedBookTokenRefused(cfg: Config, s: State, es: seq<Event>, c: ClientId, ops: seq<Op>)
    requires Init(s) && c in RunEvents(cfg, s, es).clients
    requires var s' := RunEvents(cfg, s, es);
      s'.clients[c].phase.Synced? && s'.clients[c].phase.book !in s'.st.books
    ensures var s' := RunEvents(cfg, s, es);
      var cl, later := s'.clients[c], Run(cfg.hash, s'.st, ops);
      cl.phase.book !in later.books && StartRequest(later, cl.name, TokenOf(cl.phase)).Err?
  {
    var s' := RunEvents(cfg, s, es);
    InitBounded(cfg, s);
    RunKeepsBounds(cfg, s, es);
    RunsKeep(cfg.hash, s'.st, ops);
    GoneStaysGone(cfg, s', s'.clients[c], Run(cfg.hash, s'.st, ops));
  }

  lemma GoneStaysGone(cfg: Config, s: State, cl: Client, st': StoreState)
    requires PhaseBounded(s, cl.phase) && cl.phase.Synced? && cl.phase.book !in s.st.books
    requires StoreOk(cfg.hash, st') && Follows(s.st, st')
    ensures cl.phase.book !in st'.books && StartRequest(st', cl.name, TokenOf(cl.phase)).Err?
  {
    var later := s.(st := st');
    assert PhaseBounded(later, cl.phase);
    if StartRequest(st', cl.name, TokenOf(cl.phase)).Ok? { StartSpeaksForClient(cfg, later, cl); }
  }

  // ---- Staleness ----

  /** On a cursor miss, with no write between the two reads: a token below the head is refused
      exactly when the next revision's row is gone, else every later change is returned; the head
      itself is never refused; a token past the head always is. */
  lemma StalenessIsExact(hash: Hash, st: StoreState, id: BookId, token: nat)
    requires StoreOk(hash, st) && id in st.books && TimeOrdered(st.books[id].hist)
    ensures var b := st.books[id];
      var r := ReadItems(st, Start(id, b.revision, Some(token)));
      && (token < b.revision ==> (r.Err? <==> b.hist[token] !in b.journal))
      && (token < b.revision ==> (r.Err? <==> token < Floor(b)))
      && (token <= b.revision && r.Ok? ==> r.value == Log(b)[token..])
      && (token == b.revision ==> r == Ok([]))
      && (token > b.revision ==> r.Err?)
  {
    var b := st.books[id];
    if token < b.revision {
      StaleIffNextRowGone(hash, b, token, b.revision);
      StaleIffBehindFloor(hash, b, token, b.revision);
    } else if token == b.revision {
      ChangesSinceIsSlice(hash, b, token);
    }
  }
}
