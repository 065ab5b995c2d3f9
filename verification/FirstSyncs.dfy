/** A paged first sync with nobody writing: it is served page by page to the end, and never refused. */
module FirstSyncs {
  import opened History
  import opened SyncItems
  import opened PageSafety
  import opened SyncTokens
  import opened CardStore
  import opened StoreInvariant
  import opened StoreReads
  import opened CursorCache
  import opened SyncCollection
  import opened SyncProtocol
  import opened TokenBounds
  import opened SyncProgress

  /** No other cursor expires as late as one stored at time t would. */
  ghost predicate OthersExpireBefore(page: Cache, key: string, t: int) {
    forall k :: k in page && k != key ==> page[k].expires < t + CURSOR_TTL
  }

  /** Part-way through its first listing: the rest of it, stored at time t, waits under the client's token. */
  ghost predicate PagingOn(cfg: Config, s: State, c: ClientId, id: BookId, rest: seq<Change>, t: int) {
    && Bounded(cfg, s) && Following(s, c) && s.clients[c].phase.book == id
    && var b, key := s.st.books[id], TokenOf(s.clients[c].phase);
       && key in s.page && s.page[key] == Cursor(id, |b.hist|, t + CURSOR_TTL, rest)
       && OthersExpireBefore(s.page, key, t)
       && rest != [] && (cfg.caps.maxItems > 0 ==> |rest| <= cfg.caps.maxItems)
       && InitialRest(s.clients[c].replica, rest, Log(b), |b.hist|, s.clients[c].phase.token)
  }

  /** The client has the server's cards under the head's token, and no continuation is left. */
  ghost predicate AtHead(s: State, c: ClientId, id: BookId, b: Book) {
    && Following(s, c) && s.clients[c].phase.book == id && TokenRevision(s, c) == b.revision && TokenOf(s.clients[c].phase) !in s.page
    && s.clients[c].replica == Etags(b.cards)
  }

  /** What a page of the listing leaves: the end, or a shorter rest. */
  ghost predicate PagedOn(cfg: Config, s: State, c: ClientId, id: BookId, b: Book, items: seq<Change>, limit: int, now: int) {
    if CutPage(|b.hist|, items, limit).truncated then PagingOn(cfg, s, c, id, CutPage(|b.hist|, items, limit).remaining, now)
    else AtHead(s, c, id, b)
  }

  /** A page of the listing, cut at the head, reaches the client; its rest is stored on top of `base`. */
  lemma PageArrives(cfg: Config, s: State, c: ClientId, id: BookId, r: Replica, k: nat, items: seq<Change>, base: Cache, limit: int, now: int)
    requires Bounded(cfg, s) && Following(s, c) && s.clients[c].phase.book == id && limit >= 1
    requires var b := s.st.books[id];
      InitialRest(r, items, Log(b), |b.hist|, k) && (items == [] ==> k <= |b.hist|)
    requires var p := CutPage(|s.st.books[id].hist|, items, limit);
      && (cfg.caps.maxItems > 0 ==> |p.remaining| <= cfg.caps.maxItems)
      && s.clients[c].phase.token == p.tokenRevision && s.clients[c].replica == ApplyPage(r, p)
      && s.page == StoreRest(base, cfg.caps, id, |s.st.books[id].hist|, p, now, now)
    requires forall j :: j in base ==> base[j].expires < now + CURSOR_TTL
    ensures PagedOn(cfg, s, c, id, s.st.books[id], items, limit, now)
  {
    var b := s.st.books[id];
    var p := CutPage(|b.hist|, items, limit);
    InitialToken(items, Log(b), |b.hist|, k, |b.hist|, limit);
    if p.truncated {
      RestWaits(cfg, base, id, |b.hist|, p, now);
      InitialPageRest(r, items, Log(b), |b.hist|, k, |b.hist|, limit);
    } else {
      InitialPageAgrees(r, items, Log(b), |b.hist|, k, |b.hist|, limit);
      AgreesExactly(ApplyPage(r, p), Log(b), |b.hist|, |b.hist|);
      assert CursorBounded(s, id, |b.hist|);
    }
  }

  lemma RestWaits(cfg: Config, base: Cache, id: BookId, head: nat, p: Page, now: int)
    requires p.truncated && (cfg.caps.maxItems > 0 ==> |p.remaining| <= cfg.caps.maxItems)
    requires forall j :: j in base ==> base[j].expires < now + CURSOR_TTL
    ensures var page, key := StoreRest(base, cfg.caps, id, head, p, now, now), FormatSyncToken(id, p.tokenRevision);
      && key in page && page[key] == Cursor(id, head, now + CURSOR_TTL, p.remaining)
      && OthersExpireBefore(page, key, now)
  {
    var page, key := StoreRest(base, cfg.caps, id, head, p, now, now), FormatSyncToken(id, p.tokenRevision);
    var cur := Cursor(id, head, now + CURSOR_TTL, p.remaining);
    PutCursorCaches(base, cfg.caps, key, cur, now);
    forall j | j in page && j != key ensures page[j].expires < now + CURSOR_TTL {
      PutCursorOrigin(base, cfg.caps, key, cur, now, j);
    }
  }

  /** The first request. */
  lemma FirstPage(cfg: Config, s: State, c: ClientId, limit: int, now: int)
    requires Bounded(cfg, s) && c in s.clients && limit >= 1
    requires s.clients[c].phase.Fresh? && s.clients[c].request.Idle? && s.clients[c].name in s.st.names
    requires forall k :: k in s.page ==> s.page[k].expires < now + CURSOR_TTL
    requires var b := s.st.books[s.st.names[s.clients[c].name]];
      cfg.caps.maxItems > 0 ==> |StateListing(b)| <= limit + cfg.caps.maxItems
    ensures var id, s' := s.st.names[s.clients[c].name], Round(cfg, s, c, limit, now);
      && s'.st == s.st && Bounded(cfg, s') && Following(s', c) && s'.clients[c].phase.book == id
      && PagedOn(cfg, s', c, id, s.st.books[id], StateListing(s.st.books[id]), limit, now)
  {
    var id, s' := s.st.names[s.clients[c].name], Round(cfg, s, c, limit, now);
    var b := s.st.books[id];
    FirstRoundSyncs(cfg, s, c, limit, now, id);
    RoundIsSync(cfg, s, c, limit, now);
    ListingStartsFirstSync(cfg.hash, b);
    CutSplits(|b.hist|, StateListing(b), limit);
    PageArrives(cfg, s', c, id, map[], 0, StateListing(b), s.page, limit, now);
  }

  /** Any later request meets the waiting rest. */
  lemma NextPage(cfg: Config, s: State, c: ClientId, id: BookId, rest: seq<Change>, t: int, limit: int, now: int)
    requires PagingOn(cfg, s, c, id, rest, t) && limit >= 1 && t <= now <= t + CURSOR_TTL
    ensures var s' := Round(cfg, s, c, limit, now);
      && s'.st == s.st && Bounded(cfg, s') && Following(s', c) && s'.clients[c].phase.book == id
      && PagedOn(cfg, s', c, id, s.st.books[id], rest, limit, now)
  {
    var s', cl := Round(cfg, s, c, limit, now), s.clients[c];
    var b, key := s.st.books[id], TokenOf(cl.phase);
    RoundKeepsBounds(cfg, s, c, limit, now);
    assert PhaseBounded(s, cl.phase);
    RoundIsSync(cfg, s, c, limit, now);
    SyncOfFollower(cfg, s, c, limit, now);
    TakeHitsIff(s.page, cfg.caps, id, cl.phase.token, limit, now);
    CutSplits(|b.hist|, rest, limit);
    PageArrives(cfg, s', c, id, cl.replica, cl.phase.token, rest, PruneExpired(s.page, now) - {key}, limit, now);
  }

  /** A prune in between takes nothing from a client that is being served from its cursor. */
  lemma PruneLeavesPaging(cfg: Config, s: State, c: ClientId, id: BookId, b: Book, items: seq<Change>, limit: int, now: int, op: Op)
    requires Bounded(cfg, s) && Following(s, c) && s.clients[c].phase.book == id && s.st.books[id] == b
    requires PagedOn(cfg, s, c, id, b, items, limit, now) && (op.OpPruneByAge? || op.OpPruneByMaxRevisions?)
    ensures var s' := Next(cfg, s, Commit(op));
      && Bounded(cfg, s') && Following(s', c) && s'.clients == s.clients && OnlyPruned(b, s'.st.books[id])
      && PagedOn(cfg, s', c, id, s'.st.books[id], items, limit, now)
  {
    NextKeepsBounds(cfg, s, Commit(op));
    PruneEffect(cfg, s, op, id);
  }

  // ---- To the end ----

  /** From time t on, request follows request within the lifetime of a cursor. */
  ghost predicate Timely(sched: Schedule, i: nat, t: int) {
    && t <= sched.clock(i) <= t + CURSOR_TTL
    && forall j, k :: i <= j && k == j + 1 ==> sched.clock(j) <= sched.clock(k) <= sched.clock(j) + CURSOR_TTL
  }

  /** After each of the next n requests the client is synced with its addressbook: none was refused. */
  ghost predicate NeverRefused(cfg: Config, s: State, c: ClientId, sched: Schedule, i: nat, n: nat)
    decreases n
  {
    n == 0 || (Following(RoundThenPrune(cfg, s, c, sched, i), c) && NeverRefused(cfg, RoundThenPrune(cfg, s, c, sched, i), c, sched, i + 1, n - 1))
  }

  /** The next n requests are all served and bring the client to the head. */
  ghost predicate Completes(cfg: Config, s: State, c: ClientId, sched: Schedule, i: nat, n: nat, id: BookId, b: Book) {
    NeverRefused(cfg, s, c, sched, i, n) && AtHead(Rounds(cfg, s, c, sched, i, n), c, id, b)
  }

  /** s1 is what request i and the prune after it make of s. */
  ghost predicate Then(cfg: Config, s: State, c: ClientId, sched: Schedule, i: nat, s1: State, j: nat) {
    s1 == RoundThenPrune(cfg, s, c, sched, i) && Following(s1, c) && j == i + 1
  }

  lemma CompletesLater(cfg: Config, s: State, c: ClientId, sched: Schedule, i: nat, s1: State, j: nat, n: nat, id: BookId, b: Book) returns (m: nat)
    requires Then(cfg, s, c, sched, i, s1, j) && Completes(cfg, s1, c, sched, j, n, id, b)
    ensures m == n + 1 && Completes(cfg, s, c, sched, i, m, id, b)
  {
    m := n + 1;
    RoundsFirst(cfg, s, c, sched, i, n);
  }

  /** Where a client is that began on addressbook b: at the head, or part-way with the rest to come. */
  ghost predicate Onward(cfg: Config, s: State, c: ClientId, id: BookId, sched: Schedule, i: nat, rest: seq<Change>, b: Book) {
    if rest == [] then AtHead(s, c, id, b)
    else exists t :: Waits(cfg, s, c, id, sched, i, rest, t, b)
  }

  ghost predicate Waits(cfg: Config, s: State, c: ClientId, id: BookId, sched: Schedule, i: nat, rest: seq<Change>, t: int, b: Book) {
    PagingOn(cfg, s, c, id, rest, t) && Paging(sched) && Timely(sched, i, t) && OnlyPruned(b, s.st.books[id])
  }

  /** A page was served to the client: it is at the head, or part-way with fewer items to come. */
  lemma PageThenPrune(cfg: Config, s: State, c: ClientId, sched: Schedule, i: nat, id: BookId, items: seq<Change>, b: Book)
    returns (s1: State, j: nat, rest: seq<Change>)
    requires Paging(sched) && Timely(sched, i, sched.clock(i)) && id in s.st.books && OnlyPruned(b, s.st.books[id])
    requires var limit, now, s' := sched.limit(i), sched.clock(i), Round(cfg, s, c, sched.limit(i), sched.clock(i));
      && s'.st == s.st && Bounded(cfg, s') && Following(s', c) && s'.clients[c].phase.book == id
      && PagedOn(cfg, s', c, id, s.st.books[id], items, limit, now)
    ensures Then(cfg, s, c, sched, i, s1, j) && Onward(cfg, s1, c, id, sched, j, rest, b)
    ensures |rest| < |items| || (rest == [] && items == [])
  {
    var limit, now, s' := sched.limit(i), sched.clock(i), Round(cfg, s, c, sched.limit(i), sched.clock(i));
    var head := |s.st.books[id].hist|;
    s1, j, rest := RoundThenPrune(cfg, s, c, sched, i), i + 1, CutPage(head, items, limit).remaining;
    PruneLeavesPaging(cfg, s', c, id, s.st.books[id], items, limit, now, sched.prune(i));
    CutSplits(head, items, limit);
    assert rest != [] ==> Waits(cfg, s1, c, id, sched, j, rest, now, b);
  }

  lemma NextThenPrune(cfg: Config, s: State, c: ClientId, sched: Schedule, i: nat, id: BookId, items: seq<Change>, b: Book)
    returns (s1: State, j: nat, rest: seq<Change>)
    requires Onward(cfg, s, c, id, sched, i, items, b) && items != []
    ensures Then(cfg, s, c, sched, i, s1, j) && Onward(cfg, s1, c, id, sched, j, rest, b)
    ensures |rest| < |items|
  {
    var t :| Waits(cfg, s, c, id, sched, i, items, t, b);
    NextPage(cfg, s, c, id, items, t, sched.limit(i), sched.clock(i));
    s1, j, rest := PageThenPrune(cfg, s, c, sched, i, id, items, b);
  }

  lemma {:induction false} PagesToTheEnd(cfg: Config, s: State, c: ClientId, sched: Schedule, i: nat, id: BookId, rest: seq<Change>, b: Book)
    returns (n: nat)
    requires Onward(cfg, s, c, id, sched, i, rest, b)
    ensures n <= |rest| && Completes(cfg, s, c, sched, i, n, id, b)
    decreases |rest|
  {
    if rest == [] {
      n := 0;
    } else {
      var s1, j, later := NextThenPrune(cfg, s, c, sched, i, id, rest, b);
      var m := PagesToTheEnd(cfg, s1, c, sched, j, id, later, b);
      n := CompletesLater(cfg, s, c, sched, i, s1, j, m, id, b);
    }
  }

  /** The listing has one item for each card. */
  lemma ListingCount(hash: Hash, b: Book)
    requires BookOk(hash, b)
    ensures |StateListing(b)| == |b.cards|
  {
    ListingStartsFirstSync(hash, b);
    DistinctCount(StateListing(b));
    forall h | h in b.cards ensures h in Hrefs(StateListing(b)) { assert CardState(b, h) in StateListing(b); }
    assert Hrefs(StateListing(b)) == b.cards.Keys;
  }

  lemma FirstThenPrune(cfg: Config, s: State, c: ClientId, sched: Schedule, i: nat) returns (s1: State, j: nat, rest: seq<Change>)
    requires Bounded(cfg, s) && c in s.clients && Paging(sched) && Timely(sched, i, sched.clock(i))
    requires s.clients[c].phase.Fresh? && s.clients[c].request.Idle? && s.clients[c].name in s.st.names
    requires forall k :: k in s.page ==> s.page[k].expires < sched.clock(i) + CURSOR_TTL
    requires cfg.caps.maxItems > 0 ==> |s.st.books[s.st.names[s.clients[c].name]].cards| <= sched.limit(i) + cfg.caps.maxItems
    ensures var id := s.st.names[s.clients[c].name];
      var b := s.st.books[id];
      && Then(cfg, s, c, sched, i, s1, j) && Onward(cfg, s1, c, id, sched, j, rest, b)
      && (|rest| < |b.cards| || rest == [])
  {
    var id := s.st.names[s.clients[c].name];
    var b := s.st.books[id];
    ListingCount(cfg.hash, b);
    FirstPage(cfg, s, c, sched.limit(i), sched.clock(i));
    s1, j, rest := PageThenPrune(cfg, s, c, sched, i, id, StateListing(b), b);
  }

  /** A first sync with nobody writing completes: at any page limits, however the journal is pruned
      between its requests and whatever else is cached, no request is refused, and after at most one
      request for each card (at least one) the client has exactly the server's cards under the head's
      token. It asks that the client comes back before its cursor expires, that what a page leaves is
      within the item cap, and that no cursor was stored at a later time. */
  lemma PagedFirstSyncCompletes(cfg: Config, s: State, c: ClientId, sched: Schedule, i: nat)
    requires Bounded(cfg, s) && c in s.clients && Paging(sched)
    requires s.clients[c].phase.Fresh? && s.clients[c].request.Idle? && s.clients[c].name in s.st.names
    requires forall j, k :: i <= j && k == j + 1 ==> sched.clock(j) <= sched.clock(k) <= sched.clock(j) + 120_000_000_000
    requires forall k :: k in s.page ==> s.page[k].expires < sched.clock(i) + 120_000_000_000
    requires cfg.caps.maxItems > 0 ==> |s.st.books[s.st.names[s.clients[c].name]].cards| <= sched.limit(i) + cfg.caps.maxItems
    ensures exists n: nat ::
      && (n == 1 || 1 < n <= |s.st.books[s.st.names[s.clients[c].name]].cards|)
      && NeverRefused(cfg, s, c, sched, i, n)
      && AtHead(Rounds(cfg, s, c, sched, i, n), c, s.st.names[s.clients[c].name], s.st.books[s.st.names[s.clients[c].name]])
  {
    var s1, j, rest := FirstThenPrune(cfg, s, c, sched, i);
    var id := s.st.names[s.clients[c].name];
    var n := PagesToTheEnd(cfg, s1, c, sched, j, id, rest, s.st.books[id]);
    var m := CompletesLater(cfg, s, c, sched, i, s1, j, n, id, s.st.books[id]);
    assert Completes(cfg, s, c, sched, i, m, id, s.st.books[id]);
  }
}
