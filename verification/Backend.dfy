/** Optimistic concurrency of PUT and DELETE: a precondition is checked on a read and again in the
    transaction that commits (internal/carddav/backend.go, internal/server/handler.go; section
    13.1 of RFC 9110). */
module Backend {
  import opened Basics
  import opened History
  import opened VCardText
  import opened CardStore
  import opened StoreInvariant
  import opened Stores

  /** An If-Match or If-None-Match header. How its value is compared with an ETag is the WebDAV
      library's; None is a header it cannot read. */
  datatype Header = Header(isSet: bool, isWildcard: bool, matchETag: ETag -> Option<bool>)

  datatype PutOptions = PutOptions(ifNoneMatch: Header, ifMatch: Header)

  datatype HttpError = HttpBadRequest | HttpPreconditionFailed | HttpNotFound | HttpUidConflict | HttpInternal

  datatype Check = Pass | Fail(error: HttpError)

  function CheckConditional(existing: Option<Card>, opts: Option<PutOptions>): Check {
    if opts.None? then Pass
    else
      var none, must := opts.value.ifNoneMatch, opts.value.ifMatch;
      var first :=
        if none.isSet && existing.Some? then
          var ok := none.matchETag(existing.value.etag);
          if ok.None? then Fail(HttpBadRequest)
          else if none.isWildcard || ok.value then Fail(HttpPreconditionFailed)
          else Pass
        else Pass;
      if first.Fail? then first
      else if !must.isSet then Pass
      else if existing.None? then Fail(HttpPreconditionFailed)
      else
        var ok := must.matchETag(existing.value.etag);
        if ok.None? then Fail(HttpBadRequest) else if !ok.value then Fail(HttpPreconditionFailed) else Pass
  }

  function PutCardConditionsFromRequest(existing: Option<Card>, opts: Option<PutOptions>): Option<PutConditions> {
    if opts.None? then None
    else
      var absent := opts.value.ifNoneMatch.isSet && opts.value.ifNoneMatch.isWildcard;
      var tagged := opts.value.ifMatch.isSet && existing.Some?;
      if !absent && !tagged then None
      else Some(PutConditions(absent, if tagged then Some(existing.value.etag) else None))
  }

  function HttpOf(e: StoreError): HttpError {
    match e
    case PreconditionFailed => HttpPreconditionFailed
    case NotFound => HttpNotFound
    case UniqueViolation => HttpUidConflict
    case _ => HttpInternal
  }

  function Lookup(st: StoreState, id: BookId, href: Href): Option<Card> {
    if id in st.books then Get(st.books[id].cards, href) else None
  }

  function EtagsAt(st: StoreState, id: BookId): Replica { if id in st.books then Etags(st.books[id].cards) else map[] }

  /** GetAddressbookByUsernameSlug */
  function BookNamed(st: StoreState, name: Name): Option<BookId> {
    if name in st.names && st.names[name] in st.books then Some(st.names[name]) else None
  }

  function OnBook(w: Write, id: BookId): Write { w.(input := w.input.(book := id)) }

  /** What a request sees before its transaction, each at its own time: the lookup of its addressbook,
      the card it reads there, and for a DELETE the second lookup. Anything may happen in between. */
  datatype Seen = Seen(lookup: StoreState, read: StoreState, resolve: StoreState)

  /** A PUT from the read of the card on. */
  function PutOnBook(hash: Hash, atRead: StoreState, atCommit: StoreState, w: Write, opts: Option<PutOptions>): (StoreState, Result<bool, HttpError>) {
    var existing := Lookup(atRead, w.input.book, w.input.href);
    var check := CheckConditional(existing, opts);
    if check.Fail? then (atCommit, Err(check.error))
    else
      var r := Put(hash, atCommit, w, PutCardConditionsFromRequest(existing, opts));
      (r.0, if r.1.Ok? then Ok(r.1.value.created) else Err(HttpOf(r.1.error)))
  }

  function PutRequest(hash: Hash, seen: Seen, atCommit: StoreState, name: Name, w: Write, opts: Option<PutOptions>)
    : (StoreState, Result<bool, HttpError>)
  {
    match BookNamed(seen.lookup, name)
    case None => (atCommit, Err(HttpNotFound))
    case Some(id) => PutOnBook(hash, seen.read, atCommit, OnBook(w, id), opts)
  }

  /** What If-Match was matched against. */
  function MatchedTag(seen: Seen, name: Name, href: Href, ifMatch: Header): Result<Option<ETag>, HttpError> {
    if !ifMatch.isSet then Ok(None)
    else
      match BookNamed(seen.lookup, name)
      case None => Err(HttpNotFound)
      case Some(id) =>
        var card := Lookup(seen.read, id, href);
        if card.None? then Err(HttpNotFound)
        else
          var ok := ifMatch.matchETag(card.value.etag);
          if ok.None? then Err(HttpBadRequest) else if !ok.value then Err(HttpPreconditionFailed) else Ok(Some(card.value.etag))
  }

  /** A DELETE looks its addressbook up a second time. */
  function DeleteRequest(seen: Seen, atCommit: StoreState, name: Name, href: Href, ifMatch: Header, now: int): (StoreState, Result<(), HttpError>) {
    match MatchedTag(seen, name, href, ifMatch)
    case Err(e) => (atCommit, Err(e))
    case Ok(matched) =>
      match BookNamed(seen.resolve, name)
      case None => (atCommit, Err(HttpNotFound))
      case Some(id) =>
        var r := Delete(atCommit, id, href, matched, now);
        (r.0, if r.1.Ok? then Ok(()) else Err(HttpOf(r.1.error)))
  }

  /** The answer to a PUT: whether it created the card, and the card read again after the commit,
      which by then may be another writer's or gone. */
  function PutAnswer(r: Result<bool, HttpError>, atAnswer: StoreState, id: BookId, href: Href): Result<(bool, Card), HttpError> {
    if r.Err? then Err(r.error)
    else
      match Lookup(atAnswer, id, href)
      case None => Err(HttpNotFound)
      case Some(card) => Ok((r.value, card))
  }

  /** With nothing in between, a PUT that commits is answered with the card it stored. */
  lemma PutAnswersItsCard(hash: Hash, atRead: StoreState, atCommit: StoreState, w: Write, opts: Option<PutOptions>)
    requires PutOnBook(hash, atRead, atCommit, w, opts).1.Ok?
    ensures var r := PutOnBook(hash, atRead, atCommit, w, opts);
      var canonical := Canonicalize(w.input.vcard);
      PutAnswer(r.1, r.0, w.input.book, w.input.href) ==
        Ok((Lookup(atCommit, w.input.book, w.input.href).None?, Card(w.input.uid, hash(canonical), canonical)))
  {}

  /** putAddressObject with nothing in between. */
  method PutAddressObject(store: Store, name: Name, w: Write, opts: Option<PutOptions>) returns (r: Result<(bool, Card), HttpError>)
    requires store.Valid()
    modifies store
    ensures store.Valid()
    ensures var now := old(store.State());
      var sent := PutRequest(store.hash, Seen(now, now, now), now, name, w, opts);
      && store.State() == sent.0
      && r == match BookNamed(now, name)
              case None => Err(HttpNotFound)
              case Some(id) => PutAnswer(sent.1, sent.0, id, w.input.href)
  {
    var id := BookNamed(store.State(), name);
    if id.None? { return Err(HttpNotFound); }
    var existing := Lookup(store.State(), id.value, w.input.href);
    var check := CheckConditional(existing, opts);
    if check.Fail? { return Err(check.error); }
    var res := store.PutCard(OnBook(w, id.value), PutCardConditionsFromRequest(existing, opts));
    if res.Err? { return Err(HttpOf(res.error)); }
    var stored := Lookup(store.State(), id.value, w.input.href);
    if stored.None? { return Err(HttpNotFound); }
    return Ok((res.value.created, stored.value));
  }

  /** handleCardDelete with nothing in between. */
  method DeleteAddressObject(store: Store, name: Name, href: Href, ifMatch: Header, now: int) returns (r: Result<(), HttpError>)
    requires store.Valid()
    modifies store
    ensures store.Valid()
    ensures var before := old(store.State());
      (store.State(), r) == DeleteRequest(Seen(before, before, before), before, name, href, ifMatch, now)
  {
    var matched: Option<ETag> := None;
    if ifMatch.isSet {
      var looked := BookNamed(store.State(), name);
      if looked.None? { return Err(HttpNotFound); }
      var existing := Lookup(store.State(), looked.value, href);
      if existing.None? { return Err(HttpNotFound); }
      var ok := ifMatch.matchETag(existing.value.etag);
      if ok.None? { return Err(HttpBadRequest); }
      if !ok.value { return Err(HttpPreconditionFailed); }
      matched := Some(existing.value.etag);
    }
    var id := BookNamed(store.State(), name);
    if id.None? { return Err(HttpNotFound); }
    var res := store.DeleteCard(id.value, href, matched, now);
    return if res.Ok? then Ok(()) else Err(HttpOf(res.error));
  }

  /** A PUT that commits, commits in a state that meets its preconditions, however old its lookup and
      its read: with If-Match the card still has the ETag that was matched, with If-None-Match: * it
      is absent. */
  lemma PutCommitsOnlyWhatItSaw(hash: Hash, seen: Seen, atCommit: StoreState, name: Name, w: Write, opts: PutOptions)
    requires PutRequest(hash, seen, atCommit, name, w, Some(opts)).1.Ok?
    ensures BookNamed(seen.lookup, name).Some?
    ensures var id := BookNamed(seen.lookup, name).value;
      var was, now := Lookup(seen.read, id, w.input.href), Lookup(atCommit, id, w.input.href);
      && (opts.ifMatch.isSet ==>
            && was.Some? && opts.ifMatch.matchETag(was.value.etag) == Some(true)
            && now.Some? && now.value.etag == was.value.etag)
      && (opts.ifNoneMatch.isSet && opts.ifNoneMatch.isWildcard ==> was.None? && now.None?)
  {}

  // ---- When a request commits, and what it answers otherwise ----

  /** If-None-Match is met: no header, no card, or a list without the card's ETag. */
  ghost predicate NoneMatchPasses(header: Header, card: Option<Card>) {
    !header.isSet || card.None? || (!header.isWildcard && header.matchETag(card.value.etag) == Some(false))
  }

  /** If-Match is met: no header, or a card whose ETag it names. */
  ghost predicate MatchPasses(header: Header, card: Option<Card>) {
    !header.isSet || (card.Some? && header.matchETag(card.value.etag) == Some(true))
  }

  /** The header cannot be read. That shows only against a card. */
  ghost predicate Unreadable(header: Header, card: Option<Card>) {
    header.isSet && card.Some? && header.matchETag(card.value.etag) == None
  }

  ghost predicate ReadPasses(opts: PutOptions, was: Option<Card>) {
    NoneMatchPasses(opts.ifNoneMatch, was) && MatchPasses(opts.ifMatch, was)
  }

  /** If-None-Match is looked at first. */
  ghost predicate ReadIsBad(opts: PutOptions, was: Option<Card>) {
    Unreadable(opts.ifNoneMatch, was) || (NoneMatchPasses(opts.ifNoneMatch, was) && Unreadable(opts.ifMatch, was))
  }

  /** What has passed on the read and still fails at commit: the wildcard on a card that has come, If-Match
      on a card that has gone or changed. */
  ghost predicate CommitRefuses(opts: PutOptions, was: Option<Card>, now: Option<Card>) {
    || (opts.ifNoneMatch.isSet && opts.ifNoneMatch.isWildcard && now.Some?)
    || (opts.ifMatch.isSet && (now.None? || was.None? || now.value.etag != was.value.etag))
  }

  lemma ConditionsSayCommit(st: StoreState, id: BookId, href: Href, was: Option<Card>, opts: PutOptions)
    requires ReadPasses(opts, was)
    ensures MayPut(st, id, href, PutCardConditionsFromRequest(was, Some(opts))) <==> !CommitRefuses(opts, was, Lookup(st, id, href))
  {}

  lemma CheckDecides(was: Option<Card>, opts: PutOptions)
    ensures var c := CheckConditional(was, Some(opts));
      && (c == Pass <==> ReadPasses(opts, was))
      && (c == Fail(HttpBadRequest) <==> ReadIsBad(opts, was))
      && (c == Fail(HttpPreconditionFailed) <==> !ReadPasses(opts, was) && !ReadIsBad(opts, was))
  {}

  /** A PUT under a name that was found, in full: the answer and when it is given. */
  lemma PutOnBookDecides(hash: Hash, atRead: StoreState, atCommit: StoreState, w: Write, opts: PutOptions)
    requires w.input.book != 0
    ensures var r := PutOnBook(hash, atRead, atCommit, w, Some(opts));
      var id, href, uid := w.input.book, w.input.href, w.input.uid;
      var was, now := Lookup(atRead, id, href), Lookup(atCommit, id, href);
      var met := ReadPasses(opts, was) && href != "" && uid != "" && !CommitRefuses(opts, was, now);
      var free := met && id in atCommit.books && !UidElsewhere(atCommit, id, href, uid);
      && r.1 != Err(HttpNotFound)
      && (r.1 == Err(HttpBadRequest) <==> ReadIsBad(opts, was))
      && (r.1 == Err(HttpPreconditionFailed) <==>
            (|| (!ReadPasses(opts, was) && !ReadIsBad(opts, was))
             || (ReadPasses(opts, was) && href != "" && uid != "" && CommitRefuses(opts, was, now))))
      && (r.1 == Err(HttpUidConflict) <==> met && UidElsewhere(atCommit, id, href, uid))
      && (r.1.Ok? <==> free && atCommit.books[id].revision < MAX_INT64 && w.journalOk)
  {
    var was := Lookup(atRead, w.input.book, w.input.href);
    CheckDecides(was, opts);
    if ReadPasses(opts, was) {
      ConditionsSayCommit(atCommit, w.input.book, w.input.href, was, opts);
      PutDecides(hash, atCommit, w, PutCardConditionsFromRequest(was, Some(opts)));
    }
  }

  /** What such a PUT leaves: everything, or the card with its canonical bytes, one revision and one row
      more; and the answer says whether the card is new. */
  lemma PutOnBookLeaves(hash: Hash, atRead: StoreState, atCommit: StoreState, w: Write, opts: Option<PutOptions>)
    ensures var r := PutOnBook(hash, atRead, atCommit, w, opts);
      && (r.1.Err? ==> r.0 == atCommit)
      && (r.1.Ok? ==>
            && w.input.book in atCommit.books
            && r.1.value == Lookup(atCommit, w.input.book, w.input.href).None?
            && var b := atCommit.books[w.input.book];
               var etag := hash(Canonicalize(w.input.vcard));
               var row := Row(Change(b.revision + 1, w.input.href, etag, false), w.now);
               r.0 == StoreState(atCommit.names,
                 atCommit.books[w.input.book := Book(b.revision + 1, b.cards[w.input.href := Card(w.input.uid, etag, Canonicalize(w.input.vcard))],
                                                     b.journal + [row], b.hist + [row], b.meta)], atCommit.nextId))
  {
    PutLeaves(hash, atCommit, w, PutCardConditionsFromRequest(Lookup(atRead, w.input.book, w.input.href), opts));
  }

  /** A PUT with nothing in between: it commits if and only if the addressbook is found, both headers are met
      by the card that is there or not, href and UID are given, the UID is free, and the database lets the
      row in. Otherwise each answer has its own condition, and nothing changes. */
  lemma PutAloneDecides(hash: Hash, st: StoreState, name: Name, w: Write, opts: PutOptions)
    requires StoreOk(hash, st)
    ensures var r := PutRequest(hash, Seen(st, st, st), st, name, w, Some(opts));
      var href, uid := w.input.href, w.input.uid;
      && (r.1 == Err(HttpNotFound) <==> !(name in st.names && st.names[name] in st.books))
      && (r.1.Err? ==> r.0 == st)
      && (name in st.names && st.names[name] in st.books ==>
            var id := st.names[name];
            var card := Lookup(st, id, href);
            var passes := NoneMatchPasses(opts.ifNoneMatch, card) && MatchPasses(opts.ifMatch, card);
            && (r.1 == Err(HttpBadRequest) <==>
                  Unreadable(opts.ifNoneMatch, card) || (NoneMatchPasses(opts.ifNoneMatch, card) && Unreadable(opts.ifMatch, card)))
            && (r.1 == Err(HttpPreconditionFailed) <==> !passes && r.1 != Err(HttpBadRequest))
            && (r.1 == Err(HttpUidConflict) <==> passes && href != "" && uid != "" && UidElsewhere(st, id, href, uid))
            && (r.1.Ok? <==>
                  && passes && href != "" && uid != "" && !UidElsewhere(st, id, href, uid)
                  && st.books[id].revision < MAX_INT64 && w.journalOk))
  {
    if name in st.names && st.names[name] in st.books {
      var id := st.names[name];
      PutOnBookDecides(hash, st, st, OnBook(w, id), opts);
      PutOnBookLeaves(hash, st, st, OnBook(w, id), Some(opts));
    }
  }

  /** A PUT without headers is one whose headers are not set. */
  lemma NoHeadersIsUnset(hash: Hash, seen: Seen, atCommit: StoreState, name: Name, w: Write, opts: PutOptions)
    requires !opts.ifNoneMatch.isSet && !opts.ifMatch.isSet
    ensures PutRequest(hash, seen, atCommit, name, w, None) == PutRequest(hash, seen, atCommit, name, w, Some(opts))
  {}

  /** The card that If-Match was matched against. */
  function CardRead(seen: Seen, name: Name, href: Href): Option<Card> {
    var looked := BookNamed(seen.lookup, name);
    if looked.Some? then Lookup(seen.read, looked.value, href) else None
  }

  lemma TagDecides(seen: Seen, name: Name, href: Href, ifMatch: Header)
    ensures var m := MatchedTag(seen, name, href, ifMatch);
      var was := CardRead(seen, name, href);
      && (m == Err(HttpNotFound) <==> ifMatch.isSet && was.None?)
      && (m == Err(HttpBadRequest) <==> Unreadable(ifMatch, was))
      && (m == Err(HttpPreconditionFailed) <==> ifMatch.isSet && was.Some? && ifMatch.matchETag(was.value.etag) == Some(false))
      && (m.Ok? <==> MatchPasses(ifMatch, was))
      && (m.Ok? ==> m.value == if ifMatch.isSet then Some(was.value.etag) else None)
  {}

  lemma NamedIsNotZero(hash: Hash, st: StoreState, name: Name)
    requires StoreOk(hash, st)
    ensures BookNamed(st, name) != Some(0)
  {}

  /** A DELETE past the read. */
  lemma TaggedDeleteDecides(seen: Seen, atCommit: StoreState, name: Name, href: Href, ifMatch: Header, now: int)
    requires BookNamed(seen.resolve, name) != Some(0) && MatchedTag(seen, name, href, ifMatch).Ok?
    ensures var r := DeleteRequest(seen, atCommit, name, href, ifMatch, now);
      var tag := MatchedTag(seen, name, href, ifMatch).value;
      var target := BookNamed(seen.resolve, name);
      var card := if target.Some? then Lookup(atCommit, target.value, href) else None;
      var same := tag.Some? ==> card.Some? && card.value.etag == tag.value;
      && (r.1 == Err(HttpNotFound) <==> target.None? || (href != "" && card.None?))
      && r.1 != Err(HttpBadRequest)
      && (r.1 == Err(HttpPreconditionFailed) <==> href != "" && card.Some? && !same)
      && (r.1.Ok? <==> href != "" && card.Some? && same && atCommit.books[target.value].revision < MAX_INT64)
  {
    var target := BookNamed(seen.resolve, name);
    if target.Some? { DeleteDecides(atCommit, target.value, href, MatchedTag(seen, name, href, ifMatch).value, now); }
  }

  /** A DELETE, in full, whatever happened between its two lookups, its read and its commit. */
  lemma DeleteRequestDecides(hash: Hash, seen: Seen, atCommit: StoreState, name: Name, href: Href, ifMatch: Header, now: int)
    requires StoreOk(hash, seen.resolve)
    ensures var r := DeleteRequest(seen, atCommit, name, href, ifMatch, now);
      var was := CardRead(seen, name, href);
      var passes := MatchPasses(ifMatch, was);
      var target := BookNamed(seen.resolve, name);
      var card := if target.Some? then Lookup(atCommit, target.value, href) else None;
      var same := ifMatch.isSet ==> was.Some? && card.Some? && card.value.etag == was.value.etag;
      && (r.1 == Err(HttpNotFound) <==>
            (ifMatch.isSet && was.None?) || (passes && (target.None? || (href != "" && card.None?))))
      && (r.1 == Err(HttpBadRequest) <==> Unreadable(ifMatch, was))
      && (r.1 == Err(HttpPreconditionFailed) <==>
            (ifMatch.isSet && was.Some? && ifMatch.matchETag(was.value.etag) == Some(false)) || (passes && href != "" && card.Some? && !same))
      && (r.1.Ok? <==> passes && href != "" && card.Some? && same && atCommit.books[target.value].revision < MAX_INT64)
  {
    TagDecides(seen, name, href, ifMatch);
    NamedIsNotZero(hash, seen.resolve, name);
    if MatchedTag(seen, name, href, ifMatch).Ok? { TaggedDeleteDecides(seen, atCommit, name, href, ifMatch, now); }
  }

  /** What a DELETE leaves: everything, or the card gone, every other card as it was, and one row more, a
      deletion with the card's last ETag. */
  lemma DeleteRequestLeaves(seen: Seen, atCommit: StoreState, name: Name, href: Href, ifMatch: Header, now: int)
    ensures var r := DeleteRequest(seen, atCommit, name, href, ifMatch, now);
      && (r.1.Err? ==> r.0 == atCommit)
      && (r.1.Ok? ==>
            && name in seen.resolve.names && CardThere(atCommit, seen.resolve.names[name], href)
            && var id := seen.resolve.names[name];
               var b := atCommit.books[id];
               var row := Row(Change(b.revision + 1, href, b.cards[href].etag, true), now);
               r.0 == StoreState(atCommit.names,
                 atCommit.books[id := Book(b.revision + 1, b.cards - {href}, b.journal + [row], b.hist + [row], b.meta)], atCommit.nextId))
  {
    var target := BookNamed(seen.resolve, name);
    if target.Some? && MatchedTag(seen, name, href, ifMatch).Ok? {
      DeleteLeaves(atCommit, target.value, href, MatchedTag(seen, name, href, ifMatch).value, now);
    }
  }

  /** A DELETE with nothing in between. */
  lemma DeleteAloneDecides(hash: Hash, st: StoreState, name: Name, href: Href, ifMatch: Header, now: int)
    requires StoreOk(hash, st)
    ensures var r := DeleteRequest(Seen(st, st, st), st, name, href, ifMatch, now);
      var found := name in st.names && st.names[name] in st.books;
      var there := found && href in st.books[st.names[name]].cards;
      var ok := if there && ifMatch.isSet then ifMatch.matchETag(st.books[st.names[name]].cards[href].etag) else Some(true);
      && (r.1 == Err(HttpNotFound) <==> !found || (!there && (href != "" || ifMatch.isSet)))
      && (r.1 == Err(HttpBadRequest) <==> there && ok == None)
      && (r.1 == Err(HttpPreconditionFailed) <==> there && ok == Some(false))
      && (r.1.Ok? <==> there && ok == Some(true) && href != "" && st.books[st.names[name]].revision < MAX_INT64)
  {
    DeleteRequestDecides(hash, Seen(st, st, st), st, name, href, ifMatch, now);
  }

  /** If-None-Match with a listed ETag is looked at on the read only: a PUT that passes there goes on
      as an unconditional one, whatever the card has become. */
  lemma ListedIfNoneMatchIsNotRechecked(hash: Hash, atRead: StoreState, atCommit: StoreState, w: Write, opts: PutOptions)
    requires opts.ifNoneMatch.isSet && !opts.ifNoneMatch.isWildcard && !opts.ifMatch.isSet
    ensures var was := Lookup(atRead, w.input.book, w.input.href);
      var sent := PutOnBook(hash, atRead, atCommit, w, Some(opts));
      if was.None? || opts.ifNoneMatch.matchETag(was.value.etag) == Some(false)
      then sent == PutOnBook(hash, atCommit, atCommit, w, None)
      else sent.0 == atCommit && sent.1.Err?
  {}

  /** No current ETag, or none that the header lists. */
  predicate MeetsIfNoneMatch(header: Header, current: Option<Card>) {
    header.isSet && current.Some? ==> !header.isWildcard && header.matchETag(current.value.etag) != Some(true)
  }

  /** What makes the check at commit enough: no header, the wildcard, an If-Match beside it, or a
      list that names no ETag which a card can have. */
  ghost predicate NoneMatchIsSafe(hash: Hash, opts: PutOptions) {
    var header := opts.ifNoneMatch;
    || !header.isSet || header.isWildcard || opts.ifMatch.isSet
    || forall vcard :: header.matchETag(hash(Canonicalize(vcard))) != Some(true)
  }

  /** Where a PUT under a name goes, as it was looked up. */
  function Target(seen: Seen, name: Name): BookId {
    var id := BookNamed(seen.lookup, name);
    if id.Some? then id.value else 0
  }

  lemma SafeNoneMatchHolds(hash: Hash, seen: Seen, atCommit: StoreState, name: Name, w: Write, opts: PutOptions)
    requires StoreOk(hash, atCommit) && NoneMatchIsSafe(hash, opts)
    requires PutRequest(hash, seen, atCommit, name, w, Some(opts)).1.Ok?
    ensures MeetsIfNoneMatch(opts.ifNoneMatch, Lookup(atCommit, Target(seen, name), w.input.href))
  {
    var id := Target(seen, name);
    if id in atCommit.books && w.input.href in atCommit.books[id].cards {
      var current := atCommit.books[id].cards[w.input.href];
      assert current.etag == hash(Canonicalize(current.vcard));
    }
  }

  const LISTED_NAME := Name("user", "book")

  function ListedWrite(vcard: string): Write { Write(PutInput(1, "card", "uid", vcard), 0, true) }

  /** Where a listed If-None-Match fails: the card is absent when the PUT looks, another writer puts
      it with the listed ETag, and the PUT overwrites it. */
  lemma ListedIfNoneMatchCanOverwrite(hash: Hash, opts: PutOptions, vcard: string)
    requires opts.ifNoneMatch.isSet && !opts.ifNoneMatch.isWildcard && !opts.ifMatch.isSet
    requires opts.ifNoneMatch.matchETag(hash(Canonicalize(vcard))) == Some(true)
    ensures var atRead := Run(hash, EmptyStore(), [OpCreate(LISTED_NAME, "")]);
      var atCommit := Run(hash, atRead, [OpPut(ListedWrite(vcard), None)]);
      var seen := Seen(atRead, atRead, atRead);
      && PutRequest(hash, seen, atCommit, LISTED_NAME, ListedWrite(vcard), Some(opts)).1.Ok?
      && !MeetsIfNoneMatch(opts.ifNoneMatch, Lookup(atCommit, Target(seen, LISTED_NAME), "card"))
  {
    var w := ListedWrite(vcard);
    var create, put := OpCreate(LISTED_NAME, ""), OpPut(w, None);
    var atRead := Run(hash, EmptyStore(), [create]);
    RunOne(hash, EmptyStore(), create);
    UnconditionalPut(hash, atRead, w);
    var atCommit := Run(hash, atRead, [put]);
    RunOne(hash, atRead, put);
    UnconditionalPut(hash, atCommit, w);
  }

  /** A run of the store with the moments of one request in it. */
  ghost predicate InOneRun(hash: Hash, seen: Seen, atCommit: StoreState, toLookup: seq<Op>, toRead: seq<Op>, toCommit: seq<Op>) {
    && seen.lookup == Run(hash, EmptyStore(), toLookup)
    && seen.read == Run(hash, seen.lookup, toRead)
    && atCommit == Run(hash, seen.read, toCommit)
  }

  ghost predicate KeepsNoneMatch(hash: Hash, opts: PutOptions, seen: Seen, atCommit: StoreState, name: Name, w: Write) {
    PutRequest(hash, seen, atCommit, name, w, Some(opts)).1.Ok? ==>
      MeetsIfNoneMatch(opts.ifNoneMatch, Lookup(atCommit, Target(seen, name), w.input.href))
  }

  /** In every run every committed PUT meets its If-None-Match where it commits, if and only if the
      request is one of the safe kinds. */
  lemma IfNoneMatchHoldsIff(hash: Hash, opts: PutOptions)
    ensures (forall seen, atCommit, toLookup, toRead, toCommit, name, w ::
               InOneRun(hash, seen, atCommit, toLookup, toRead, toCommit) ==> KeepsNoneMatch(hash, opts, seen, atCommit, name, w))
            <==> NoneMatchIsSafe(hash, opts)
  {
    if NoneMatchIsSafe(hash, opts) {
      forall seen, atCommit, toLookup, toRead, toCommit, name, w | InOneRun(hash, seen, atCommit, toLookup, toRead, toCommit)
        ensures KeepsNoneMatch(hash, opts, seen, atCommit, name, w)
      {
        RunsKeep(hash, EmptyStore(), toLookup);
        RunsKeep(hash, seen.lookup, toRead);
        RunsKeep(hash, seen.read, toCommit);
        if PutRequest(hash, seen, atCommit, name, w, Some(opts)).1.Ok? { SafeNoneMatchHolds(hash, seen, atCommit, name, w, opts); }
      }
    } else {
      var vcard :| opts.ifNoneMatch.matchETag(hash(Canonicalize(vcard))) == Some(true);
      var atRead := Run(hash, EmptyStore(), [OpCreate(LISTED_NAME, "")]);
      var seen, put := Seen(atRead, atRead, atRead), [OpPut(ListedWrite(vcard), None)];
      ListedIfNoneMatchCanOverwrite(hash, opts, vcard);
      assert InOneRun(hash, seen, Run(hash, atRead, put), [OpCreate(LISTED_NAME, "")], [], put);
      assert !KeepsNoneMatch(hash, opts, seen, Run(hash, atRead, put), LISTED_NAME, ListedWrite(vcard));
    }
  }

  /** A DELETE with If-Match that commits, commits on a card that has the ETag that was matched, in the
      addressbook that its second lookup found. */
  lemma DeleteCommitsOnlyWhatItSaw(seen: Seen, atCommit: StoreState, name: Name, href: Href, ifMatch: Header, now: int)
    requires ifMatch.isSet && DeleteRequest(seen, atCommit, name, href, ifMatch, now).1.Ok?
    ensures BookNamed(seen.lookup, name).Some? && BookNamed(seen.resolve, name).Some?
    ensures var was := Lookup(seen.read, BookNamed(seen.lookup, name).value, href);
      var card := Lookup(atCommit, BookNamed(seen.resolve, name).value, href);
      && was.Some? && ifMatch.matchETag(was.value.etag) == Some(true)
      && card.Some? && card.value.etag == was.value.etag
  {}

  /** The second lookup finds another addressbook only if the first one was dropped in between. */
  lemma OtherBookOnlyAfterDrop(hash: Hash, st: StoreState, name: Name, ops: seq<Op>)
    requires StoreOk(hash, st) && BookNamed(st, name).Some? && BookNamed(Run(hash, st, ops), name) != BookNamed(st, name)
    ensures BookNamed(st, name).value !in Run(hash, st, ops).books
  {
    RunsKeep(hash, st, ops);
  }

  // ---- Two writers on one ETag ----

  /** A writer that commits only if the card has ETag e. */
  predicate ReliesOn(op: Op, id: BookId, href: Href, e: ETag) {
    match op
    case OpPut(w, cond) => w.input.book == id && w.input.href == href && cond.Some? && cond.value.expected == Some(e)
    case OpDelete(book, h, expected, _) => book == id && h == href && expected == Some(e)
    case _ => false
  }

  predicate Commits(hash: Hash, st: StoreState, op: Op) {
    match op
    case OpPut(w, cond) => Put(hash, st, w, cond).1.Ok?
    case OpDelete(book, href, expected, now) => Delete(st, book, href, expected, now).1.Ok?
    case _ => false
  }

  lemma ReliantCommitSawTag(hash: Hash, st: StoreState, op: Op, id: BookId, href: Href, e: ETag)
    requires ReliesOn(op, id, href, e) && Commits(hash, st, op)
    ensures Lookup(st, id, href).Some? && Lookup(st, id, href).value.etag == e
  {}

  ghost predicate PutsTag(c: Change, href: Href, e: ETag) { c.href == href && !c.deleted && c.etag == e }

  /** An ETag that was not there at i and is there at j was put in between. */
  lemma {:induction false} TagWasPut(log: seq<Change>, i: nat, j: nat, href: Href, e: ETag)
    requires i <= j <= |log|
    requires Get(StateAt(log, i), href) != Some(e) && Get(StateAt(log, j), href) == Some(e)
    ensures exists n :: i <= n < j && PutsTag(log[n], href, e)
    decreases j - i
  {
    assert log[..j][..j - 1] == log[..j - 1];
    if !PutsTag(log[j - 1], href, e) { TagWasPut(log, i, j - 1, href, e); }
  }

  lemma TagRestored(a: Book, z: Book, href: Href, e: ETag)
    requires Etags(a.cards) == StateAt(Log(a), |a.hist|) && Etags(z.cards) == StateAt(Log(z), |z.hist|) && a.hist <= z.hist
    requires Get(Etags(a.cards), href) != Some(e) && Get(Etags(z.cards), href) == Some(e)
    ensures exists n :: |a.hist| <= n < |z.hist| && PutsTag(z.hist[n].change, href, e)
  {
    var log, log' := Log(a), Log(z);
    assert log'[..|log|] == log == log[..|log|];
    TagWasPut(log', |log|, |log'|, href, e);
    var n :| |log| <= n < |log'| && PutsTag(log'[n], href, e);
    assert PutsTag(z.hist[n].change, href, e);
  }

  /** Two conditional transactions on one ETag. */
  lemma NoLostUpdateBetweenOps(hash: Hash, st: StoreState, first: Op, between: seq<Op>, second: Op, id: BookId, href: Href, e: ETag)
    requires StoreOk(hash, st) && ReliesOn(first, id, href, e) && ReliesOn(second, id, href, e)
    requires Commits(hash, st, first) && id in Apply(hash, st, first).books
    requires Get(Etags(Apply(hash, st, first).books[id].cards), href) != Some(e)
    requires Commits(hash, Run(hash, Apply(hash, st, first), between), second)
    ensures var after, later := Apply(hash, st, first), Run(hash, Apply(hash, st, first), between);
      && id in later.books && after.books[id].hist <= later.books[id].hist
      && exists n :: |after.books[id].hist| <= n < |later.books[id].hist| && PutsTag(later.books[id].hist[n].change, href, e)
  {
    var after := Apply(hash, st, first);
    var later := Run(hash, after, between);
    ApplyKeeps(hash, st, first);
    RunsKeep(hash, after, between);
    ReliantCommitSawTag(hash, later, second, id, href, e);
    TagRestored(after.books[id], later.books[id], href, e);
  }

  /** A PUT or a DELETE, with what it saw before its transaction. */
  datatype Writer =
    | PutWriter(seen: Seen, name: Name, w: Write, opts: PutOptions)
    | DeleteWriter(seen: Seen, name: Name, href: Href, ifMatch: Header, now: int)

  /** With If-Match, on this card, and the read saw this ETag. */
  predicate MatchedOn(wr: Writer, id: BookId, href: Href, e: ETag) {
    && Get(EtagsAt(wr.seen.read, Target(wr.seen, wr.name)), href) == Some(e)
    && match wr
       case PutWriter(seen, name, w, opts) => opts.ifMatch.isSet && w.input.href == href && BookNamed(seen.lookup, name) == Some(id)
       case DeleteWriter(seen, name, h, ifMatch, _) => ifMatch.isSet && h == href && BookNamed(seen.resolve, name) == Some(id)
  }

  /** The state it leaves, and whether it committed. */
  function Act(hash: Hash, atCommit: StoreState, wr: Writer): (StoreState, bool) {
    match wr
    case PutWriter(seen, name, w, opts) => var r := PutRequest(hash, seen, atCommit, name, w, Some(opts)); (r.0, r.1.Ok?)
    case DeleteWriter(seen, name, h, ifMatch, now) => var r := DeleteRequest(seen, atCommit, name, h, ifMatch, now); (r.0, r.1.Ok?)
  }

  lemma ActReliesOnSeen(hash: Hash, atCommit: StoreState, wr: Writer, id: BookId, href: Href, e: ETag) returns (op: Op)
    requires MatchedOn(wr, id, href, e) && Act(hash, atCommit, wr).1
    ensures ReliesOn(op, id, href, e) && Commits(hash, atCommit, op) && Act(hash, atCommit, wr).0 == Apply(hash, atCommit, op)
  {
    match wr
    case PutWriter(seen, name, w, opts) =>
      op := OpPut(OnBook(w, id), PutCardConditionsFromRequest(Lookup(seen.read, id, href), Some(opts)));
    case DeleteWriter(seen, name, h, ifMatch, now) => op := OpDelete(id, h, Some(e), now);
  }

  /** No lost update: two requests with If-Match whose reads, whenever they were, saw the same ETag.
      When the first changes the ETag and the second still commits later, some commit in between
      put exactly that ETag back. */
  lemma NoLostUpdate(hash: Hash, st: StoreState, first: Writer, between: seq<Op>, second: Writer, id: BookId, href: Href, e: ETag)
    requires StoreOk(hash, st) && MatchedOn(first, id, href, e) && MatchedOn(second, id, href, e)
    requires Act(hash, st, first).1
    requires id in Act(hash, st, first).0.books && Get(EtagsAt(Act(hash, st, first).0, id), href) != Some(e)
    requires Act(hash, Run(hash, Act(hash, st, first).0, between), second).1
    ensures var after := Act(hash, st, first).0;
      var later := Run(hash, after, between);
      && id in later.books && after.books[id].hist <= later.books[id].hist
      && exists n :: |after.books[id].hist| <= n < |later.books[id].hist| && PutsTag(later.books[id].hist[n].change, href, e)
  {
    var op1 := ActReliesOnSeen(hash, st, first, id, href, e);
    var op2 := ActReliesOnSeen(hash, Run(hash, Act(hash, st, first).0, between), second, id, href, e);
    NoLostUpdateBetweenOps(hash, st, op1, between, op2, id, href, e);
  }
}
