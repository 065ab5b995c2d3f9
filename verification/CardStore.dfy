/** The card store as values (internal/db/store.go): addressbooks with a revision, their cards, and
    a change journal that is pruned. One transaction is one function from state to state. */
module CardStore {
  import opened Basics
  import opened History
  import opened VCardText

  type BookId = nat

  // A row of card_changes.
  datatype Row = Row(change: Change, changedAt: int)

  datatype Card = Card(uid: string, etag: ETag, vcard: string)

  datatype Metadata = Metadata(displayName: string, description: string, color: string)

  /** An addressbook. `journal` holds the rows not yet pruned; `hist` is a history variable that
      holds every row ever written, and no operation reads it. */
  datatype Book = Book(revision: nat, cards: map<Href, Card>, journal: seq<Row>, hist: seq<Row>, meta: Metadata)

  datatype Name = Name(username: string, slug: string)

  datatype StoreState = StoreState(names: map<Name, BookId>, books: map<BookId, Book>, nextId: nat)

  // The hash of the canonical bytes, given (ComputeETagHex).
  type Hash = string -> ETag

  datatype PutInput = PutInput(book: BookId, href: Href, uid: string, vcard: string)

  datatype PutConditions = PutConditions(requireAbsent: bool, expected: Option<ETag>)

  datatype PutResult = PutResult(created: bool, etag: ETag, revision: nat)

  datatype StoreError =
    | FieldRequired | NotFound | PreconditionFailed | UniqueViolation | NoSuchBook
    | RevisionExhausted | JournalRefused | IdsExhausted

  /** One put as its transaction meets it: the clock reading, and whether the journal insert is
      let through (the BeforeCardChangeInsert hook, or the database). */
  datatype Write = Write(input: PutInput, now: int, journalOk: bool)

  function Changes(rows: seq<Row>): (cs: seq<Change>)
    ensures |cs| == |rows| && forall i :: 0 <= i < |rows| ==> cs[i] == rows[i].change
  {
    seq(|rows|, i requires 0 <= i < |rows| => rows[i].change)
  }

  function Etags(cards: map<Href, Card>): Replica { map h | h in cards :: cards[h].etag }

  // ---- Puts and deletes ----

  predicate ConditionsHold(cond: Option<PutConditions>, current: Option<Card>) {
    cond.None? || (
      && (cond.value.requireAbsent ==> current.None?)
      && (cond.value.expected.Some? ==> current.Some? && current.value.etag == cond.value.expected.value))
  }

  predicate UidTaken(cards: map<Href, Card>, href: Href, uid: string) {
    exists h :: h in cards && h != href && cards[h].uid == uid
  }

  function AddRow(b: Book, row: Row): Book {
    b.(journal := b.journal + [row], hist := b.hist + [row])
  }

  /** The statements of putCardConn on one book, up to the one that fails: an error may leave the
      book half written, which is what the rollback is for. */
  function PutInBook(hash: Hash, b: Book, w: Write, cond: Option<PutConditions>): (Book, Result<PutResult, StoreError>) {
    var canonical := Canonicalize(w.input.vcard);
    var etag := hash(canonical);
    if !ConditionsHold(cond, Get(b.cards, w.input.href)) then (b, Err(PreconditionFailed))
    else if UidTaken(b.cards, w.input.href, w.input.uid) then (b, Err(UniqueViolation))
    else
      var written := b.(cards := b.cards[w.input.href := Card(w.input.uid, etag, canonical)]);
      if b.revision >= MAX_INT64 then (written, Err(RevisionExhausted))
      else
        var bumped := written.(revision := b.revision + 1);
        if !w.journalOk then (bumped, Err(JournalRefused))
        else
          (AddRow(bumped, Row(Change(b.revision + 1, w.input.href, etag, false), w.now)),
           Ok(PutResult(w.input.href !in b.cards, etag, b.revision + 1)))
  }

  function PutConn(hash: Hash, st: StoreState, w: Write, cond: Option<PutConditions>): (StoreState, Result<PutResult, StoreError>) {
    if w.input.book == 0 || w.input.href == "" || w.input.uid == "" then (st, Err(FieldRequired))
    else if w.input.book !in st.books then
      (st, Err(if ConditionsHold(cond, None) then NoSuchBook else PreconditionFailed))
    else
      var r := PutInBook(hash, st.books[w.input.book], w, cond);
      (st.(books := st.books[w.input.book := r.0]), r.1)
  }

  /** withImmediateTx: commit on success, restore on failure. */
  function Atomically<T>(before: StoreState, r: (StoreState, Result<T, StoreError>)): (StoreState, Result<T, StoreError>) {
    if r.1.Ok? then r else (before, r.1)
  }

  function Put(hash: Hash, st: StoreState, w: Write, cond: Option<PutConditions>): (StoreState, Result<PutResult, StoreError>) {
    Atomically(st, PutConn(hash, st, w, cond))
  }

  function PutEach(hash: Hash, st: StoreState, ws: seq<Write>): (StoreState, Result<seq<PutResult>, StoreError>) {
    if ws == [] then (st, Ok([])) else PutNext(hash, PutEach(hash, st, ws[..|ws| - 1]), ws[|ws| - 1])
  }

  /** One more put of a batch, unless an earlier one failed. */
  function PutNext(hash: Hash, before: (StoreState, Result<seq<PutResult>, StoreError>), w: Write): (StoreState, Result<seq<PutResult>, StoreError>) {
    if before.1.Err? then before
    else
      var r := PutConn(hash, before.0, w, None);
      (r.0, if r.1.Ok? then Ok(before.1.value + [r.1.value]) else Err(r.1.error))
  }

  /** PutCardsAtomic */
  function PutBatch(hash: Hash, st: StoreState, ws: seq<Write>): (StoreState, Result<seq<PutResult>, StoreError>) {
    Atomically(st, PutEach(hash, st, ws))
  }

  function DeleteInBook(b: Book, href: Href, expected: Option<ETag>, now: int): (Book, Result<(), StoreError>) {
    if href !in b.cards then (b, Err(NotFound))
    else
      var etag := b.cards[href].etag;
      if expected.Some? && etag != expected.value then (b, Err(PreconditionFailed))
      else
        var removed := b.(cards := b.cards - {href});
        if b.revision >= MAX_INT64 then (removed, Err(RevisionExhausted))
        else
          (AddRow(removed.(revision := b.revision + 1), Row(Change(b.revision + 1, href, etag, true), now)), Ok(()))
  }

  function Delete(st: StoreState, book: BookId, href: Href, expected: Option<ETag>, now: int): (StoreState, Result<(), StoreError>) {
    if book == 0 || href == "" then (st, Err(FieldRequired))
    else if book !in st.books then (st, Err(NotFound))
    else
      var r := DeleteInBook(st.books[book], href, expected, now);
      Atomically(st, (st.(books := st.books[book := r.0]), r.1))
  }

  // ---- Prunes ----

  function Keep(rows: seq<Row>, p: Row -> bool): seq<Row> {
    if rows == [] then []
    else if p(rows[0]) then [rows[0]] + Keep(rows[1..], p)
    else Keep(rows[1..], p)
  }

  function NotOlderThan(cutoff: int): Row -> bool { (r: Row) => r.changedAt >= cutoff }

  function NewerThan(revision: int): Row -> bool { (r: Row) => r.change.revision > revision }

  function PruneBookByAge(b: Book, cutoff: int): Book {
    b.(journal := Keep(b.journal, NotOlderThan(cutoff)))
  }

  function PruneBookByMaxRevisions(b: Book, keep: int): Book {
    b.(journal := Keep(b.journal, NewerThan(b.revision - keep)))
  }

  function PruneByAge(books: map<BookId, Book>, cutoff: int): map<BookId, Book> {
    map id | id in books :: PruneBookByAge(books[id], cutoff)
  }

  function PruneByMaxRevisions(books: map<BookId, Book>, keep: int): map<BookId, Book> {
    if keep <= 0 then books else map id | id in books :: PruneBookByMaxRevisions(books[id], keep)
  }

  // ---- Addressbooks ----

  function CreateBook(st: StoreState, name: Name, displayName: string): (StoreState, Result<BookId, StoreError>) {
    if name in st.names then (st, Err(UniqueViolation))
    else if st.nextId > MAX_INT64 then (st, Err(IdsExhausted))
    else
      (StoreState(st.names[name := st.nextId],
                  st.books[st.nextId := Book(0, map[], [], [], Metadata(displayName, "", ""))],
                  st.nextId + 1),
       Ok(st.nextId))
  }

  function DropBook(st: StoreState, name: Name): (StoreState, Result<(), StoreError>) {
    if name !in st.names then (st, Err(NotFound))
    else (StoreState(st.names - {name}, st.books - {st.names[name]}, st.nextId), Ok(()))
  }

  function UpdateMetadata(m: Metadata, displayName: Option<string>, description: Option<string>, color: Option<string>): Metadata {
    Metadata(if displayName.Some? then displayName.value else m.displayName,
             if description.Some? then description.value else m.description,
             if color.Some? then color.value else m.color)
  }

  function UpdateBookMetadata(st: StoreState, name: Name, displayName: Option<string>, description: Option<string>, color: Option<string>)
    : (StoreState, Result<(), StoreError>)
  {
    if displayName.None? && description.None? && color.None? then (st, Ok(()))
    else if name !in st.names || st.names[name] !in st.books then (st, Err(NotFound))
    else
      var b := st.books[st.names[name]];
      (st.(books := st.books[st.names[name] := b.(meta := UpdateMetadata(b.meta, displayName, description, color))]), Ok(()))
  }

  // ---- Any writer's step ----

  datatype Op =
    | OpPut(w: Write, cond: Option<PutConditions>)
    | OpBatch(ws: seq<Write>)
    | OpDelete(book: BookId, href: Href, expected: Option<ETag>, now: int)
    | OpPruneByAge(cutoff: int)
    | OpPruneByMaxRevisions(keep: int)
    | OpCreate(name: Name, displayName: string)
    | OpDrop(name: Name)
    | OpMetadata(name: Name, newDisplayName: Option<string>, description: Option<string>, color: Option<string>)

  function Apply(hash: Hash, st: StoreState, op: Op): StoreState {
    match op
    case OpPut(w, cond) => Put(hash, st, w, cond).0
    case OpBatch(ws) => PutBatch(hash, st, ws).0
    case OpDelete(book, href, expected, now) => Delete(st, book, href, expected, now).0
    case OpPruneByAge(cutoff) => st.(books := PruneByAge(st.books, cutoff))
    case OpPruneByMaxRevisions(keep) => st.(books := PruneByMaxRevisions(st.books, keep))
    case OpCreate(name, displayName) => CreateBook(st, name, displayName).0
    case OpDrop(name) => DropBook(st, name).0
    case OpMetadata(name, d, e, c) => UpdateBookMetadata(st, name, d, e, c).0
  }

  // ---- Reads ----

  /** COALESCE(MAX(revision), 0) over the retained rows of one href. */
  function MaxRevision(journal: seq<Row>, href: Href): nat {
    if journal == [] then 0
    else
      var last := journal[|journal| - 1].change;
      Max(if last.href == href then last.revision else 0, MaxRevision(journal[..|journal| - 1], href))
  }

  function CardState(b: Book, href: Href): Change
    requires href in b.cards
  {
    Change(MaxRevision(b.journal, href), href, b.cards[href].etag, false)
  }

  /** ORDER BY revision ASC, href ASC */
  predicate StateBefore(a: Change, b: Change) {
    a.revision < b.revision || (a.revision == b.revision && Less(a.href, b.href))
  }

  ghost predicate OnePerHref(states: set<Change>) {
    forall a, b :: a in states && b in states && a.href == b.href ==> a == b
  }

  predicate IsLeast(states: set<Change>, m: Change) {
    m in states && forall c :: c in states && c != m ==> StateBefore(m, c)
  }

  lemma StateOrderIsTotal(a: Change, b: Change, c: Change)
    ensures a.href == b.href || StateBefore(a, b) || StateBefore(b, a)
    ensures StateBefore(a, b) ==> !StateBefore(b, a)
    ensures StateBefore(a, b) && StateBefore(b, c) ==> StateBefore(a, c)
  {
    LessIsTotal(a.href, b.href);
    LessIsIrreflexive(a.href);
    if Less(a.href, b.href) && Less(b.href, a.href) { LessIsTransitive(a.href, b.href, a.href); }
    if Less(a.href, b.href) && Less(b.href, c.href) { LessIsTransitive(a.href, b.href, c.href); }
  }

  lemma {:induction false} LeastExists(states: set<Change>)
    requires OnePerHref(states) && states != {}
    ensures exists m :: IsLeast(states, m)
  {
    var c :| c in states;
    if states == {c} {
      assert IsLeast(states, c);
    } else {
      LeastExists(states - {c});
      var rest :| IsLeast(states - {c}, rest);
      var m := if StateBefore(c, rest) then c else rest;
      forall d | d in states && d != m ensures StateBefore(m, d) {
        StateOrderIsTotal(c, rest, d);
      }
      assert IsLeast(states, m);
    }
  }

  lemma LeastIsUnique(states: set<Change>, m: Change, n: Change)
    requires IsLeast(states, m) && IsLeast(states, n)
    ensures m == n
  {
    if m != n { StateOrderIsTotal(m, n, m); }
  }

  ghost function Least(states: set<Change>): (m: Change)
    requires OnePerHref(states) && states != {}
    ensures IsLeast(states, m)
  {
    LeastExists(states);
    var m :| IsLeast(states, m);
    m
  }

  ghost predicate IsSortedListing(states: set<Change>, items: seq<Change>) {
    && (forall i, j :: 0 <= i < j < |items| ==> StateBefore(items[i], items[j]))
    && (forall c :: c in states <==> c in items)
  }

  ghost function SortStates(states: set<Change>): seq<Change>
    requires OnePerHref(states)
  {
    if states == {} then [] else [Least(states)] + SortStates(states - {Least(states)})
  }

  lemma {:induction false} SortStatesLists(states: set<Change>)
    requires OnePerHref(states)
    ensures IsSortedListing(states, SortStates(states))
  {
    if states != {} {
      SortStatesLists(states - {Least(states)});
      assert forall c :: c in states <==> c == Least(states) || c in states - {Least(states)};
    }
  }

  function StatesOf(b: Book): set<Change> { set h | h in b.cards :: CardState(b, h) }

  /** The rows ListCurrentCardSyncStates returns: every live card once, ordered. */
  ghost function StateListing(b: Book): (items: seq<Change>)
    ensures IsSortedListing(StatesOf(b), items)
  {
    SortStatesLists(StatesOf(b));
    SortStates(StatesOf(b))
  }

  /** The order of the listing, spelled out. */
  lemma ListingIsOrdered(b: Book, i: nat, j: nat)
    requires i < j < |StateListing(b)|
    ensures var x, y := StateListing(b)[i], StateListing(b)[j];
      x.revision < y.revision || (x.revision == y.revision && Less(x.href, y.href))
  {}

  function ChangesSince(journal: seq<Row>, after: nat): seq<Change> {
    Changes(Keep(journal, NewerThan(after)))
  }
}
