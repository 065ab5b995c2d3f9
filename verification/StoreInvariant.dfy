/** What every transaction of the store keeps (internal/db/store.go): the change history explains
    the cards, the retained journal is a suffix of it, hrefs and UIDs are unique. */
module StoreInvariant {
  import opened Basics
  import opened History
  import opened VCardText
  import opened CardStore

  ghost predicate Suffix<T>(a: seq<T>, b: seq<T>) {
    |a| <= |b| && a == b[|b| - |a|..]
  }

  /** Clock readings never decrease in revision order. The code does not guarantee it: a delete
      reads the clock before it holds the write lock. */
  ghost predicate TimeOrdered(rows: seq<Row>) {
    forall i, j :: 0 <= i < j < |rows| ==> rows[i].changedAt <= rows[j].changedAt
  }

  ghost predicate Increasing(rows: seq<Row>) {
    forall i, j :: 0 <= i < j < |rows| ==> rows[i].change.revision < rows[j].change.revision
  }

  predicate RowOf(r: Row, hist: seq<Row>) {
    1 <= r.change.revision <= |hist| && hist[r.change.revision - 1] == r
  }

  /** Some rows of the history, in order. */
  ghost predicate Retained(journal: seq<Row>, hist: seq<Row>) {
    Increasing(journal) && forall r :: r in journal ==> RowOf(r, hist)
  }

  ghost predicate UidsUnique(cards: map<Href, Card>) {
    forall g, h :: g in cards && h in cards && cards[g].uid == cards[h].uid ==> g == h
  }

  ghost predicate CardsHashed(hash: Hash, cards: map<Href, Card>) {
    forall h :: h in cards ==> cards[h].etag == hash(cards[h].vcard) && Canonicalize(cards[h].vcard) == cards[h].vcard
  }

  function Log(b: Book): seq<Change> { Changes(b.hist) }

  ghost predicate BookOk(hash: Hash, b: Book) {
    && b.revision == |b.hist| <= MAX_INT64
    && Numbered(Log(b))
    && Etags(b.cards) == StateAt(Log(b), |b.hist|)
    && UidsUnique(b.cards)
    && CardsHashed(hash, b.cards)
    && Retained(b.journal, b.hist)
    && (TimeOrdered(b.hist) ==> Suffix(b.journal, b.hist))
  }

  ghost predicate StoreOk(hash: Hash, st: StoreState) {
    && 1 <= st.nextId <= MAX_INT64 + 1
    && (forall n :: n in st.names ==> st.names[n] in st.books)
    && (forall n, m :: n in st.names && m in st.names && st.names[n] == st.names[m] ==> n == m)
    && (forall id :: id in st.books ==> 1 <= id < st.nextId && BookOk(hash, st.books[id]))
  }

  /** The number of revisions whose rows are gone, when the journal is a suffix of the history. */
  function Floor(b: Book): int { |b.hist| - |b.journal| }

  /** How a state may follow another: a book that stays only gains history, never gets pruned rows
      back and keeps its name, and a book that is new has an id never handed out before. */
  ghost predicate Follows(st: StoreState, st': StoreState) {
    st.nextId <= st'.nextId && BooksFollow(st, st') && NamesFollow(st, st')
  }

  ghost predicate BooksFollow(st: StoreState, st': StoreState) {
    forall id :: id in st'.books ==>
      if id in st.books then st.books[id].hist <= st'.books[id].hist && Floor(st.books[id]) <= Floor(st'.books[id])
      else st.nextId <= id
  }

  ghost predicate NamesFollow(st: StoreState, st': StoreState) {
    forall n :: n in st.names && st.names[n] in st'.books ==> n in st'.names && st'.names[n] == st.names[n]
  }

  // ---- Pruning ----

  lemma {:induction false} KeepConcat(a: seq<Row>, b: seq<Row>, p: Row -> bool)
    ensures Keep(a + b, p) == Keep(a, p) + Keep(b, p)
  {
    if a == [] {
      assert a + b == b;
    } else {
      assert (a + b)[1..] == a[1..] + b;
      KeepConcat(a[1..], b, p);
    }
  }

  lemma {:induction false} KeepMembers(rows: seq<Row>, p: Row -> bool)
    ensures |Keep(rows, p)| <= |rows|
    ensures forall r :: r in Keep(rows, p) <==> r in rows && p(r)
  {
    if rows != [] {
      KeepMembers(rows[1..], p);
      assert rows == [rows[0]] + rows[1..];
    }
  }

  lemma {:induction false} KeepAll(rows: seq<Row>, p: Row -> bool)
    requires forall r :: r in rows ==> p(r)
    ensures Keep(rows, p) == rows
  {
    if rows != [] { KeepAll(rows[1..], p); }
  }

  /** Filtering leaves a suffix exactly when every row behind a kept row is kept. */
  lemma KeepLeavesSuffixIff(rows: seq<Row>, p: Row -> bool)
    ensures Suffix(Keep(rows, p), rows) <==> forall i, j :: 0 <= i < j < |rows| && p(rows[i]) ==> p(rows[j])
  {
    if forall i, j :: 0 <= i < j < |rows| && p(rows[i]) ==> p(rows[j]) {
      KeepUpwardClosed(rows, p);
    }
    if Suffix(Keep(rows, p), rows) {
      SuffixIsUpwardClosed(rows, p);
    }
  }

  lemma SuffixIsUpwardClosed(rows: seq<Row>, p: Row -> bool)
    requires Suffix(Keep(rows, p), rows)
    ensures forall i, j :: 0 <= i < j < |rows| && p(rows[i]) ==> p(rows[j])
  {
    var n := |rows| - |Keep(rows, p)|;
    KeepMembers(rows, p);
    KeepMembers(rows[..n], p);
    assert Keep(rows[..n], p) == [] by { SuffixDropsPrefix(rows, p, n); }
    forall i | 0 <= i < n ensures !p(rows[i]) { assert rows[..n][i] in rows[..n]; }
    forall j | n <= j < |rows| ensures p(rows[j]) { assert rows[n..][j - n] in Keep(rows, p); }
  }

  lemma SuffixDropsPrefix(rows: seq<Row>, p: Row -> bool, n: nat)
    requires n <= |rows| && Keep(rows, p) == rows[n..]
    ensures Keep(rows[..n], p) == []
  {
    assert rows == rows[..n] + rows[n..];
    KeepConcat(rows[..n], rows[n..], p);
    KeepMembers(rows, p);
    KeepAll(rows[n..], p);
  }

  lemma {:induction false} KeepUpwardClosed(rows: seq<Row>, p: Row -> bool)
    requires forall i, j :: 0 <= i < j < |rows| && p(rows[i]) ==> p(rows[j])
    ensures Suffix(Keep(rows, p), rows)
  {
    if rows != [] {
      if p(rows[0]) {
        KeepAll(rows, p);
      } else {
        KeepUpwardClosed(rows[1..], p);
      }
    }
  }

  /** An age prune can leave a hole exactly when clock readings ran backwards. */
  lemma AgePruneLeavesSuffixIffTimeOrdered(rows: seq<Row>)
    ensures (forall cutoff: int :: Suffix(Keep(rows, NotOlderThan(cutoff)), rows)) <==> TimeOrdered(rows)
  {
    if TimeOrdered(rows) {
      forall cutoff: int ensures Suffix(Keep(rows, NotOlderThan(cutoff)), rows) {
        KeepUpwardClosed(rows, NotOlderThan(cutoff));
      }
    } else {
      var i, j :| 0 <= i < j < |rows| && rows[i].changedAt > rows[j].changedAt;
      KeepLeavesSuffixIff(rows, NotOlderThan(rows[i].changedAt));
      assert !NotOlderThan(rows[i].changedAt)(rows[j]);
    }
  }

  lemma {:induction false} KeepIncreasing(rows: seq<Row>, p: Row -> bool)
    requires Increasing(rows)
    ensures Increasing(Keep(rows, p))
  {
    if rows != [] {
      var rest := Keep(rows[1..], p);
      KeepIncreasing(rows[1..], p);
      KeepMembers(rows[1..], p);
      forall i | 0 <= i < |rest| ensures rows[0].change.revision < rest[i].change.revision {
        assert rest[i] in rest;
      }
    }
  }

  lemma KeepRetained(journal: seq<Row>, hist: seq<Row>, p: Row -> bool)
    requires Retained(journal, hist)
    ensures Retained(Keep(journal, p), hist)
  {
    KeepIncreasing(journal, p);
    KeepMembers(journal, p);
  }

  lemma {:induction false} KeepShortens(rows: seq<Row>, p: Row -> bool)
    ensures |Keep(rows, p)| <= |rows|
  {
    if rows != [] { KeepShortens(rows[1..], p); }
  }

  /** A prune that leaves an unbroken journal unbroken. */
  lemma PruneKeepsBook(hash: Hash, b: Book, p: Row -> bool)
    requires BookOk(hash, b) && (TimeOrdered(b.hist) ==> Suffix(Keep(b.journal, p), b.journal))
    ensures var b' := b.(journal := Keep(b.journal, p));
      BookOk(hash, b') && b'.hist == b.hist && Floor(b) <= Floor(b')
  {
    KeepRetained(b.journal, b.hist, p);
    KeepShortens(b.journal, p);
    if TimeOrdered(b.hist) { SuffixOfSuffix(Keep(b.journal, p), b.journal, b.hist); }
  }

  lemma SuffixOfSuffix<T>(a: seq<T>, b: seq<T>, c: seq<T>)
    requires Suffix(a, b) && Suffix(b, c)
    ensures Suffix(a, c)
  {}

  lemma JournalOfSuffixIsOrdered(b: Book)
    requires TimeOrdered(b.hist) && Suffix(b.journal, b.hist)
    ensures forall i, j :: 0 <= i < j < |b.journal| ==> b.journal[i].changedAt <= b.journal[j].changedAt
  {}

  lemma PrunesKeepBook(hash: Hash, b: Book, cutoff: int, keep: int)
    requires BookOk(hash, b)
    ensures BookOk(hash, PruneBookByAge(b, cutoff)) && PruneBookByAge(b, cutoff).hist == b.hist
    ensures BookOk(hash, PruneBookByMaxRevisions(b, keep)) && PruneBookByMaxRevisions(b, keep).hist == b.hist
    ensures Floor(b) <= Floor(PruneBookByAge(b, cutoff)) && Floor(b) <= Floor(PruneBookByMaxRevisions(b, keep))
  {
    if TimeOrdered(b.hist) {
      JournalOfSuffixIsOrdered(b);
      KeepUpwardClosed(b.journal, NotOlderThan(cutoff));
    }
    KeepUpwardClosed(b.journal, NewerThan(b.revision - keep));
    PruneKeepsBook(hash, b, NotOlderThan(cutoff));
    PruneKeepsBook(hash, b, NewerThan(b.revision - keep));
  }

  // ---- Writing ----

  /** What one committed change does to a book: one row, one revision further. */
  ghost predicate Commits(b: Book, b': Book, c: Change, now: int) {
    && c.revision == b.revision + 1 == b'.revision
    && b'.hist == b.hist + [Row(c, now)]
    && b'.journal == b.journal + [Row(c, now)]
    && b'.meta == b.meta
    && Etags(b'.cards) == Effect(Etags(b.cards), c)
    && (forall h :: h != c.href ==> Get(b'.cards, h) == Get(b.cards, h))
  }

  lemma CommitKeepsRows(b: Book, row: Row)
    requires Retained(b.journal, b.hist) && row.change.revision == |b.hist| + 1
    requires TimeOrdered(b.hist) ==> Suffix(b.journal, b.hist)
    ensures Retained(AddRow(b, row).journal, AddRow(b, row).hist)
    ensures TimeOrdered(AddRow(b, row).hist) ==> Suffix(AddRow(b, row).journal, AddRow(b, row).hist)
  {
    var journal, hist := AddRow(b, row).journal, AddRow(b, row).hist;
    forall r | r in journal ensures RowOf(r, hist) {
      if r in b.journal { assert RowOf(r, b.hist); }
    }
    forall i | 0 <= i < |b.journal| ensures b.journal[i].change.revision <= |b.hist| {
      assert b.journal[i] in b.journal;
    }
    if TimeOrdered(hist) {
      assert TimeOrdered(b.hist) by { assert forall i :: 0 <= i < |b.hist| ==> hist[i] == b.hist[i]; }
    }
  }

  lemma LogGrows(b: Book, b': Book, c: Change, now: int)
    requires b'.hist == b.hist + [Row(c, now)]
    ensures Log(b') == Log(b) + [c]
    ensures StateAt(Log(b'), |b'.hist|) == Effect(StateAt(Log(b), |b.hist|), c)
  {
    var n := |b.hist|;
    assert Log(b') == Log(b) + [c];
    assert Log(b')[..n + 1] == Log(b') && Log(b')[..n] == Log(b) == Log(b)[..n];
  }

  lemma CommitKeepsBook(hash: Hash, b: Book, b': Book, c: Change, now: int)
    requires BookOk(hash, b) && Commits(b, b', c, now) && b'.revision <= MAX_INT64
    requires UidsUnique(b'.cards) && CardsHashed(hash, b'.cards)
    ensures BookOk(hash, b')
  {
    CommitKeepsRows(b, Row(c, now));
    LogGrows(b, b', c, now);
  }

  /** A put is refused for its UID exactly when storing it would give two cards one UID. */
  lemma UidRefusalIff(cards: map<Href, Card>, href: Href, card: Card)
    requires UidsUnique(cards)
    ensures UidTaken(cards, href, card.uid) <==> !UidsUnique(cards[href := card])
  {
    var cards' := cards[href := card];
    if UidTaken(cards, href, card.uid) {
      var h :| h in cards && h != href && cards[h].uid == card.uid;
      assert cards'[h].uid == cards'[href].uid;
    }
  }

  lemma EtagsUpdate(cards: map<Href, Card>, href: Href, card: Card)
    ensures Etags(cards[href := card]) == Etags(cards)[href := card.etag]
  {}

  lemma StoreCard(hash: Hash, cards: map<Href, Card>, href: Href, uid: string, vcard: string)
    requires UidsUnique(cards) && CardsHashed(hash, cards) && !UidTaken(cards, href, uid)
    requires Canonicalize(vcard) == vcard
    ensures UidsUnique(cards[href := Card(uid, hash(vcard), vcard)])
    ensures CardsHashed(hash, cards[href := Card(uid, hash(vcard), vcard)])
  {
    var cards' := cards[href := Card(uid, hash(vcard), vcard)];
    forall g, h | g in cards' && h in cards' && cards'[g].uid == cards'[h].uid ensures g == h {}
  }

  lemma PutInBookCommits(hash: Hash, b: Book, w: Write, cond: Option<PutConditions>)
    requires BookOk(hash, b) && PutInBook(hash, b, w, cond).1.Ok?
    ensures var b' := PutInBook(hash, b, w, cond).0;
      var etag := hash(Canonicalize(w.input.vcard));
      && Commits(b, b', Change(b.revision + 1, w.input.href, etag, false), w.now)
      && BookOk(hash, b')
      && b'.cards[w.input.href] == Card(w.input.uid, etag, Canonicalize(w.input.vcard))
      && PutInBook(hash, b, w, cond).1.value == PutResult(w.input.href !in b.cards, etag, |b'.hist|)
  {
    var b' := PutInBook(hash, b, w, cond).0;
    var c := Change(b.revision + 1, w.input.href, hash(Canonicalize(w.input.vcard)), false);
    CanonicalIsIdempotent(w.input.vcard);
    StoreCard(hash, b.cards, w.input.href, w.input.uid, Canonicalize(w.input.vcard));
    EtagsUpdate(b.cards, w.input.href, b'.cards[w.input.href]);
    CommitKeepsBook(hash, b, b', c, w.now);
  }

  lemma RemoveCard(hash: Hash, cards: map<Href, Card>, href: Href)
    requires UidsUnique(cards) && CardsHashed(hash, cards)
    ensures UidsUnique(cards - {href}) && CardsHashed(hash, cards - {href})
  {}

  lemma DeleteWrites(b: Book, href: Href, expected: Option<ETag>, now: int)
    requires DeleteInBook(b, href, expected, now).1.Ok?
    ensures href in b.cards && (expected.Some? ==> b.cards[href].etag == expected.value)
    ensures Commits(b, DeleteInBook(b, href, expected, now).0, Change(b.revision + 1, href, b.cards[href].etag, true), now)
    ensures DeleteInBook(b, href, expected, now).0.cards == b.cards - {href}
    ensures b.revision < MAX_INT64
  {
    assert Etags(b.cards - {href}) == Etags(b.cards) - {href};
  }

  lemma DeleteInBookCommits(hash: Hash, b: Book, href: Href, expected: Option<ETag>, now: int)
    requires BookOk(hash, b) && DeleteInBook(b, href, expected, now).1.Ok?
    ensures href in b.cards && (expected.Some? ==> b.cards[href].etag == expected.value)
    ensures Commits(b, DeleteInBook(b, href, expected, now).0, Change(b.revision + 1, href, b.cards[href].etag, true), now)
    ensures BookOk(hash, DeleteInBook(b, href, expected, now).0)
  {
    DeleteWrites(b, href, expected, now);
    RemoveCard(hash, b.cards, href);
    CommitKeepsBook(hash, b, DeleteInBook(b, href, expected, now).0, Change(b.revision + 1, href, b.cards[href].etag, true), now);
  }

  lemma ReplaceBookFollows(st: StoreState, id: BookId, b: Book)
    requires id in st.books && st.books[id].hist <= b.hist && Floor(st.books[id]) <= Floor(b)
    ensures Follows(st, st.(books := st.books[id := b]))
  {}

  lemma ReplaceBookKeeps(hash: Hash, st: StoreState, id: BookId, b: Book)
    requires StoreOk(hash, st) && id in st.books && BookOk(hash, b)
    requires st.books[id].hist <= b.hist && Floor(st.books[id]) <= Floor(b)
    ensures StoreOk(hash, st.(books := st.books[id := b])) && Follows(st, st.(books := st.books[id := b]))
  {
    ReplaceBookFollows(st, id, b);
    var books := st.books[id := b];
    forall i | i in books ensures 1 <= i < st.nextId && BookOk(hash, books[i]) {
      if i != id { assert books[i] == st.books[i]; }
    }
  }

  lemma PutConnKeeps(hash: Hash, st: StoreState, w: Write, cond: Option<PutConditions>)
    requires StoreOk(hash, st) && PutConn(hash, st, w, cond).1.Ok?
    ensures StoreOk(hash, PutConn(hash, st, w, cond).0) && Follows(st, PutConn(hash, st, w, cond).0)
  {
    var id := w.input.book;
    PutInBookCommits(hash, st.books[id], w, cond);
    ReplaceBookKeeps(hash, st, id, PutInBook(hash, st.books[id], w, cond).0);
  }

  lemma {:induction false} PutEachKeeps(hash: Hash, st: StoreState, ws: seq<Write>)
    requires StoreOk(hash, st) && PutEach(hash, st, ws).1.Ok?
    ensures StoreOk(hash, PutEach(hash, st, ws).0) && Follows(st, PutEach(hash, st, ws).0)
  {
    if ws != [] {
      var n := |ws| - 1;
      PutEachKeeps(hash, st, ws[..n]);
      PutConnKeeps(hash, PutEach(hash, st, ws[..n]).0, ws[n], None);
    }
  }

  lemma PrunesKeep(hash: Hash, st: StoreState, st': StoreState)
    requires StoreOk(hash, st) && st'.names == st.names && st'.nextId == st.nextId && st'.books.Keys == st.books.Keys
    requires forall id :: id in st.books ==>
      BookOk(hash, st'.books[id]) && st'.books[id].hist == st.books[id].hist && Floor(st.books[id]) <= Floor(st'.books[id])
    ensures StoreOk(hash, st') && Follows(st, st')
  {}

  lemma NewBookOk(hash: Hash, displayName: string)
    ensures BookOk(hash, Book(0, map[], [], [], Metadata(displayName, "", "")))
  {
    var created := Book(0, map[], [], [], Metadata(displayName, "", ""));
    assert Etags(created.cards) == map[] && Log(created)[..0] == [];
  }

  lemma AddedBooksOk(hash: Hash, st: StoreState, b: Book)
    requires StoreOk(hash, st) && BookOk(hash, b)
    ensures var books := st.books[st.nextId := b];
      forall id :: id in books ==> 1 <= id < st.nextId + 1 && BookOk(hash, books[id])
  {}

  lemma AddedNamesOk(hash: Hash, st: StoreState, name: Name, b: Book)
    requires StoreOk(hash, st) && name !in st.names
    ensures var names, books := st.names[name := st.nextId], st.books[st.nextId := b];
      && (forall n :: n in names ==> names[n] in books)
      && (forall n, m :: n in names && m in names && names[n] == names[m] ==> n == m)
  {}

  lemma CreateFollows(st: StoreState, name: Name, displayName: string)
    requires forall id :: id in st.books ==> id < st.nextId
    ensures Follows(st, CreateBook(st, name, displayName).0)
  {}

  lemma CreateKeeps(hash: Hash, st: StoreState, name: Name, displayName: string)
    requires StoreOk(hash, st)
    ensures StoreOk(hash, CreateBook(st, name, displayName).0) && Follows(st, CreateBook(st, name, displayName).0)
  {
    CreateFollows(st, name, displayName);
    if CreateBook(st, name, displayName).1.Ok? {
      var b := Book(0, map[], [], [], Metadata(displayName, "", ""));
      NewBookOk(hash, displayName);
      AddedBooksOk(hash, st, b);
      AddedNamesOk(hash, st, name, b);
    }
  }

  lemma BatchKeeps(hash: Hash, st: StoreState, ws: seq<Write>)
    requires StoreOk(hash, st)
    ensures StoreOk(hash, PutBatch(hash, st, ws).0) && Follows(st, PutBatch(hash, st, ws).0)
  {
    if PutEach(hash, st, ws).1.Ok? { PutEachKeeps(hash, st, ws); }
  }

  lemma PutKeeps(hash: Hash, st: StoreState, w: Write, cond: Option<PutConditions>)
    requires StoreOk(hash, st)
    ensures StoreOk(hash, Put(hash, st, w, cond).0) && Follows(st, Put(hash, st, w, cond).0)
  {
    if PutConn(hash, st, w, cond).1.Ok? { PutConnKeeps(hash, st, w, cond); }
  }

  lemma DeleteKeeps(hash: Hash, st: StoreState, id: BookId, href: Href, expected: Option<ETag>, now: int)
    requires StoreOk(hash, st)
    ensures StoreOk(hash, Delete(st, id, href, expected, now).0) && Follows(st, Delete(st, id, href, expected, now).0)
  {
    if Delete(st, id, href, expected, now).1.Ok? {
      DeleteInBookCommits(hash, st.books[id], href, expected, now);
      ReplaceBookKeeps(hash, st, id, DeleteInBook(st.books[id], href, expected, now).0);
    }
  }

  lemma MetadataKeeps(hash: Hash, st: StoreState, name: Name, d: Option<string>, e: Option<string>, c: Option<string>)
    requires StoreOk(hash, st)
    ensures StoreOk(hash, UpdateBookMetadata(st, name, d, e, c).0) && Follows(st, UpdateBookMetadata(st, name, d, e, c).0)
  {
    if UpdateBookMetadata(st, name, d, e, c).1.Ok? && !(d.None? && e.None? && c.None?) {
      var id := st.names[name];
      ReplaceBookKeeps(hash, st, id, UpdateBookMetadata(st, name, d, e, c).0.books[id]);
    }
  }

  lemma DropKeeps(hash: Hash, st: StoreState, name: Name)
    requires StoreOk(hash, st)
    ensures StoreOk(hash, DropBook(st, name).0) && Follows(st, DropBook(st, name).0)
  {}

  lemma PruneOpsKeep(hash: Hash, st: StoreState, cutoff: int, keep: int)
    requires StoreOk(hash, st)
    ensures StoreOk(hash, Apply(hash, st, OpPruneByAge(cutoff))) && Follows(st, Apply(hash, st, OpPruneByAge(cutoff)))
    ensures StoreOk(hash, Apply(hash, st, OpPruneByMaxRevisions(keep))) && Follows(st, Apply(hash, st, OpPruneByMaxRevisions(keep)))
  {
    forall id | id in st.books { PrunesKeepBook(hash, st.books[id], cutoff, keep); }
    PrunesKeep(hash, st, Apply(hash, st, OpPruneByAge(cutoff)));
    if keep > 0 { PrunesKeep(hash, st, Apply(hash, st, OpPruneByMaxRevisions(keep))); }
  }

  /** Every writer's step keeps the invariant, whether it commits, fails or prunes. */
  lemma ApplyKeeps(hash: Hash, st: StoreState, op: Op)
    requires StoreOk(hash, st)
    ensures StoreOk(hash, Apply(hash, st, op)) && Follows(st, Apply(hash, st, op))
  {
    match op
    case OpPut(w, cond) => PutKeeps(hash, st, w, cond);
    case OpBatch(ws) => BatchKeeps(hash, st, ws);
    case OpDelete(book, href, expected, now) => DeleteKeeps(hash, st, book, href, expected, now);
    case OpPruneByAge(cutoff) => PruneOpsKeep(hash, st, cutoff, 0);
    case OpPruneByMaxRevisions(keep) => PruneOpsKeep(hash, st, 0, keep);
    case OpCreate(name, displayName) => CreateKeeps(hash, st, name, displayName);
    case OpDrop(name) => DropKeeps(hash, st, name);
    case OpMetadata(name, d, e, c) => MetadataKeeps(hash, st, name, d, e, c);
  }

  function EmptyStore(): StoreState { StoreState(map[], map[], 1) }

  ghost function Run(hash: Hash, st: StoreState, ops: seq<Op>): StoreState {
    if ops == [] then st else Apply(hash, Run(hash, st, ops[..|ops| - 1]), ops[|ops| - 1])
  }

  lemma RunOne(hash: Hash, st: StoreState, op: Op)
    ensures Run(hash, st, [op]) == Apply(hash, st, op)
  {
    var ops := [op];
    assert ops[..|ops| - 1] == [];
  }

  /** Every state the store can reach from empty. */
  lemma {:induction false} RunsKeep(hash: Hash, st: StoreState, ops: seq<Op>)
    requires StoreOk(hash, st)
    ensures StoreOk(hash, Run(hash, st, ops)) && Follows(st, Run(hash, st, ops))
  {
    if ops != [] {
      var n := |ops| - 1;
      RunsKeep(hash, st, ops[..n]);
      ApplyKeeps(hash, Run(hash, st, ops[..n]), ops[n]);
    }
  }

  // ---- Consequences ----

  ghost predicate CardThere(st: StoreState, id: BookId, href: Href) { id in st.books && href in st.books[id].cards }

  /** The ETag is the one expected, if one is. */
  ghost predicate TagIs(st: StoreState, id: BookId, href: Href, expected: Option<ETag>) {
    expected.Some? ==> CardThere(st, id, href) && st.books[id].cards[href].etag == expected.value
  }

  ghost predicate MayPut(st: StoreState, id: BookId, href: Href, cond: Option<PutConditions>) {
    cond.Some? ==> (cond.value.requireAbsent ==> !CardThere(st, id, href)) && TagIs(st, id, href, cond.value.expected)
  }

  ghost predicate UidElsewhere(st: StoreState, id: BookId, href: Href, uid: string) {
    exists h :: CardThere(st, id, h) && h != href && st.books[id].cards[h].uid == uid
  }

  lemma UidElsewhereIsTaken(st: StoreState, id: BookId, href: Href, uid: string)
    ensures UidElsewhere(st, id, href, uid) <==> id in st.books && UidTaken(st.books[id].cards, href, uid)
  {
    if id in st.books && UidTaken(st.books[id].cards, href, uid) {
      var h :| h in st.books[id].cards && h != href && st.books[id].cards[h].uid == uid;
      assert CardThere(st, id, h);
    }
  }

  /** When a put commits, and what it answers otherwise. */
  lemma PutDecides(hash: Hash, st: StoreState, w: Write, cond: Option<PutConditions>)
    ensures var r := Put(hash, st, w, cond);
      var id, href, uid := w.input.book, w.input.href, w.input.uid;
      var known := id != 0 && href != "" && uid != "";
      var met := known && MayPut(st, id, href, cond);
      var free := met && id in st.books && !UidElsewhere(st, id, href, uid);
      && (r.1 == Err(FieldRequired) <==> !known)
      && (r.1 == Err(PreconditionFailed) <==> known && !MayPut(st, id, href, cond))
      && (r.1 == Err(NoSuchBook) <==> met && id !in st.books)
      && (r.1 == Err(UniqueViolation) <==> met && UidElsewhere(st, id, href, uid))
      && (r.1 == Err(RevisionExhausted) <==> free && st.books[id].revision >= MAX_INT64)
      && (r.1 == Err(JournalRefused) <==> free && st.books[id].revision < MAX_INT64 && !w.journalOk)
      && (r.1.Ok? <==> free && st.books[id].revision < MAX_INT64 && w.journalOk)
  {
    UidElsewhereIsTaken(st, w.input.book, w.input.href, w.input.uid);
  }

  /** What a put leaves: everything as it was, or one card, one revision and one row more. */
  lemma PutLeaves(hash: Hash, st: StoreState, w: Write, cond: Option<PutConditions>)
    ensures var r := Put(hash, st, w, cond);
      && (r.1.Err? ==> r.0 == st)
      && (r.1.Ok? ==>
            && w.input.book in st.books
            && var b, href := st.books[w.input.book], w.input.href;
               var etag := hash(Canonicalize(w.input.vcard));
               var row := Row(Change(b.revision + 1, href, etag, false), w.now);
               && r.1.value == PutResult(!CardThere(st, w.input.book, href), etag, b.revision + 1)
               && r.0 == StoreState(st.names,
                    st.books[w.input.book := Book(b.revision + 1, b.cards[href := Card(w.input.uid, etag, Canonicalize(w.input.vcard))],
                                                  b.journal + [row], b.hist + [row], b.meta)], st.nextId))
  {}

  /** When a delete commits, and what it answers otherwise. */
  lemma DeleteDecides(st: StoreState, id: BookId, href: Href, expected: Option<ETag>, now: int)
    ensures var r := Delete(st, id, href, expected, now);
      var there := id != 0 && href != "" && CardThere(st, id, href);
      && (r.1 == Err(FieldRequired) <==> id == 0 || href == "")
      && (r.1 == Err(NotFound) <==> id != 0 && href != "" && !CardThere(st, id, href))
      && (r.1 == Err(PreconditionFailed) <==> there && !TagIs(st, id, href, expected))
      && (r.1 == Err(RevisionExhausted) <==> there && TagIs(st, id, href, expected) && st.books[id].revision >= MAX_INT64)
      && (r.1.Ok? <==> there && TagIs(st, id, href, expected) && st.books[id].revision < MAX_INT64)
  {}

  /** What a delete leaves: everything as it was, or one card less, and one revision and one row more. */
  lemma DeleteLeaves(st: StoreState, id: BookId, href: Href, expected: Option<ETag>, now: int)
    ensures var r := Delete(st, id, href, expected, now);
      && (r.1.Err? ==> r.0 == st)
      && (r.1.Ok? ==>
            && CardThere(st, id, href)
            && var b := st.books[id];
               var row := Row(Change(b.revision + 1, href, b.cards[href].etag, true), now);
               r.0 == StoreState(st.names,
                 st.books[id := Book(b.revision + 1, b.cards - {href}, b.journal + [row], b.hist + [row], b.meta)], st.nextId))
  {}

  /** A batch is its puts in turn, all or nothing. */
  lemma BatchIsPutsInTurn(hash: Hash, st: StoreState, ws: seq<Write>, w: Write)
    ensures PutBatch(hash, st, []) == (st, Ok([]))
    ensures var before := PutBatch(hash, st, ws);
      var last := Put(hash, before.0, w, None);
      PutBatch(hash, st, ws + [w]) ==
        if before.1.Err? then before
        else if last.1.Err? then (st, Err(last.1.error))
        else (last.0, Ok(before.1.value + [last.1.value]))
  {
    assert (ws + [w])[..|ws|] == ws;
  }

  /** A prune by age touches nothing but the journals, and keeps of them, in order, exactly the rows that
      are not older than the cutoff. */
  lemma AgePruneDecides(hash: Hash, st: StoreState, cutoff: int, id: BookId)
    requires id in st.books && Increasing(st.books[id].journal)
    ensures var st' := Apply(hash, st, OpPruneByAge(cutoff));
      && st'.names == st.names && st'.nextId == st.nextId && st'.books.Keys == st.books.Keys
      && st'.books[id] == st.books[id].(journal := st'.books[id].journal) && Increasing(st'.books[id].journal)
      && (forall r :: r in st'.books[id].journal <==> r in st.books[id].journal && r.changedAt >= cutoff)
  {
    KeepMembers(st.books[id].journal, NotOlderThan(cutoff));
    KeepIncreasing(st.books[id].journal, NotOlderThan(cutoff));
  }

  lemma NewerRows(journal: seq<Row>, after: int)
    requires Increasing(journal)
    ensures Increasing(Keep(journal, NewerThan(after)))
    ensures forall r :: r in Keep(journal, NewerThan(after)) <==> r in journal && r.change.revision > after
  {
    KeepMembers(journal, NewerThan(after));
    KeepIncreasing(journal, NewerThan(after));
  }

  /** The same of a prune by revisions; one to zero or fewer revisions does nothing. */
  lemma RevisionPruneDecides(hash: Hash, st: StoreState, keep: int, id: BookId)
    requires id in st.books && Increasing(st.books[id].journal)
    ensures var st' := Apply(hash, st, OpPruneByMaxRevisions(keep));
      && st'.names == st.names && st'.nextId == st.nextId && st'.books.Keys == st.books.Keys
      && (keep <= 0 ==> st' == st)
      && (keep > 0 ==>
            && st'.books[id] == st.books[id].(journal := st'.books[id].journal) && Increasing(st'.books[id].journal)
            && forall r :: r in st'.books[id].journal <==> r in st.books[id].journal && r.change.revision > st.books[id].revision - keep)
  {
    var b := st.books[id];
    if keep > 0 { NewerRows(b.journal, b.revision - keep); }
  }

  /** Creating and dropping an addressbook, in full. */
  lemma CreateAndDropDecide(st: StoreState, name: Name, displayName: string)
    ensures var r := CreateBook(st, name, displayName);
      && (r.1 == Err(UniqueViolation) <==> name in st.names)
      && (r.1.Ok? <==> name !in st.names && st.nextId <= MAX_INT64)
      && (r.1.Err? ==> r.0 == st)
      && (r.1.Ok? ==>
            && r.1.value == st.nextId && r.0.nextId == st.nextId + 1
            && r.0.names == st.names[name := st.nextId]
            && r.0.books == st.books[st.nextId := Book(0, map[], [], [], Metadata(displayName, "", ""))])
    ensures var r := DropBook(st, name);
      && (r.1.Ok? <==> name in st.names) && (r.1.Err? ==> r == (st, Err(NotFound)))
      && (r.1.Ok? ==>
            && r.0.nextId == st.nextId && name !in r.0.names && st.names[name] !in r.0.books
            && (forall n :: n != name ==> Get(r.0.names, n) == Get(st.names, n))
            && (forall id :: id != st.names[name] ==> Get(r.0.books, id) == Get(st.books, id)))
  {}

  /** A book after an unconditional put of a card whose UID is free. */
  function WithPut(hash: Hash, b: Book, w: Write): Book {
    var canonical := Canonicalize(w.input.vcard);
    var card := Card(w.input.uid, hash(canonical), canonical);
    AddRow(b.(cards := b.cards[w.input.href := card], revision := b.revision + 1),
           Row(Change(b.revision + 1, w.input.href, card.etag, false), w.now))
  }

  lemma UnconditionalPut(hash: Hash, st: StoreState, w: Write)
    requires w.input.book != 0 && w.input.book in st.books && w.input.href != "" && w.input.uid != "" && w.journalOk
    requires st.books[w.input.book].revision < MAX_INT64
    requires !UidTaken(st.books[w.input.book].cards, w.input.href, w.input.uid)
    ensures var b := st.books[w.input.book];
      && Put(hash, st, w, None).1.Ok?
      && Put(hash, st, w, None).0 == st.(books := st.books[w.input.book := WithPut(hash, b, w)])
  {}

  /** The inputs of a batch that name one book, with their results, in input order. */
  function PutsTo(id: BookId, ws: seq<Write>, out: seq<PutResult>): seq<(Write, PutResult)>
    requires |out| == |ws|
  {
    if ws == [] then []
    else
      var n := |ws| - 1;
      PutsTo(id, ws[..n], out[..n]) + (if ws[n].input.book == id then [(ws[n], out[n])] else [])
  }

  /** A batch that names one book puts all its inputs there. */
  lemma {:induction false} PutsToOne(id: BookId, ws: seq<Write>, out: seq<PutResult>)
    requires |out| == |ws| && forall w :: w in ws ==> w.input.book == id
    ensures |PutsTo(id, ws, out)| == |ws| && forall i :: 0 <= i < |ws| ==> PutsTo(id, ws, out)[i] == (ws[i], out[i])
  {
    if ws != [] {
      var n := |ws| - 1;
      assert ws[n] in ws;
      PutsToOne(id, ws[..n], out[..n]);
    }
  }

  /** One row per put, with consecutive revisions, in order, in the history and in the journal. */
  ghost predicate BatchRows(hash: Hash, b: Book, b': Book, puts: seq<(Write, PutResult)>) {
    && b'.revision == b.revision + |puts|
    && |b'.hist| == |b.hist| + |puts| && |b'.journal| == |b.journal| + |puts|
    && b.hist <= b'.hist && b.journal <= b'.journal
    && forall i :: 0 <= i < |puts| ==>
         && puts[i].1.revision == b.revision + i + 1
         && puts[i].1.etag == hash(Canonicalize(puts[i].0.input.vcard))
         && b'.hist[|b.hist| + i] == Row(Change(puts[i].1.revision, puts[i].0.input.href, puts[i].1.etag, false), puts[i].0.now)
         && b'.journal[|b.journal| + i] == b'.hist[|b.hist| + i]
  }

  lemma BatchRowsStep(hash: Hash, b: Book, b1: Book, b2: Book, puts: seq<(Write, PutResult)>, w: Write, r: PutResult)
    requires BatchRows(hash, b, b1, puts)
    requires r.revision == b1.revision + 1 && r.etag == hash(Canonicalize(w.input.vcard))
    requires Commits(b1, b2, Change(r.revision, w.input.href, r.etag, false), w.now)
    ensures BatchRows(hash, b, b2, puts + [(w, r)])
  {
    assert forall i :: 0 <= i < |b1.hist| ==> b2.hist[i] == b1.hist[i];
    assert forall i :: 0 <= i < |b1.journal| ==> b2.journal[i] == b1.journal[i];
  }

  /** What one committed put does to the store. */
  ghost predicate PutStep(hash: Hash, st: StoreState, st': StoreState, w: Write, r: PutResult) {
    var id := w.input.book;
    && id in st.books && id in st'.books && st' == st.(books := st.books[id := st'.books[id]])
    && r.revision == st.books[id].revision + 1 && r.etag == hash(Canonicalize(w.input.vcard))
    && Commits(st.books[id], st'.books[id], Change(r.revision, w.input.href, r.etag, false), w.now)
  }

  lemma PutNextSteps(hash: Hash, before: (StoreState, Result<seq<PutResult>, StoreError>), w: Write) returns (r: PutResult)
    requires StoreOk(hash, before.0) && PutNext(hash, before, w).1.Ok?
    ensures before.1.Ok? && PutNext(hash, before, w).1.value == before.1.value + [r]
    ensures PutStep(hash, before.0, PutNext(hash, before, w).0, w, r)
  {
    r := PutConn(hash, before.0, w, None).1.value;
    PutInBookCommits(hash, before.0.books[w.input.book], w, None);
  }

  lemma BatchLastRow(hash: Hash, st: StoreState, mid: StoreState, st': StoreState, ws: seq<Write>, out: seq<PutResult>, w: Write, r: PutResult, id: BookId)
    requires id in st.books && id in mid.books && |out| == |ws| && PutStep(hash, mid, st', w, r)
    requires BatchRows(hash, st.books[id], mid.books[id], PutsTo(id, ws, out))
    ensures BatchRows(hash, st.books[id], st'.books[id], PutsTo(id, ws + [w], out + [r]))
  {
    assert (ws + [w])[..|ws|] == ws && (out + [r])[..|ws|] == out;
    if w.input.book == id { BatchRowsStep(hash, st.books[id], mid.books[id], st'.books[id], PutsTo(id, ws, out), w, r); }
  }

  /** What a committed batch leaves: every book has one new row per input that names it. */
  ghost predicate BatchDone(hash: Hash, st: StoreState, st': StoreState, ws: seq<Write>, out: seq<PutResult>) {
    && st'.names == st.names && st'.nextId == st.nextId && st'.books.Keys == st.books.Keys
    && |out| == |ws|
    && forall id :: id in st.books ==> BatchRows(hash, st.books[id], st'.books[id], PutsTo(id, ws, out))
  }

  lemma BatchStep(hash: Hash, st: StoreState, mid: StoreState, st': StoreState, ws: seq<Write>, out: seq<PutResult>, w: Write, r: PutResult)
    requires BatchDone(hash, st, mid, ws, out) && PutStep(hash, mid, st', w, r)
    ensures BatchDone(hash, st, st', ws + [w], out + [r])
  {
    forall id | id in st.books ensures BatchRows(hash, st.books[id], st'.books[id], PutsTo(id, ws + [w], out + [r])) {
      BatchLastRow(hash, st, mid, st', ws, out, w, r, id);
    }
  }

  /** The same, of a batch and its last put. */
  lemma BatchSplits(hash: Hash, st: StoreState, mid: StoreState, st': StoreState, ws: seq<Write>, out: seq<PutResult>, r: PutResult,
                    ws': seq<Write>, out': seq<PutResult>)
    requires ws' != [] && ws == ws'[..|ws'| - 1] && out' == out + [r]
    requires BatchDone(hash, st, mid, ws, out) && PutStep(hash, mid, st', ws'[|ws'| - 1], r)
    ensures BatchDone(hash, st, st', ws', out')
  {
    BatchStep(hash, st, mid, st', ws, out, ws'[|ws'| - 1], r);
    assert ws' == ws + [ws'[|ws'| - 1]];
  }

  lemma {:induction false} BatchWritesRows(hash: Hash, st: StoreState, ws: seq<Write>)
    requires StoreOk(hash, st) && PutEach(hash, st, ws).1.Ok?
    ensures BatchDone(hash, st, PutEach(hash, st, ws).0, ws, PutEach(hash, st, ws).1.value)
  {
    if ws == [] {
      NothingWritten(hash, st);
    } else {
      var n, last := |ws| - 1, ws[|ws| - 1];
      var mid := PutEach(hash, st, ws[..n]);
      BatchWritesRows(hash, st, ws[..n]);
      PutEachKeeps(hash, st, ws[..n]);
      var r := PutNextSteps(hash, mid, last);
      BatchSplits(hash, st, mid.0, PutNext(hash, mid, last).0, ws[..n], mid.1.value, r, ws, mid.1.value + [r]);
    }
  }

  lemma NothingWritten(hash: Hash, st: StoreState)
    ensures BatchDone(hash, st, st, [], [])
  {}

  /** PutCardsAtomic: all or nothing, and when it commits, every book has exactly one new row per
      input that names it, with consecutive revisions, in input order. */
  lemma BatchIsAtomic(hash: Hash, st: StoreState, ws: seq<Write>)
    requires StoreOk(hash, st)
    ensures var r := PutBatch(hash, st, ws);
      if r.1.Err? then r.0 == st else BatchDone(hash, st, r.0, ws, r.1.value)
  {
    if PutEach(hash, st, ws).1.Ok? { BatchWritesRows(hash, st, ws); }
  }

  /** The last change to an href tells what the server holds there. */
  lemma LastChangeTells(log: seq<Change>, k: nat, href: Href)
    requires k < |log| && log[k].href == href && !ChangedIn(log, k + 1, |log|, href)
    ensures Get(StateAt(log, |log|), href) == if log[k].deleted then None else Some(log[k].etag)
  {
    StateUnchanged(log, k + 1, |log|, href);
    assert log[..k + 1][..k] == log[..k];
  }

  /** The newest retained row of a live card is a put with the stored ETag. */
  lemma NewestRowOfLiveCard(hash: Hash, b: Book, href: Href, i: nat)
    requires BookOk(hash, b) && href in b.cards && TimeOrdered(b.hist)
    requires i < |b.journal| && b.journal[i].change.href == href
    requires forall j :: i < j < |b.journal| ==> b.journal[j].change.href != href
    ensures !b.journal[i].change.deleted && b.journal[i].change.etag == b.cards[href].etag
  {
    var floor, log := |b.hist| - |b.journal|, Log(b);
    var k := floor + i;
    assert b.journal[i] == b.hist[k];
    forall j | k + 1 <= j < |log| ensures log[j].href != href {
      assert b.hist[j] == b.journal[j - floor];
    }
    LastChangeTells(log, k, href);
    assert Get(Etags(b.cards), href) == Some(b.cards[href].etag);
  }
}
