/** The store as an object that its transactions change statement by statement
    (internal/db/store.go). Every method is the function of CardStore of the same name, and keeps
    the store's invariant. */
module Stores {
  import opened Basics
  import opened History
  import opened VCardText
  import opened CardStore
  import opened StoreInvariant
  import opened SyncCollection

  class Store {
    const hash: Hash
    var names: map<Name, BookId>
    var books: map<BookId, Book>
    var nextId: nat

    function State(): StoreState
      reads this
    {
      StoreState(names, books, nextId)
    }

    ghost predicate Valid()
      reads this
    {
      StoreOk(hash, State())
    }

    constructor (hash: Hash)
      ensures Valid() && State() == EmptyStore() && this.hash == hash
    {
      this.hash := hash;
      names, books, nextId := map[], map[], 1;
    }

    /** The statements of one put, inside a transaction: on an error what was written stays until
        the caller rolls back. */
    method PutCardConn(w: Write, cond: Option<PutConditions>) returns (r: Result<PutResult, StoreError>)
      modifies this
      ensures (State(), r) == PutConn(hash, old(State()), w, cond)
    {
      var id, href := w.input.book, w.input.href;
      if id == 0 || href == "" || w.input.uid == "" { return Err(FieldRequired); }
      assert id in books ==> books[id := books[id]] == books;
      var canonical := Canonicalize(w.input.vcard);
      var etagHex := hash(canonical);
      var existing := if id in books then Get(books[id].cards, href) else None;
      if cond.Some? {
        if cond.value.requireAbsent && existing.Some? { return Err(PreconditionFailed); }
        if cond.value.expected.Some? {
          if existing.None? || existing.value.etag != cond.value.expected.value { return Err(PreconditionFailed); }
        }
      }
      // INSERT or UPDATE: the foreign key, then UNIQUE (addressbook_id, uid).
      if id !in books { return Err(NoSuchBook); }
      if UidTaken(books[id].cards, href, w.input.uid) { return Err(UniqueViolation); }
      var b := books[id];
      b := b.(cards := b.cards[href := Card(w.input.uid, etagHex, canonical)]);
      books := books[id := b];
      if b.revision >= MAX_INT64 { return Err(RevisionExhausted); }
      b := b.(revision := b.revision + 1);
      books := books[id := b];
      assert books == old(books)[id := b];
      if !w.journalOk { return Err(JournalRefused); }
      b := AddRow(b, Row(Change(b.revision, href, etagHex, false), w.now));
      books := books[id := b];
      assert books == old(books)[id := b];
      return Ok(PutResult(existing.None?, etagHex, b.revision));
    }

    method PutCard(w: Write, cond: Option<PutConditions>) returns (r: Result<PutResult, StoreError>)
      requires Valid()
      modifies this
      ensures Valid() && (State(), r) == Put(hash, old(State()), w, cond)
      ensures State() == Apply(hash, old(State()), OpPut(w, cond))
    {
      PutKeeps(hash, State(), w, cond);
      var saved := books;
      r := PutCardConn(w, cond);
      if r.Err? { books := saved; }
    }

    /** The loop of PutCardsAtomic, inside its transaction. */
    method PutCardsConn(ws: seq<Write>) returns (r: Result<seq<PutResult>, StoreError>)
      modifies this
      ensures names == old(names) && nextId == old(nextId)
      ensures r == PutEach(hash, old(State()), ws).1
      ensures r.Ok? ==> State() == PutEach(hash, old(State()), ws).0
    {
      var out := [];
      for i := 0 to |ws|
        invariant PutEach(hash, old(State()), ws[..i]) == (State(), Ok(out))
        invariant names == old(names) && nextId == old(nextId)
      {
        assert ws[..i + 1][..i] == ws[..i];
        var res := PutCardConn(ws[i], None);
        if res.Err? {
          ErrorEndsBatch(hash, old(State()), ws, i + 1);
          return Err(res.error);
        }
        out := out + [res.value];
      }
      assert ws[..|ws|] == ws;
      return Ok(out);
    }

    method PutCardsAtomic(ws: seq<Write>) returns (r: Result<seq<PutResult>, StoreError>)
      requires Valid()
      modifies this
      ensures Valid() && (State(), r) == PutBatch(hash, old(State()), ws)
      ensures State() == Apply(hash, old(State()), OpBatch(ws))
    {
      BatchKeeps(hash, State(), ws);
      if |ws| == 0 { return Ok([]); }
      var saved := books;
      r := PutCardsConn(ws);
      if r.Err? { books := saved; }
    }

    /** The statements of one delete, inside a transaction. */
    method DeleteCardConn(id: BookId, href: Href, expected: Option<ETag>, now: int) returns (r: Result<(), StoreError>)
      modifies this
      ensures names == old(names) && nextId == old(nextId)
      ensures if id in old(books)
              then id in books && books == old(books)[id := books[id]] && (books[id], r) == DeleteInBook(old(books[id]), href, expected, now)
              else books == old(books) && r == Err(NotFound)
    {
      if id !in books || href !in books[id].cards { return Err(NotFound); }
      var b := books[id];
      var lastETag := b.cards[href].etag;
      if expected.Some? && lastETag != expected.value { return Err(PreconditionFailed); }
      b := b.(cards := b.cards - {href});
      books := books[id := b];
      if b.revision >= MAX_INT64 { return Err(RevisionExhausted); }
      b := b.(revision := b.revision + 1);
      books := books[id := b];
      b := AddRow(b, Row(Change(b.revision, href, lastETag, true), now));
      books := books[id := b];
      return Ok(());
    }

    method DeleteCard(id: BookId, href: Href, expected: Option<ETag>, now: int) returns (r: Result<(), StoreError>)
      requires Valid()
      modifies this
      ensures Valid() && (State(), r) == Delete(old(State()), id, href, expected, now)
      ensures State() == Apply(hash, old(State()), OpDelete(id, href, expected, now))
    {
      DeleteKeeps(hash, State(), id, href, expected, now);
      if id == 0 || href == "" { return Err(FieldRequired); }
      var saved := books;
      r := DeleteCardConn(id, href, expected, now);
      if r.Err? { books := saved; }
    }

    method PruneCardChangesByAge(cutoff: int)
      requires Valid()
      modifies this`books
      ensures Valid() && State() == Apply(hash, old(State()), OpPruneByAge(cutoff))
    {
      ApplyKeeps(hash, State(), OpPruneByAge(cutoff));
      books := PruneByAge(books, cutoff);
    }

    method PruneCardChangesByMaxRevisions(keep: int)
      requires Valid()
      modifies this`books
      ensures Valid() && State() == Apply(hash, old(State()), OpPruneByMaxRevisions(keep))
    {
      ApplyKeeps(hash, State(), OpPruneByMaxRevisions(keep));
      if keep <= 0 { return; }
      books := PruneByMaxRevisions(books, keep);
    }

    method CreateAddressbook(name: Name, displayName: string) returns (r: Result<BookId, StoreError>)
      requires Valid()
      modifies this
      ensures Valid() && (State(), r) == CreateBook(old(State()), name, displayName)
      ensures State() == Apply(hash, old(State()), OpCreate(name, displayName))
    {
      CreateKeeps(hash, State(), name, displayName);
      if name in names { return Err(UniqueViolation); }
      if nextId > MAX_INT64 { return Err(IdsExhausted); }
      var id := nextId;
      nextId := nextId + 1;
      names := names[name := id];
      books := books[id := Book(0, map[], [], [], Metadata(displayName, "", ""))];
      return Ok(id);
    }

    method DeleteAddressbook(name: Name) returns (r: Result<(), StoreError>)
      requires Valid()
      modifies this
      ensures Valid() && (State(), r) == DropBook(old(State()), name)
      ensures State() == Apply(hash, old(State()), OpDrop(name))
    {
      DropKeeps(hash, State(), name);
      ghost var spec := Apply(hash, State(), OpDrop(name));
      assert spec == DropBook(State(), name).0;
      if name !in names { return Err(NotFound); }
      books := books - {names[name]};
      names := names - {name};
      assert State() == spec;
      return Ok(());
    }

    method UpdateAddressbookMetadata(name: Name, displayName: Option<string>, description: Option<string>, color: Option<string>)
      returns (r: Result<(), StoreError>)
      requires Valid()
      modifies this`books
      ensures Valid() && (State(), r) == UpdateBookMetadata(old(State()), name, displayName, description, color)
      ensures State() == Apply(hash, old(State()), OpMetadata(name, displayName, description, color))
    {
      MetadataKeeps(hash, State(), name, displayName, description, color);
      ghost var spec := Apply(hash, State(), OpMetadata(name, displayName, description, color));
      assert spec == UpdateBookMetadata(State(), name, displayName, description, color).0;
      if displayName.None? && description.None? && color.None? { return Ok(()); }
      if name !in names || names[name] !in books { return Err(NotFound); }
      var b := books[names[name]];
      books := books[names[name] := b.(meta := UpdateMetadata(b.meta, displayName, description, color))];
      assert State() == spec;
      return Ok(());
    }

    /** Rows after a revision, oldest first; a positive limit cuts them. */
    method ListCardChangesSince(id: BookId, after: nat, limit: int) returns (out: seq<Change>)
      ensures var all := ChangesSince(Journal(State(), id), after);
        out == if 0 < limit < |all| then all[..limit] else all
    {
      var rows := Journal(State(), id);
      out := [];
      for i := 0 to |rows|
        invariant out == ChangesSince(rows[..i], after)
      {
        assert rows[..i + 1] == rows[..i] + [rows[i]];
        KeepConcat(rows[..i], [rows[i]], NewerThan(after));
        assert Keep([rows[i]], NewerThan(after)) == if NewerThan(after)(rows[i]) then [rows[i]] else [];
        if rows[i].change.revision > after { out := out + [rows[i].change]; }
      }
      assert rows[..|rows|] == rows;
      if 0 < limit < |out| { out := out[..limit]; }
    }

    /** Every live card with its newest retained revision, ordered by revision and href. */
    method ListCurrentCardSyncStates(id: BookId, limit: int) returns (out: seq<Change>)
      ensures var all := if id in books then StateListing(books[id]) else [];
        out == if 0 < limit < |all| then all[..limit] else all
    {
      out := [];
      if id !in books { return; }
      out := SortedRows(StatesOf(books[id]));
      if 0 < limit < |out| { out := out[..limit]; }
    }
  }

  method LeastRow(states: set<Change>) returns (next: Change)
    requires OnePerHref(states) && states != {}
    ensures next == Least(states)
  {
    LeastExists(states);
    next :| next in states && IsLeast(states, next);
    LeastIsUnique(states, next, Least(states));
  }

  lemma LeastComesFirst(states: set<Change>)
    requires OnePerHref(states) && states != {}
    ensures OnePerHref(states - {Least(states)})
    ensures SortStates(states) == [Least(states)] + SortStates(states - {Least(states)})
  {}

  /** ORDER BY: the least row first. */
  method SortedRows(states: set<Change>) returns (out: seq<Change>)
    requires OnePerHref(states)
    ensures out == SortStates(states)
  {
    out := [];
    var todo := states;
    while todo != {}
      invariant OnePerHref(todo)
      invariant out + SortStates(todo) == SortStates(states)
      decreases |todo|
    {
      var next := LeastRow(todo);
      LeastComesFirst(todo);
      assert out + ([next] + SortStates(todo - {next})) == out + [next] + SortStates(todo - {next});
      todo := todo - {next};
      out := out + [next];
    }
  }

  /** An error at input n - 1 is the error of the whole batch. */
  lemma {:induction false} ErrorEndsBatch(hash: Hash, st: StoreState, ws: seq<Write>, n: nat)
    requires n <= |ws| && PutEach(hash, st, ws[..n]).1.Err?
    ensures PutEach(hash, st, ws).1 == PutEach(hash, st, ws[..n]).1
    decreases |ws|
  {
    if n == |ws| {
      assert ws[..n] == ws;
    } else {
      assert ws[..|ws| - 1][..n] == ws[..n];
      ErrorEndsBatch(hash, st, ws[..|ws| - 1], n);
    }
  }
}
