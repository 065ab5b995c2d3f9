/** contactctl import: the real run puts a batch atomically, the dry run only classifies it
    (internal/ctl/ctl.go). */
module Import {
  import opened Basics
  import opened History
  import opened VCardText
  import opened CardStore
  import opened StoreInvariant
  import opened Stores

  datatype ImportError = UidConflict | Rejected(error: StoreError)

  datatype Counts = Counts(created: nat, updated: nat)

  /** The dry run of one card: a conflict exactly when the UID belongs to another href. */
  method ClassifyImportedCard(store: Store, id: BookId, href: Href, uid: string) returns (r: Result<bool, ImportError>)
    requires store.Valid()
    ensures r == Classify(if id in store.books then store.books[id].cards else map[], href, uid)
  {
    var cards := if id in store.books then store.books[id].cards else map[];
    assert UidsUnique(cards);
    if href in cards && cards[href].uid == uid { return Ok(false); }
    var todo := cards.Keys;
    while todo != {}
      invariant todo <= cards.Keys
      invariant forall h :: h in cards && h !in todo && h != href ==> cards[h].uid != uid
      decreases |todo|
    {
      var h :| h in todo;
      if cards[h].uid == uid && h != href { return Err(UidConflict); }
      todo := todo - {h};
    }
    return Ok(href !in cards);
  }

  function Classify(cards: map<Href, Card>, href: Href, uid: string): Result<bool, ImportError> {
    if UidTaken(cards, href, uid) then Err(UidConflict) else Ok(href !in cards)
  }

  function Count(c: Counts, created: bool): Counts {
    if created then c.(created := c.created + 1) else c.(updated := c.updated + 1)
  }

  function CountResults(out: seq<PutResult>): Counts {
    if out == [] then Counts(0, 0) else Count(CountResults(out[..|out| - 1]), out[|out| - 1].created)
  }

  function Cards(st: StoreState, id: BookId): map<Href, Card> {
    if id in st.books then st.books[id].cards else map[]
  }

  function DryRun(st: StoreState, ws: seq<Write>): Result<Counts, ImportError> {
    if ws == [] then Ok(Counts(0, 0))
    else
      var before, w := DryRun(st, ws[..|ws| - 1]), ws[|ws| - 1].input;
      if before.Err? then before
      else
        var c := Classify(Cards(st, w.book), w.href, w.uid);
        if c.Err? then Err(c.error) else Ok(Count(before.value, c.value))
  }

  function RealRun(hash: Hash, st: StoreState, ws: seq<Write>): Result<Counts, ImportError> {
    var r := PutBatch(hash, st, ws).1;
    if r.Ok? then Ok(CountResults(r.value)) else Err(Rejected(r.error))
  }

  method ApplyImportedBatch(store: Store, ws: seq<Write>, dryRun: bool) returns (r: Result<Counts, ImportError>)
    requires store.Valid()
    modifies store
    ensures store.Valid()
    ensures dryRun ==> store.State() == old(store.State()) && r == DryRun(store.State(), ws)
    ensures !dryRun ==> store.State() == PutBatch(store.hash, old(store.State()), ws).0 && r == RealRun(store.hash, old(store.State()), ws)
  {
    var counts := Counts(0, 0);
    if dryRun {
      for i := 0 to |ws|
        invariant store.State() == old(store.State()) && store.Valid()
        invariant DryRun(store.State(), ws[..i]) == Ok(counts)
      {
        assert ws[..i + 1][..i] == ws[..i];
        var c := ClassifyImportedCard(store, ws[i].input.book, ws[i].input.href, ws[i].input.uid);
        if c.Err? {
          DryRunErrorStays(store.State(), ws, i + 1);
          return Err(c.error);
        }
        counts := Count(counts, c.value);
      }
      assert ws[..|ws|] == ws;
      return Ok(counts);
    }
    var res := store.PutCardsAtomic(ws);
    if res.Err? { return Err(Rejected(res.error)); }
    for i := 0 to |res.value|
      invariant CountResults(res.value[..i]) == counts
      invariant store.Valid() && store.State() == PutBatch(store.hash, old(store.State()), ws).0
    {
      assert res.value[..i + 1][..i] == res.value[..i];
      counts := Count(counts, res.value[i].created);
    }
    assert res.value[..|res.value|] == res.value;
    return Ok(counts);
  }

  lemma {:induction false} DryRunErrorStays(st: StoreState, ws: seq<Write>, n: nat)
    requires n <= |ws| && DryRun(st, ws[..n]).Err?
    ensures DryRun(st, ws) == DryRun(st, ws[..n])
    decreases |ws|
  {
    if n == |ws| {
      assert ws[..n] == ws;
    } else {
      assert ws[..|ws| - 1][..n] == ws[..n];
      DryRunErrorStays(st, ws[..|ws| - 1], n);
    }
  }

  // ---- What is counted ----

  /** A dry run fails exactly when some card's UID is stored under another href, and otherwise counts as
      created the cards whose href is not stored, and all others as updated. */
  lemma {:induction false} DryRunDecides(st: StoreState, ws: seq<Write>)
    ensures DryRun(st, ws).Err? <==>
      exists i :: 0 <= i < |ws| && UidElsewhere(st, ws[i].input.book, ws[i].input.href, ws[i].input.uid)
    ensures DryRun(st, ws).Err? ==> DryRun(st, ws).error == UidConflict
    ensures DryRun(st, ws).Ok? ==>
      && DryRun(st, ws).value.created == |set i | 0 <= i < |ws| && !CardThere(st, ws[i].input.book, ws[i].input.href)|
      && DryRun(st, ws).value.created + DryRun(st, ws).value.updated == |ws|
  {
    if ws != [] {
      var n, w := |ws| - 1, ws[|ws| - 1].input;
      DryRunDecides(st, ws[..n]);
      UidElsewhereIsTaken(st, w.book, w.href, w.uid);
      assert forall i :: 0 <= i < n ==> ws[..n][i] == ws[i];
      assert UidElsewhere(st, ws[n].input.book, ws[n].input.href, ws[n].input.uid) <==> UidTaken(Cards(st, w.book), w.href, w.uid);
      CountMore(st, ws);
    }
  }

  lemma CountMore(st: StoreState, ws: seq<Write>)
    requires ws != []
    ensures var n := |ws| - 1;
      |set i | 0 <= i < |ws| && !CardThere(st, ws[i].input.book, ws[i].input.href)| ==
        |set i | 0 <= i < n && !CardThere(st, ws[..n][i].input.book, ws[..n][i].input.href)|
        + if CardThere(st, ws[n].input.book, ws[n].input.href) then 0 else 1
  {
    var n := |ws| - 1;
    var before := set i | 0 <= i < n && !CardThere(st, ws[..n][i].input.book, ws[..n][i].input.href);
    var after := set i | 0 <= i < |ws| && !CardThere(st, ws[i].input.book, ws[i].input.href);
    assert after == before + if CardThere(st, ws[n].input.book, ws[n].input.href) then {} else {n};
  }

  /** A real run counts the results of its batch. */
  lemma {:induction false} ResultsCounted(out: seq<PutResult>)
    ensures CountResults(out).created == |set i | 0 <= i < |out| && out[i].created|
    ensures CountResults(out).created + CountResults(out).updated == |out|
  {
    if out != [] {
      var n := |out| - 1;
      ResultsCounted(out[..n]);
      var before := set i | 0 <= i < n && out[..n][i].created;
      var after := set i | 0 <= i < |out| && out[i].created;
      assert after == before + if out[n].created then {n} else {};
    }
  }

  /** A real run fails exactly as its batch does, and otherwise counts its results. */
  lemma RealRunDecides(hash: Hash, st: StoreState, ws: seq<Write>)
    ensures var batch := PutBatch(hash, st, ws).1;
      match RealRun(hash, st, ws)
      case Err(e) => batch.Err? && e == Rejected(batch.error)
      case Ok(c) =>
        && batch.Ok? && c.created + c.updated == |batch.value|
        && c.created == |set i | 0 <= i < |batch.value| && batch.value[i].created|
  {
    if PutBatch(hash, st, ws).1.Ok? { ResultsCounted(PutBatch(hash, st, ws).1.value); }
  }

  // ---- The dry run predicts the real run ----

  /** What the importer itself checks of every card, and a database that lets the journal rows
      through. */
  ghost predicate Importable(ws: seq<Write>, id: BookId) {
    forall w :: w in ws ==> w.input.book == id && w.input.href != "" && w.input.uid != "" && w.journalOk
  }

  ghost predicate DistinctCards(ws: seq<Write>) {
    forall i, j :: 0 <= i < j < |ws| ==> ws[i].input.href != ws[j].input.href && ws[i].input.uid != ws[j].input.uid
  }

  /** A card that is already stored keeps its UID. */
  ghost predicate KeepsUids(cards: map<Href, Card>, ws: seq<Write>) {
    forall w :: w in ws && w.input.href in cards ==> cards[w.input.href].uid == w.input.uid
  }

  function PutHrefs(ws: seq<Write>): set<Href> { set w | w in ws :: w.input.href }

  function PutUids(ws: seq<Write>): set<string> { set w | w in ws :: w.input.uid }

  /** The cards while a batch runs: the stored ones under their UIDs, and the ones put so far. */
  ghost predicate Midway(before: map<Href, Card>, cards: map<Href, Card>, hrefs: set<Href>, uids: set<string>) {
    && cards.Keys == before.Keys + hrefs
    && (forall h :: h in before ==> cards[h].uid == before[h].uid)
    && (forall h :: h in cards && h !in before ==> cards[h].uid in uids)
  }

  lemma MidwayClassifies(before: map<Href, Card>, cards: map<Href, Card>, hrefs: set<Href>, uids: set<string>, href: Href, uid: string)
    requires Midway(before, cards, hrefs, uids) && href !in hrefs && uid !in uids
    ensures Classify(cards, href, uid) == Classify(before, href, uid)
  {
    if UidTaken(before, href, uid) {
      var h :| h in before && h != href && before[h].uid == uid;
      assert h in cards && cards[h].uid == uid;
    }
  }

  lemma MidwayStep(before: map<Href, Card>, cards: map<Href, Card>, ws: seq<Write>, w: Write, card: Card)
    requires Midway(before, cards, PutHrefs(ws), PutUids(ws)) && card.uid == w.input.uid
    requires w.input.href in before ==> before[w.input.href].uid == w.input.uid
    ensures Midway(before, cards[w.input.href := card], PutHrefs(ws + [w]), PutUids(ws + [w]))
  {
    assert PutHrefs(ws + [w]) == PutHrefs(ws) + {w.input.href};
    assert PutUids(ws + [w]) == PutUids(ws) + {w.input.uid};
  }

  /** Where a real run stands after its puts so far, against the dry run of the same cards. */
  ghost predicate Tracks(st: StoreState, id: BookId, ws: seq<Write>, run: (StoreState, Result<seq<PutResult>, StoreError>))
    requires id in st.books
  {
    match DryRun(st, ws)
    case Err(_) => run.1 == Err(UniqueViolation)
    case Ok(counts) =>
      && run.1.Ok? && CountResults(run.1.value) == counts
      && id in run.0.books && run.0.books[id].revision == st.books[id].revision + |ws|
      && Midway(st.books[id].cards, run.0.books[id].cards, PutHrefs(ws), PutUids(ws))
  }

  /** What one unconditional put of an importable card does to a book. */
  ghost predicate PutOutcome(before: Book, st: StoreState, id: BookId, w: Write, res: Result<PutResult, StoreError>) {
    if UidTaken(before.cards, w.input.href, w.input.uid) then res == Err(UniqueViolation)
    else
      && res.Ok? && res.value.created == (w.input.href !in before.cards)
      && id in st.books && st.books[id].revision == before.revision + 1
      && exists card: Card :: card.uid == w.input.uid && st.books[id].cards == before.cards[w.input.href := card]
  }

  lemma ImportedPut(hash: Hash, st: StoreState, id: BookId, w: Write)
    requires id != 0 && id in st.books && st.books[id].revision < MAX_INT64
    requires w.input.book == id && w.input.href != "" && w.input.uid != "" && w.journalOk
    ensures PutOutcome(st.books[id], PutConn(hash, st, w, None).0, id, w, PutConn(hash, st, w, None).1)
  {
    var canonical := Canonicalize(w.input.vcard);
    var card := Card(w.input.uid, hash(canonical), canonical);
    if !UidTaken(st.books[id].cards, w.input.href, w.input.uid) {
      assert PutConn(hash, st, w, None).0.books[id].cards == st.books[id].cards[w.input.href := card];
    }
  }

  lemma OutcomeTracks(st: StoreState, id: BookId, done: seq<Write>, w: Write, mid: (StoreState, Result<seq<PutResult>, StoreError>),
                      st': StoreState, res: Result<PutResult, StoreError>)
    requires id in st.books && w.input.book == id
    requires w.input.href !in PutHrefs(done) && w.input.uid !in PutUids(done)
    requires w.input.href in st.books[id].cards ==> st.books[id].cards[w.input.href].uid == w.input.uid
    requires DryRun(st, done).Ok? && Tracks(st, id, done, mid)
    requires PutOutcome(mid.0.books[id], st', id, w, res)
    ensures Tracks(st, id, done + [w], (st', if res.Ok? then Ok(mid.1.value + [res.value]) else Err(res.error)))
  {
    var before, cards := st.books[id].cards, mid.0.books[id].cards;
    assert (done + [w])[..|done|] == done;
    MidwayClassifies(before, cards, PutHrefs(done), PutUids(done), w.input.href, w.input.uid);
    if res.Ok? {
      assert (mid.1.value + [res.value])[..|mid.1.value|] == mid.1.value;
      var card: Card :| card.uid == w.input.uid && st'.books[id].cards == cards[w.input.href := card];
      MidwayStep(before, cards, done, w, card);
    }
  }

  /** The last card of such a batch, against the ones before it. */
  lemma LastIsNew(cards: map<Href, Card>, id: BookId, ws: seq<Write>)
    requires ws != [] && Importable(ws, id) && DistinctCards(ws) && KeepsUids(cards, ws)
    ensures var n := |ws| - 1;
      && Importable(ws[..n], id) && DistinctCards(ws[..n]) && KeepsUids(cards, ws[..n])
      && ws[n].input.book == id && ws[n].input.href != "" && ws[n].input.uid != "" && ws[n].journalOk
      && ws[n].input.href !in PutHrefs(ws[..n]) && ws[n].input.uid !in PutUids(ws[..n])
      && (ws[n].input.href in cards ==> cards[ws[n].input.href].uid == ws[n].input.uid)
  {
    assert ws[|ws| - 1] in ws;
  }

  lemma {:induction false} DryRunTracksPuts(hash: Hash, st: StoreState, id: BookId, ws: seq<Write>)
    requires id != 0 && id in st.books
    requires Importable(ws, id) && DistinctCards(ws) && KeepsUids(st.books[id].cards, ws)
    requires st.books[id].revision + |ws| <= MAX_INT64
    ensures Tracks(st, id, ws, PutEach(hash, st, ws))
  {
    if ws != [] {
      var n := |ws| - 1;
      var mid := PutEach(hash, st, ws[..n]);
      LastIsNew(st.books[id].cards, id, ws);
      DryRunTracksPuts(hash, st, id, ws[..n]);
      if DryRun(st, ws[..n]).Ok? {
        ImportedPut(hash, mid.0, id, ws[n]);
        OutcomeTracks(st, id, ws[..n], ws[n], mid, PutConn(hash, mid.0, ws[n], None).0, PutConn(hash, mid.0, ws[n], None).1);
        assert ws == ws[..n] + [ws[n]];
      }
    }
  }

  /** For a batch of distinct cards that keeps the stored cards' UIDs, the dry run and the real run
      agree: the same counts, or a UID conflict in both. */
  lemma DryRunPredictsBatch(hash: Hash, st: StoreState, id: BookId, ws: seq<Write>)
    requires StoreOk(hash, st) && id in st.books
    requires Importable(ws, id) && DistinctCards(ws) && KeepsUids(st.books[id].cards, ws)
    requires st.books[id].revision + |ws| <= MAX_INT64
    ensures match DryRun(st, ws)
      case Ok(counts) => RealRun(hash, st, ws) == Ok(counts)
      case Err(e) => e == UidConflict && RealRun(hash, st, ws) == Err(Rejected(UniqueViolation))
  {
    DryRunTracksPuts(hash, st, id, ws);
    DryRunConflicts(st, ws);
  }

  lemma {:induction false} DryRunConflicts(st: StoreState, ws: seq<Write>)
    ensures DryRun(st, ws).Err? ==> DryRun(st, ws).error == UidConflict
  {
    if ws != [] { DryRunConflicts(st, ws[..|ws| - 1]); }
  }

  lemma PutEachOne(hash: Hash, st: StoreState, w: Write)
    ensures var r := PutConn(hash, st, w, None);
      PutEach(hash, st, [w]) == (r.0, if r.1.Ok? then Ok([r.1.value]) else Err(r.1.error))
    ensures DryRun(st, [w]) ==
      var c := Classify(Cards(st, w.input.book), w.input.href, w.input.uid);
      if c.Err? then Err(c.error) else Ok(Count(Counts(0, 0), c.value))
  {
    assert [w][..0] == [];
    var r := PutConn(hash, st, w, None);
    if r.1.Ok? { assert [] + [r.1.value] == [r.1.value]; }
  }

  /** One card needs no such condition: a stored card may change its UID. */
  lemma DryRunPredictsOneCard(hash: Hash, st: StoreState, id: BookId, w: Write)
    requires id != 0 && id in st.books && Importable([w], id) && st.books[id].revision < MAX_INT64
    ensures match DryRun(st, [w])
      case Ok(counts) => RealRun(hash, st, [w]) == Ok(counts)
      case Err(e) => e == UidConflict && RealRun(hash, st, [w]) == Err(Rejected(UniqueViolation))
  {
    assert w in [w];
    ImportedPut(hash, st, id, w);
    PutEachOne(hash, st, w);
    var r := PutConn(hash, st, w, None);
    if r.1.Ok? {
      assert [r.1.value][..0] == [];
      assert CountResults([r.1.value]) == Count(Counts(0, 0), r.1.value.created);
    }
  }

  /** Two new cards with one UID that is new too: the dry run lets them through, the real run does
      not, whatever the addressbook holds already. */
  lemma RepeatedUidFoolsDryRun(hash: Hash, st: StoreState, id: BookId, v: Write, w: Write)
    requires id != 0 && id in st.books && st.books[id].revision < MAX_INT64 - 1
    requires Importable([v, w], id) && v.input.href != w.input.href && v.input.uid == w.input.uid
    requires v.input.href !in st.books[id].cards && w.input.href !in st.books[id].cards
    requires !UidTaken(st.books[id].cards, v.input.href, v.input.uid)
    ensures DryRun(st, [v, w]) == Ok(Counts(2, 0))
    ensures RealRun(hash, st, [v, w]) == Err(Rejected(UniqueViolation))
  {
    assert v in [v, w] && w in [v, w] && [v, w][..1] == [v];
    ImportedPut(hash, st, id, v);
    PutEachOne(hash, st, v);
    var first := PutConn(hash, st, v, None);
    ImportedPut(hash, first.0, id, w);
    assert UidTaken(first.0.books[id].cards, w.input.href, w.input.uid) by {
      assert v.input.href in first.0.books[id].cards && first.0.books[id].cards[v.input.href].uid == w.input.uid;
    }
  }
}
