/** The PROPPATCH handler: many operations, one metadata update (internal/server/handler.go,
    internal/db/store.go). Strings are byte strings here, so lengths are byte counts. */
module MetadataUpdates {
  import opened Basics
  import opened Proppatch
  import opened CardStore
  import opened Stores

  const DISPLAYNAME := XmlName("DAV:", "displayname")
  const DESCRIPTION := XmlName("urn:ietf:params:xml:ns:carddav", "addressbook-description")
  const COLOR := XmlName("http://inf-it.com/ns/ab/", "addressbook-color")

  const MAX_DISPLAYNAME := 256
  const MAX_DESCRIPTION := 4096
  const MAX_COLOR := 64

  /** The last value per supported property. */
  datatype Pending = Pending(displayName: Option<string>, description: Option<string>, color: Option<string>)

  predicate Supported(name: XmlName, colorEnabled: bool) {
    name == DISPLAYNAME || name == DESCRIPTION || (name == COLOR && colorEnabled)
  }

  function Names(ops: seq<PropOp>, colorEnabled: bool, supported: bool): seq<XmlName> {
    if ops == [] then []
    else
      Names(ops[..|ops| - 1], colorEnabled, supported)
      + (if Supported(ops[|ops| - 1].name, colorEnabled) == supported then [ops[|ops| - 1].name] else [])
  }

  function NewValue(op: PropOp): string { if op.remove then "" else op.value }

  /** One operation applied on its own. */
  function ApplyOne(m: Metadata, op: PropOp, colorEnabled: bool): Metadata {
    if op.name == DISPLAYNAME then m.(displayName := NewValue(op))
    else if op.name == DESCRIPTION then m.(description := NewValue(op))
    else if op.name == COLOR && colorEnabled then m.(color := NewValue(op))
    else m
  }

  /** Every operation, one at a time, in document order. */
  function ApplyEach(m: Metadata, ops: seq<PropOp>, colorEnabled: bool): Metadata {
    if ops == [] then m else ApplyOne(ApplyEach(m, ops[..|ops| - 1], colorEnabled), ops[|ops| - 1], colorEnabled)
  }

  /** Operation i is the last one that names the property. */
  ghost predicate LastNaming(ops: seq<PropOp>, i: int, name: XmlName) {
    0 <= i < |ops| && ops[i].name == name && forall j :: i < j < |ops| ==> ops[j].name != name
  }

  /** The operations leave a property this value. */
  ghost predicate Leaves(ops: seq<PropOp>, name: XmlName, before: string, after: string) {
    && (forall i :: LastNaming(ops, i, name) ==> after == if ops[i].remove then "" else ops[i].value)
    && ((forall i :: 0 <= i < |ops| ==> ops[i].name != name) ==> after == before)
  }

  /** Every property has the value of the last operation that names it, or its old one; a color that is
      switched off always its old one. */
  lemma {:induction false} LastOperationWins(m: Metadata, ops: seq<PropOp>, colorEnabled: bool)
    ensures var m' := ApplyEach(m, ops, colorEnabled);
      && Leaves(ops, XmlName("DAV:", "displayname"), m.displayName, m'.displayName)
      && Leaves(ops, XmlName("urn:ietf:params:xml:ns:carddav", "addressbook-description"), m.description, m'.description)
      && (if colorEnabled then Leaves(ops, XmlName("http://inf-it.com/ns/ab/", "addressbook-color"), m.color, m'.color)
          else m'.color == m.color)
  {
    if ops != [] {
      var before := ApplyEach(m, ops[..|ops| - 1], colorEnabled);
      LastOperationWins(m, ops[..|ops| - 1], colorEnabled);
      OneOperation(before, ops[|ops| - 1], colorEnabled);
      var after := ApplyOne(before, ops[|ops| - 1], colorEnabled);
      LeavesStep(ops, DISPLAYNAME, m.displayName, before.displayName, after.displayName);
      LeavesStep(ops, DESCRIPTION, m.description, before.description, after.description);
      if colorEnabled { LeavesStep(ops, COLOR, m.color, before.color, after.color); }
    }
  }

  lemma OneOperation(m: Metadata, op: PropOp, colorEnabled: bool)
    ensures var m', v := ApplyOne(m, op, colorEnabled), if op.remove then "" else op.value;
      && m'.displayName == (if op.name == DISPLAYNAME then v else m.displayName)
      && m'.description == (if op.name == DESCRIPTION then v else m.description)
      && m'.color == (if op.name == COLOR && colorEnabled then v else m.color)
  {}

  lemma LeavesStep(ops: seq<PropOp>, name: XmlName, start: string, before: string, after: string)
    requires ops != [] && Leaves(ops[..|ops| - 1], name, start, before)
    requires var op := ops[|ops| - 1];
      after == if op.name == name then (if op.remove then "" else op.value) else before
    ensures Leaves(ops, name, start, after)
  {
    var n := |ops| - 1;
    forall i | LastNaming(ops, i, name) ensures after == if ops[i].remove then "" else ops[i].value {
      if i < n { assert LastNaming(ops[..n], i, name); }
    }
    if forall i :: 0 <= i < |ops| ==> ops[i].name != name {
      assert forall i :: 0 <= i < n ==> ops[..n][i].name != name;
    }
  }

  /** The property names of the answer: those that the server knows, and the others, each as often as it
      was named. */
  lemma {:induction false} AnswerNames(ops: seq<PropOp>, colorEnabled: bool, name: XmlName)
    ensures var known := || name == XmlName("DAV:", "displayname")
        || name == XmlName("urn:ietf:params:xml:ns:carddav", "addressbook-description")
        || (colorEnabled && name == XmlName("http://inf-it.com/ns/ab/", "addressbook-color"));
      var named := exists i :: 0 <= i < |ops| && ops[i].name == name;
      && (name in Names(ops, colorEnabled, true) <==> known && named)
      && (name in Names(ops, colorEnabled, false) <==> !known && named)
    ensures |Names(ops, colorEnabled, true)| + |Names(ops, colorEnabled, false)| == |ops|
  {
    if ops != [] {
      var n := |ops| - 1;
      AnswerNames(ops[..n], colorEnabled, name);
      assert forall i :: 0 <= i < n ==> ops[i] == ops[..n][i];
      assert ops[n].name == name ==> exists i :: 0 <= i < |ops| && ops[i].name == name;
    }
  }

  /** The operations set a property, last, to more than so many bytes. */
  ghost predicate LastTooLong(ops: seq<PropOp>, name: XmlName, max: nat) {
    exists i :: LastNaming(ops, i, name) && !ops[i].remove && |ops[i].value| > max
  }

  /** What is answered 400. */
  ghost predicate Oversized(ops: seq<PropOp>, colorEnabled: bool) {
    || LastTooLong(ops, XmlName("DAV:", "displayname"), 256)
    || LastTooLong(ops, XmlName("urn:ietf:params:xml:ns:carddav", "addressbook-description"), 4096)
    || (colorEnabled && LastTooLong(ops, XmlName("http://inf-it.com/ns/ab/", "addressbook-color"), 64))
  }

  /** What is collected for a property is the value of the last operation naming it. */
  ghost predicate Collected(ops: seq<PropOp>, name: XmlName, v: Option<string>) {
    match v
    case None => forall i :: 0 <= i < |ops| ==> ops[i].name != name
    case Some(s) => exists i :: LastNaming(ops, i, name) && s == if ops[i].remove then "" else ops[i].value
  }

  lemma CollectedMore(ops: seq<PropOp>, n: nat, name: XmlName, v: Option<string>, v': Option<string>)
    requires n < |ops| && Collected(ops[..n], name, v)
    requires v' == if ops[n].name == name then Some(if ops[n].remove then "" else ops[n].value) else v
    ensures Collected(ops[..n + 1], name, v')
  {
    if ops[n].name == name {
      assert LastNaming(ops[..n + 1], n, name);
    } else if v.Some? {
      var i :| LastNaming(ops[..n], i, name) && v.value == if ops[..n][i].remove then "" else ops[..n][i].value;
      assert LastNaming(ops[..n + 1], i, name);
    }
  }

  lemma CollectedTooLong(ops: seq<PropOp>, name: XmlName, v: Option<string>, max: nat)
    requires Collected(ops, name, v)
    ensures LastTooLong(ops, name, max) <==> v.Some? && |v.value| > max
  {
    if v.Some? {
      var i :| LastNaming(ops, i, name) && v.value == if ops[i].remove then "" else ops[i].value;
      forall j | LastNaming(ops, j, name) ensures j == i {}
    }
  }

  /** Something is collected exactly when some operation names a known property. */
  lemma SomethingCollected(ops: seq<PropOp>, colorEnabled: bool, p: Pending)
    requires Collected(ops, DISPLAYNAME, p.displayName) && Collected(ops, DESCRIPTION, p.description)
    requires if colorEnabled then Collected(ops, COLOR, p.color) else p.color.None?
    ensures p.displayName.Some? || p.description.Some? || p.color.Some? <==>
      exists i :: 0 <= i < |ops| && (ops[i].name == DISPLAYNAME || ops[i].name == DESCRIPTION || (colorEnabled && ops[i].name == COLOR))
  {
    if p.displayName.Some? { var i :| LastNaming(ops, i, DISPLAYNAME); assert ops[i].name == DISPLAYNAME; }
    if p.description.Some? { var i :| LastNaming(ops, i, DESCRIPTION); assert ops[i].name == DESCRIPTION; }
    if p.color.Some? { var i :| LastNaming(ops, i, COLOR); assert ops[i].name == COLOR; }
  }

  /** What is collected so far stands for the operations so far. */
  ghost predicate PendingOk(ops: seq<PropOp>, colorEnabled: bool, p: Pending) {
    && (forall m :: UpdateMetadata(m, p.displayName, p.description, p.color) == ApplyEach(m, ops, colorEnabled))
    && Collected(ops, DISPLAYNAME, p.displayName) && Collected(ops, DESCRIPTION, p.description)
    && (if colorEnabled then Collected(ops, COLOR, p.color) else p.color.None?)
  }

  lemma PendingMore(ops: seq<PropOp>, n: nat, colorEnabled: bool, before: Pending, p: Pending)
    requires n < |ops| && PendingOk(ops[..n], colorEnabled, before)
    requires var op := ops[n];
      var v := Some(if op.remove then "" else op.value);
      && p.displayName == (if op.name == DISPLAYNAME then v else before.displayName)
      && p.description == (if op.name == DESCRIPTION then v else before.description)
      && p.color == (if op.name == COLOR && colorEnabled then v else before.color)
    ensures PendingOk(ops[..n + 1], colorEnabled, p)
  {
    CollectedMore(ops, n, DISPLAYNAME, before.displayName, p.displayName);
    CollectedMore(ops, n, DESCRIPTION, before.description, p.description);
    if colorEnabled { CollectedMore(ops, n, COLOR, before.color, p.color); }
    assert ops[..n + 1][..n] == ops[..n];
    forall m ensures UpdateMetadata(m, p.displayName, p.description, p.color) == ApplyEach(m, ops[..n + 1], colorEnabled) {
      assert UpdateMetadata(m, before.displayName, before.description, before.color) == ApplyEach(m, ops[..n], colorEnabled);
      OneOperation(ApplyEach(m, ops[..n], colorEnabled), ops[n], colorEnabled);
    }
  }

  /** The loop of handleProppatch. What it collects, applied in one update to any metadata, is every
      operation in turn; and a property is collected exactly when some operation names it. */
  method CollectOps(ops: seq<PropOp>, colorEnabled: bool) returns (p: Pending, supported: seq<XmlName>, unsupported: seq<XmlName>)
    ensures forall m :: UpdateMetadata(m, p.displayName, p.description, p.color) == ApplyEach(m, ops, colorEnabled)
    ensures supported == Names(ops, colorEnabled, true) && unsupported == Names(ops, colorEnabled, false)
    ensures p == Pending(None, None, None) <==> supported == []
    ensures Collected(ops, DISPLAYNAME, p.displayName) && Collected(ops, DESCRIPTION, p.description)
    ensures if colorEnabled then Collected(ops, COLOR, p.color) else p.color.None?
  {
    p, supported, unsupported := Pending(None, None, None), [], [];
    for i := 0 to |ops|
      invariant PendingOk(ops[..i], colorEnabled, p)
      invariant supported == Names(ops[..i], colorEnabled, true) && unsupported == Names(ops[..i], colorEnabled, false)
      invariant p == Pending(None, None, None) <==> supported == []
    {
      assert ops[..i + 1][..i] == ops[..i];
      var op := ops[i];
      ghost var before := p;
      if op.name == DISPLAYNAME {
        supported := supported + [op.name];
        p := p.(displayName := Some(if op.remove then "" else op.value));
      } else if op.name == DESCRIPTION {
        supported := supported + [op.name];
        p := p.(description := Some(if op.remove then "" else op.value));
      } else if op.name == COLOR && colorEnabled {
        supported := supported + [op.name];
        p := p.(color := Some(if op.remove then "" else op.value));
      } else {
        unsupported := unsupported + [op.name];
      }
      PendingMore(ops, i, colorEnabled, before, p);
    }
    assert ops[..|ops|] == ops;
  }

  datatype Response = BadRequest | Missing | MultiStatus(ok: seq<XmlName>, forbidden: seq<XmlName>)

  predicate TooLarge(v: Option<string>, max: nat) { v.Some? && |v.value| > max }

  /** What the handler is set up with: nothing, a backend that cannot change metadata, or one that can. */
  datatype BackendKind = NoBackend | WithoutMetadata | WithMetadata

  /** When handleProppatch succeeds and what it does to the store: a value that is too long is refused, a
      missing addressbook is reported if there is something to store, all else succeeds. On success the book's metadata is what the operations
      give one by one, and every other book and field stays; on failure, without a supported
      property or without a backend that can change metadata nothing changes. */
  method HandleProppatch(store: Store, backend: BackendKind, name: Name, ops: seq<PropOp>, colorEnabled: bool) returns (res: Response)
    requires store.Valid()
    modifies store
    ensures store.Valid()
    ensures res == BadRequest <==> Oversized(ops, colorEnabled)
    ensures res == Missing <==>
      (&& !Oversized(ops, colorEnabled) && backend.WithMetadata?
       && !(name in old(store.names) && old(store.names)[name] in old(store.books))
       && exists i :: 0 <= i < |ops| && (|| ops[i].name == XmlName("DAV:", "displayname")
                                         || ops[i].name == XmlName("urn:ietf:params:xml:ns:carddav", "addressbook-description")
                                         || (colorEnabled && ops[i].name == XmlName("http://inf-it.com/ns/ab/", "addressbook-color"))))
    ensures !res.MultiStatus? ==> store.State() == old(store.State())
    ensures res.MultiStatus? ==>
      var supported, unsupported := Names(ops, colorEnabled, true), Names(ops, colorEnabled, false);
      res == if backend.WithoutMetadata? then MultiStatus([], supported + unsupported) else MultiStatus(supported, unsupported)
    ensures res.MultiStatus? && (Names(ops, colorEnabled, true) == [] || !backend.WithMetadata?) ==> store.State() == old(store.State())
    ensures res.MultiStatus? && Names(ops, colorEnabled, true) != [] && backend.WithMetadata? ==>
      && name in old(store.names) && old(store.names)[name] in old(store.books)
      && var id := old(store.names)[name];
         var b := old(store.books)[id];
         store.State() == old(store.State()).(books := old(store.books)[id := b.(meta := ApplyEach(b.meta, ops, colorEnabled))])
  {
    var p, supported, unsupported := CollectOps(ops, colorEnabled);
    CollectedTooLong(ops, DISPLAYNAME, p.displayName, 256);
    CollectedTooLong(ops, DESCRIPTION, p.description, 4096);
    if colorEnabled { CollectedTooLong(ops, COLOR, p.color, 64); }
    SomethingCollected(ops, colorEnabled, p);
    if TooLarge(p.displayName, MAX_DISPLAYNAME) { return BadRequest; }
    if TooLarge(p.description, MAX_DESCRIPTION) { return BadRequest; }
    if TooLarge(p.color, MAX_COLOR) { return BadRequest; }
    if (p.displayName.Some? || p.description.Some? || p.color.Some?) && !backend.NoBackend? {
      if backend.WithoutMetadata? {
        unsupported := supported + unsupported;
        supported := [];
      } else {
        var r := store.UpdateAddressbookMetadata(name, p.displayName, p.description, p.color);
        if r.Err? { return Missing; }
      }
    }
    return MultiStatus(supported, unsupported);
  }
}
