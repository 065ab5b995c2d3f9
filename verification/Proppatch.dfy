/** The PROPPATCH body parser over XML tokens, and what it means on the tree the tokens spell
    (internal/server/handler.go; section 9.2 of RFC 4918). */
module Proppatch {
  import opened Basics
  import opened SyncTokens

  datatype XmlName = XmlName(space: string, local: string)

  datatype Token = StartElement(name: XmlName) | EndElement(name: XmlName) | CharData(text: string) | Other

  /** A forest in first-child, next-sibling form. Misc stands for comments, directives and
      processing instructions. */
  datatype Forest =
    | End
    | Element(name: XmlName, children: Forest, rest: Forest)
    | Text(text: string, rest: Forest)
    | Misc(rest: Forest)

  function Tokens(f: Forest): seq<Token> {
    match f
    case End => []
    case Element(name, children, rest) => [StartElement(name)] + Tokens(children) + [EndElement(name)] + Tokens(rest)
    case Text(text, rest) => [CharData(text)] + Tokens(rest)
    case Misc(rest) => [Other] + Tokens(rest)
  }

  const DAV := "DAV:"
  const PROPERTYUPDATE := XmlName(DAV, "propertyupdate")
  const SET := XmlName(DAV, "set")
  const REMOVE := XmlName(DAV, "remove")
  const PROP := XmlName(DAV, "prop")

  datatype PropOp = PropOp(name: XmlName, remove: bool, value: string)

  // ---- Meaning on the tree ----

  /** The character data directly inside an element, as decoding into a string collects it. */
  function DirectText(f: Forest): string {
    match f
    case End => ""
    case Element(_, _, rest) => DirectText(rest)
    case Text(text, rest) => text + DirectText(rest)
    case Misc(rest) => DirectText(rest)
  }

  /** The children of a prop element: one operation each, in document order. */
  function PropOps(f: Forest, remove: bool): seq<PropOp> {
    match f
    case End => []
    case Element(name, children, rest) =>
      [PropOp(name, remove, if remove then "" else DirectText(children))] + PropOps(rest, remove)
    case Text(_, rest) => PropOps(rest, remove)
    case Misc(rest) => PropOps(rest, remove)
  }

  /** The children of a set or remove element: only prop elements. */
  function BlockOps(f: Forest, remove: bool): Option<seq<PropOp>> {
    match f
    case End => Some([])
    case Element(name, children, rest) =>
      if name != PROP || BlockOps(rest, remove).None? then None
      else Some(PropOps(children, remove) + BlockOps(rest, remove).value)
    case Text(_, rest) => BlockOps(rest, remove)
    case Misc(rest) => BlockOps(rest, remove)
  }

  /** The children of the root: only set and remove elements. */
  function UpdateOps(f: Forest): Option<seq<PropOp>> {
    match f
    case End => Some([])
    case Element(name, children, rest) =>
      if name != SET && name != REMOVE then None
      else
        var block, more := BlockOps(children, name == REMOVE), UpdateOps(rest);
        if block.None? || more.None? then None else Some(block.value + more.value)
    case Text(_, rest) => UpdateOps(rest)
    case Misc(rest) => UpdateOps(rest)
  }

  function RootCount(f: Forest): nat {
    match f
    case End => 0
    case Element(_, _, rest) => 1 + RootCount(rest)
    case Text(_, rest) => RootCount(rest)
    case Misc(rest) => RootCount(rest)
  }

  predicate BlankOutside(f: Forest) {
    match f
    case End => true
    case Element(_, _, rest) => BlankOutside(rest)
    case Text(text, rest) => TrimSpace(text) == "" && BlankOutside(rest)
    case Misc(rest) => BlankOutside(rest)
  }

  /** The first root, as a forest of its own. */
  function FirstRoot(f: Forest): (root: Forest)
    requires RootCount(f) > 0
    ensures root.Element?
  {
    match f
    case Element(_, _, _) => f
    case Text(_, rest) => FirstRoot(rest)
    case Misc(rest) => FirstRoot(rest)
  }

  /** A property update: one propertyupdate root with well-formed set and remove blocks, at least
      one property, and no text outside the root. */
  function Meaning(f: Forest): Option<seq<PropOp>> {
    if RootCount(f) != 1 || !BlankOutside(f) || FirstRoot(f).name != PROPERTYUPDATE then None
    else
      var ops := UpdateOps(FirstRoot(f).children);
      if ops == Some([]) then None else ops
  }

  // ---- The token machine ----

  /** From inside an element to behind its end, collecting its direct text (DecodeElement, Skip).
      None when the tokens run out. */
  function ReadContent(ts: seq<Token>, depth: nat, text: string): (r: Option<(string, seq<Token>)>)
    requires depth >= 1
    ensures r.Some? ==> |r.value.1| < |ts|
  {
    if ts == [] then None
    else
      match ts[0]
      case StartElement(_) => ReadContent(ts[1..], depth + 1, text)
      case EndElement(_) => if depth == 1 then Some((text, ts[1..])) else ReadContent(ts[1..], depth - 1, text)
      case CharData(s) => ReadContent(ts[1..], depth, if depth == 1 then text + s else text)
      case Other => ReadContent(ts[1..], depth, text)
  }

  datatype Mode = NoMode | SetMode | RemoveMode

  datatype Machine = Machine(rootSeen: bool, depth: nat, inProp: bool, mode: Mode, ops: seq<PropOp>)

  const START := Machine(false, 0, false, NoMode, [])

  function Parse(ts: seq<Token>, m: Machine): Option<Machine>
    decreases |ts|
  {
    if ts == [] then Some(m)
    else
      match ts[0]
      case StartElement(name) =>
        if !m.rootSeen then
          if name != PROPERTYUPDATE then None else Parse(ts[1..], m.(rootSeen := true, depth := 1))
        else if m.depth == 1 && (name == SET || name == REMOVE) then
          Parse(ts[1..], m.(mode := if name == SET then SetMode else RemoveMode, depth := 2))
        else if m.depth == 1 then None
        else if m.depth == 2 && m.mode != NoMode && name == PROP then Parse(ts[1..], m.(inProp := true, depth := 3))
        else if m.depth == 2 && m.mode != NoMode then None
        else if m.inProp && m.depth == 3 then
          var content := ReadContent(ts[1..], 1, "");
          if content.None? then None
          else
            var remove := m.mode == RemoveMode;
            var value := if m.mode == SetMode then content.value.0 else "";
            Parse(content.value.1, m.(ops := m.ops + [PropOp(name, remove, value)]))
        else Parse(ts[1..], m.(depth := m.depth + 1))
      case EndElement(name) =>
        Parse(ts[1..], Machine(m.rootSeen, if m.depth > 0 then m.depth - 1 else 0,
                               m.inProp && name != PROP,
                               if m.depth == 2 && (name == SET || name == REMOVE) then NoMode else m.mode, m.ops))
      case CharData(_) => Parse(ts[1..], m)
      case Other => Parse(ts[1..], m)
  }

  datatype Validator = Validator(rootSeen: bool, rootClosed: bool, depth: nat)

  predicate Validate(ts: seq<Token>, v: Validator) {
    ts == [] ||
    match ts[0]
    case StartElement(_) =>
      if v.depth == 0 && v.rootSeen && v.rootClosed then false
      else Validate(ts[1..], Validator(v.rootSeen || v.depth == 0, v.rootClosed, v.depth + 1))
    case EndElement(_) =>
      if v.depth == 0 then Validate(ts[1..], v)
      else Validate(ts[1..], Validator(v.rootSeen, v.rootClosed || (v.depth == 1 && v.rootSeen), v.depth - 1))
    case CharData(text) => (v.depth > 0 || TrimSpace(text) == "") && Validate(ts[1..], v)
    case Other => Validate(ts[1..], v)
  }

  // ---- The loops of the source ----

  method ReadElement(tokens: seq<Token>, from: nat) returns (text: string, next: nat, ok: bool)
    requires from <= |tokens|
    ensures var r := ReadContent(tokens[from..], 1, "");
      if ok then from < next <= |tokens| && r == Some((text, tokens[next..])) else r.None?
  {
    var depth := 1;
    text, next := "", from;
    while next < |tokens|
      invariant from <= next <= |tokens| && depth >= 1
      invariant ReadContent(tokens[next..], depth, text) == ReadContent(tokens[from..], 1, "")
    {
      var t := tokens[next];
      assert tokens[next..][1..] == tokens[next + 1..];
      next := next + 1;
      match t {
        case StartElement(_) => depth := depth + 1;
        case EndElement(_) =>
          if depth == 1 { return text, next, true; }
          depth := depth - 1;
        case CharData(s) => if depth == 1 { text := text + s; }
        case Other =>
      }
    }
    ok := false;
  }

  method ValidateSingleXMLDocument(tokens: seq<Token>) returns (ok: bool)
    ensures ok <==> Validate(tokens, Validator(false, false, 0))
  {
    var rootSeen, rootClosed, depth: nat := false, false, 0;
    for i := 0 to |tokens|
      invariant Validate(tokens[i..], Validator(rootSeen, rootClosed, depth)) <==> Validate(tokens, Validator(false, false, 0))
    {
      assert tokens[i..][1..] == tokens[i + 1..];
      match tokens[i] {
        case StartElement(_) =>
          if depth == 0 {
            if rootSeen && rootClosed { return false; }
            rootSeen := true;
          }
          depth := depth + 1;
        case EndElement(_) =>
          if depth > 0 {
            depth := depth - 1;
            if depth == 0 && rootSeen { rootClosed := true; }
          }
        case CharData(text) => if depth == 0 && TrimSpace(text) != "" { return false; }
        case Other =>
      }
    }
    return true;
  }

  method ParseProppatchRequest(tokens: seq<Token>) returns (r: Option<seq<PropOp>>)
    ensures r ==
      var m := Parse(tokens, START);
      if m.Some? && m.value.rootSeen && m.value.ops != [] && Validate(tokens, Validator(false, false, 0)) then Some(m.value.ops) else None
    ensures forall f :: tokens == Tokens(f) ==> r == Meaning(f)
  {
    forall f | tokens == Tokens(f) { ParserMeansTree(f); }
    var rootSeen, depth: nat, inProp, mode, ops := false, 0, false, NoMode, [];
    var i := 0;
    while i < |tokens|
      invariant 0 <= i <= |tokens|
      invariant Parse(tokens[i..], Machine(rootSeen, depth, inProp, mode, ops)) == Parse(tokens, START)
    {
      var t := tokens[i];
      assert tokens[i..][1..] == tokens[i + 1..];
      i := i + 1;
      match t {
        case StartElement(name) =>
          if !rootSeen {
            rootSeen := true;
            if name != PROPERTYUPDATE { return None; }
            depth := 1;
          } else if depth == 1 && (name == SET || name == REMOVE) {
            mode := if name == SET then SetMode else RemoveMode;
            depth := depth + 1;
          } else if depth == 1 {
            return None;
          } else if depth == 2 && mode != NoMode && name == PROP {
            inProp := true;
            depth := depth + 1;
          } else if depth == 2 && mode != NoMode {
            return None;
          } else if inProp && depth == 3 {
            var text, next, ok := ReadElement(tokens, i);
            if !ok { return None; }
            ops := ops + [PropOp(name, mode == RemoveMode, if mode == SetMode then text else "")];
            i := next;
          } else {
            depth := depth + 1;
          }
        case EndElement(name) =>
          if inProp && name == PROP { inProp := false; }
          if depth == 2 && (name == SET || name == REMOVE) { mode := NoMode; }
          if depth > 0 { depth := depth - 1; }
        case CharData(_) =>
        case Other =>
      }
    }
    if !rootSeen { return None; }
    if ops == [] { return None; }
    var single := ValidateSingleXMLDocument(tokens);
    return if single then Some(ops) else None;
  }

  // ---- The machine means the tree ----

  lemma {:induction false} ReadsForest(f: Forest, ts: seq<Token>, depth: nat, text: string)
    requires depth >= 1
    ensures ReadContent(Tokens(f) + ts, depth, text) == ReadContent(ts, depth, if depth == 1 then text + DirectText(f) else text)
  {
    var all := Tokens(f) + ts;
    match f
    case End =>
      assert all == ts && text + "" == text;
    case Element(name, children, rest) =>
      var tail := [EndElement(name)] + (Tokens(rest) + ts);
      assert all[1..] == Tokens(children) + tail;
      ReadsForest(children, tail, depth + 1, text);
      assert tail[1..] == Tokens(rest) + ts;
      ReadsForest(rest, ts, depth, text);
    case Text(s, rest) =>
      assert all[1..] == Tokens(rest) + ts;
      ReadsForest(rest, ts, depth, if depth == 1 then text + s else text);
      assert (text + s) + DirectText(rest) == text + (s + DirectText(rest));
    case Misc(rest) =>
      assert all[1..] == Tokens(rest) + ts;
      ReadsForest(rest, ts, depth, text);
  }

  lemma ReadsElement(name: XmlName, children: Forest, ts: seq<Token>)
    ensures ReadContent(Tokens(children) + ([EndElement(name)] + ts), 1, "") == Some((DirectText(children), ts))
  {
    ReadsForest(children, [EndElement(name)] + ts, 1, "");
    assert ([EndElement(name)] + ts)[1..] == ts && "" + DirectText(children) == DirectText(children);
  }

  /** One property element, from its start tag to behind its end. */
  lemma ParsesOneProp(name: XmlName, children: Forest, ts: seq<Token>, m: Machine)
    requires m.rootSeen && m.depth == 3 && m.inProp && m.mode != NoMode
    ensures var remove := m.mode == RemoveMode;
      Parse([StartElement(name)] + (Tokens(children) + ([EndElement(name)] + ts)), m) ==
        Parse(ts, m.(ops := m.ops + [PropOp(name, remove, if remove then "" else DirectText(children))]))
  {
    var all := [StartElement(name)] + (Tokens(children) + ([EndElement(name)] + ts));
    assert all[1..] == Tokens(children) + ([EndElement(name)] + ts);
    ReadsElement(name, children, ts);
  }

  lemma ElementTokens(name: XmlName, children: Forest, rest: Forest, ts: seq<Token>)
    ensures Tokens(Element(name, children, rest)) + ts
      == [StartElement(name)] + (Tokens(children) + ([EndElement(name)] + (Tokens(rest) + ts)))
  {}

  lemma FirstPropOp(ops: seq<PropOp>, name: XmlName, children: Forest, rest: Forest, remove: bool)
    ensures ops + [PropOp(name, remove, if remove then "" else DirectText(children))] + PropOps(rest, remove)
      == ops + PropOps(Element(name, children, rest), remove)
  {}

  lemma {:induction false} ParsesProp(f: Forest, ts: seq<Token>, m: Machine)
    requires m.rootSeen && m.depth == 3 && m.inProp && m.mode != NoMode
    ensures Parse(Tokens(f) + ts, m) == Parse(ts, m.(ops := m.ops + PropOps(f, m.mode == RemoveMode)))
    decreases f
  {
    var all := Tokens(f) + ts;
    match f
    case End =>
      assert all == ts && m.ops + [] == m.ops;
    case Element(name, children, rest) =>
      var remove := m.mode == RemoveMode;
      var op := PropOp(name, remove, if remove then "" else DirectText(children));
      ElementTokens(name, children, rest, ts);
      ParsesOneProp(name, children, Tokens(rest) + ts, m);
      ParsesProp(rest, ts, m.(ops := m.ops + [op]));
      FirstPropOp(m.ops, name, children, rest, remove);
    case Text(_, rest) =>
      assert all[1..] == Tokens(rest) + ts;
      ParsesProp(rest, ts, m);
    case Misc(rest) =>
      assert all[1..] == Tokens(rest) + ts;
      ParsesProp(rest, ts, m);
  }

  /** One prop element, from its start tag to behind its end. */
  lemma ParsesPropElement(children: Forest, ts: seq<Token>, m: Machine)
    requires m.rootSeen && m.depth == 2 && !m.inProp && m.mode != NoMode
    ensures Parse([StartElement(PROP)] + (Tokens(children) + ([EndElement(PROP)] + ts)), m) ==
      Parse(ts, m.(ops := m.ops + PropOps(children, m.mode == RemoveMode)))
  {
    var tail := [EndElement(PROP)] + ts;
    var all := [StartElement(PROP)] + (Tokens(children) + tail);
    assert all[1..] == Tokens(children) + tail;
    ParsesProp(children, tail, m.(inProp := true, depth := 3));
    assert tail[1..] == ts;
  }

  lemma {:induction false} ParsesBlock(f: Forest, ts: seq<Token>, m: Machine)
    requires m.rootSeen && m.depth == 2 && !m.inProp && m.mode != NoMode
    ensures var ops := BlockOps(f, m.mode == RemoveMode);
      Parse(Tokens(f) + ts, m) == if ops.None? then None else Parse(ts, m.(ops := m.ops + ops.value))
    decreases f
  {
    var all := Tokens(f) + ts;
    match f
    case End =>
      assert all == ts && m.ops + [] == m.ops;
    case Element(name, children, rest) =>
      if name == PROP {
        var remove := m.mode == RemoveMode;
        var m1 := m.(ops := m.ops + PropOps(children, remove));
        assert all == [StartElement(PROP)] + (Tokens(children) + ([EndElement(PROP)] + (Tokens(rest) + ts)));
        ParsesPropElement(children, Tokens(rest) + ts, m);
        ParsesBlock(rest, ts, m1);
        if BlockOps(rest, remove).Some? {
          assert m1.ops + BlockOps(rest, remove).value == m.ops + BlockOps(f, remove).value;
        }
      }
    case Text(_, rest) =>
      assert all[1..] == Tokens(rest) + ts;
      ParsesBlock(rest, ts, m);
    case Misc(rest) =>
      assert all[1..] == Tokens(rest) + ts;
      ParsesBlock(rest, ts, m);
  }

  /** One set or remove element, from its start tag to behind its end. */
  lemma ParsesBlockElement(name: XmlName, children: Forest, ts: seq<Token>, m: Machine)
    requires m.rootSeen && m.depth == 1 && !m.inProp && m.mode == NoMode && (name == SET || name == REMOVE)
    ensures var block := BlockOps(children, name == REMOVE);
      Parse([StartElement(name)] + (Tokens(children) + ([EndElement(name)] + ts)), m) ==
        if block.None? then None else Parse(ts, m.(ops := m.ops + block.value))
  {
    var tail := [EndElement(name)] + ts;
    var all := [StartElement(name)] + (Tokens(children) + tail);
    assert all[1..] == Tokens(children) + tail;
    ParsesBlock(children, tail, m.(mode := if name == SET then SetMode else RemoveMode, depth := 2));
    assert tail[1..] == ts;
  }

  lemma {:induction false} ParsesUpdate(f: Forest, ts: seq<Token>, m: Machine)
    requires m.rootSeen && m.depth == 1 && !m.inProp && m.mode == NoMode
    ensures var ops := UpdateOps(f);
      Parse(Tokens(f) + ts, m) == if ops.None? then None else Parse(ts, m.(ops := m.ops + ops.value))
    decreases f
  {
    var all := Tokens(f) + ts;
    match f
    case End =>
      assert all == ts && m.ops + [] == m.ops;
    case Element(name, children, rest) =>
      if name == SET || name == REMOVE {
        var block := BlockOps(children, name == REMOVE);
        assert all == [StartElement(name)] + (Tokens(children) + ([EndElement(name)] + (Tokens(rest) + ts)));
        ParsesBlockElement(name, children, Tokens(rest) + ts, m);
        if block.Some? {
          ParsesUpdate(rest, ts, m.(ops := m.ops + block.value));
          if UpdateOps(rest).Some? {
            assert m.ops + block.value + UpdateOps(rest).value == m.ops + (block.value + UpdateOps(rest).value);
          }
        }
      }
    case Text(_, rest) =>
      assert all[1..] == Tokens(rest) + ts;
      ParsesUpdate(rest, ts, m);
    case Misc(rest) =>
      assert all[1..] == Tokens(rest) + ts;
      ParsesUpdate(rest, ts, m);
  }

  lemma {:induction false} ParsesNoElements(f: Forest, m: Machine)
    requires RootCount(f) == 0
    ensures Parse(Tokens(f), m) == Some(m)
  {
    match f
    case End =>
    case Text(_, rest) =>
      assert Tokens(f)[1..] == Tokens(rest);
      ParsesNoElements(rest, m);
    case Misc(rest) =>
      assert Tokens(f)[1..] == Tokens(rest);
      ParsesNoElements(rest, m);
  }

  lemma {:induction false} ParsesOneRoot(f: Forest)
    requires RootCount(f) == 1
    ensures var root := FirstRoot(f);
      Parse(Tokens(f), START) ==
        if root.name != PROPERTYUPDATE || UpdateOps(root.children).None? then None
        else Some(Machine(true, 0, false, NoMode, UpdateOps(root.children).value))
  {
    match f
    case Element(name, children, rest) =>
      if name == PROPERTYUPDATE {
        var tail := [EndElement(name)] + Tokens(rest);
        assert Tokens(f)[1..] == Tokens(children) + tail;
        ParsesUpdate(children, tail, START.(rootSeen := true, depth := 1));
        if UpdateOps(children).Some? {
          assert tail[1..] == Tokens(rest) && [] + UpdateOps(children).value == UpdateOps(children).value;
          ParsesNoElements(rest, Machine(true, 0, false, NoMode, UpdateOps(children).value));
        }
      }
    case Text(_, rest) =>
      assert Tokens(f)[1..] == Tokens(rest);
      ParsesOneRoot(rest);
    case Misc(rest) =>
      assert Tokens(f)[1..] == Tokens(rest);
      ParsesOneRoot(rest);
  }

  lemma {:induction false} ValidatesInside(f: Forest, ts: seq<Token>, v: Validator)
    requires v.depth >= 1
    ensures Validate(Tokens(f) + ts, v) <==> Validate(ts, v)
    decreases f
  {
    var all := Tokens(f) + ts;
    match f
    case End => assert all == ts;
    case Element(name, children, rest) =>
      var tail := [EndElement(name)] + (Tokens(rest) + ts);
      assert all[1..] == Tokens(children) + tail;
      ValidatesInside(children, tail, v.(depth := v.depth + 1));
      assert tail[1..] == Tokens(rest) + ts;
      ValidatesInside(rest, ts, v);
    case Text(_, rest) =>
      assert all[1..] == Tokens(rest) + ts;
      ValidatesInside(rest, ts, v);
    case Misc(rest) =>
      assert all[1..] == Tokens(rest) + ts;
      ValidatesInside(rest, ts, v);
  }

  /** Exactly the forests with at most one root and nothing but blanks outside it. */
  lemma {:induction false} ValidatesSingle(f: Forest, closed: bool)
    ensures Validate(Tokens(f), Validator(closed, closed, 0)) <==> RootCount(f) <= (if closed then 0 else 1) && BlankOutside(f)
    decreases f
  {
    match f
    case End =>
    case Element(name, children, rest) =>
      if !closed {
        var tail := [EndElement(name)] + Tokens(rest);
        assert Tokens(f)[1..] == Tokens(children) + tail;
        ValidatesInside(children, tail, Validator(true, false, 1));
        assert tail[1..] == Tokens(rest);
        ValidatesSingle(rest, true);
      }
    case Text(_, rest) =>
      assert Tokens(f)[1..] == Tokens(rest);
      ValidatesSingle(rest, closed);
    case Misc(rest) =>
      assert Tokens(f)[1..] == Tokens(rest);
      ValidatesSingle(rest, closed);
  }

  /** On the tokens of any well-nested document the parser succeeds exactly when the document is a
      property update, and returns its operations in document order. */
  lemma ParserMeansTree(f: Forest)
    ensures var m := Parse(Tokens(f), START);
      (if m.Some? && m.value.rootSeen && m.value.ops != [] && Validate(Tokens(f), Validator(false, false, 0)) then Some(m.value.ops) else None)
        == Meaning(f)
  {
    ValidatesSingle(f, false);
    if RootCount(f) == 1 {
      ParsesOneRoot(f);
    } else if RootCount(f) == 0 {
      ParsesNoElements(f, START);
    }
  }

  function Leaf(name: XmlName, text: string): Forest { Element(name, Text(text, End), End) }

  /** An update of one block means what the block's one prop element says. */
  lemma OneBlock(block: XmlName, props: Forest)
    requires block == XmlName("DAV:", "set") || block == XmlName("DAV:", "remove")
    requires PropOps(props, block == XmlName("DAV:", "remove")) != []
    ensures Meaning(Element(XmlName("DAV:", "propertyupdate"), Element(block, Element(XmlName("DAV:", "prop"), props, End), End), End))
      == Some(PropOps(props, block == XmlName("DAV:", "remove")))
  {
    var inner := Element(PROP, props, End);
    var update := Element(block, inner, End);
    var ops := PropOps(props, block == REMOVE);
    assert BlockOps(End, block == REMOVE) == Some([]) && ops + [] == ops;
    assert BlockOps(inner, block == REMOVE) == Some(ops);
    assert UpdateOps(End) == Some([]);
    assert UpdateOps(update) == Some(ops);
    var root := Element(PROPERTYUPDATE, update, End);
    assert RootCount(End) == 0 && BlankOutside(End);
    assert RootCount(root) == 1 && BlankOutside(root) && FirstRoot(root) == root;
  }

  /** One update, spelled out: what a set block and a remove block become. */
  lemma UpdateSpelledOut(p: XmlName, q: XmlName, text: string)
    ensures var setBlock := Element(XmlName("DAV:", "set"), Element(XmlName("DAV:", "prop"), Leaf(p, text), End), End);
      Meaning(Element(XmlName("DAV:", "propertyupdate"), setBlock, End)) == Some([PropOp(p, false, text)])
    ensures var removeBlock := Element(XmlName("DAV:", "remove"), Element(XmlName("DAV:", "prop"), Leaf(q, text), End), End);
      Meaning(Element(XmlName("DAV:", "propertyupdate"), removeBlock, End)) == Some([PropOp(q, true, "")])
  {
    assert DirectText(End) == "" && PropOps(End, false) == [] && PropOps(End, true) == [];
    assert DirectText(Text(text, End)) == text;
    assert PropOps(Leaf(p, text), false) == [PropOp(p, false, text)];
    assert PropOps(Leaf(q, text), true) == [PropOp(q, true, "")];
    OneBlock(SET, Leaf(p, text));
    OneBlock(REMOVE, Leaf(q, text));
  }
}
