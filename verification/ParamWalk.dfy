/** Reading back a printed walk over the tree: any sequence of steps down to a child and back up
    to a parent, printed node by node, sets exactly the nodes it enters to the printed values. */
module ParamWalk {
  import opened Options
  import opened ParamText
  import opened ParamTree

  /** A piece of a dump: a node entered, or the way back to its parent. */
  datatype Token = Enter(path: Path) | Up

  function TokenText(root: Node, d: Values, t: Token): string
    requires t.Enter? ==> IsNode(root, t.path)
  {
    match t
    case Enter(p) => NodeString(NodeAt(root, p), ValueAt(d, p)) + "/"
    case Up => "../"
  }

  predicate NodesOf(root: Node, tokens: seq<Token>) {
    forall i :: 0 <= i < |tokens| && tokens[i].Enter? ==> IsNode(root, tokens[i].path)
  }

  function TextOf(root: Node, d: Values, tokens: seq<Token>): string
    requires NodesOf(root, tokens)
    decreases |tokens|
  {
    if tokens == [] then "" else TokenText(root, d, tokens[0]) + TextOf(root, d, tokens[1..])
  }

  function Entered(tokens: seq<Token>): set<Path> {
    set i | 0 <= i < |tokens| && tokens[i].Enter? :: tokens[i].path
  }

  function Moved(p: Path, t: Token): Path {
    match t case Enter(q) => q case Up => if p == [] then [] else p[..|p| - 1]
  }

  predicate Steps(root: Node, p: Path, t: Token) {
    match t
    case Enter(q) => q != [] && q[..|q| - 1] == p && IsNode(root, q)
    case Up => p != []
  }

  /** Each step leads from the node reached so far to a child or to its parent. */
  predicate Walks(root: Node, p: Path, tokens: seq<Token>)
    decreases |tokens|
  {
    tokens == [] || (Steps(root, p, tokens[0]) && Walks(root, Moved(p, tokens[0]), tokens[1..]))
  }

  // ---------------------------------------------------------------- names and values

  predicate Plain(s: string) {
    '/' !in s && '<' !in s && '>' !in s && '[' !in s && ']' !in s
  }

  predicate ValidName(name: string) {
    1 <= |name| <= 16 && Plain(name) && !StartsWithUp(name)
  }

  predicate DistinctNames(children: seq<Node>) {
    forall i, j :: 0 <= i < j < |children| ==> children[i].name != children[j].name
  }

  ghost predicate WellNamed(root: Node) {
    forall p :: IsNode(root, p) ==> ValidName(NodeAt(root, p).name) && DistinctNames(NodeAt(root, p).children)
  }

  /** Nodes whose value a text can change. */
  predicate Settable(n: Node) {
    n.access == ReadWrite && n.vtype != NoType
  }

  function Lowest(t: VType): int {
    match t
    case NoType => 0 case UInt8 => 0 case UInt16 => 0 case UInt32 => 0
    case Int8 => -0x80 case Int16 => -0x8000 case Int32 => -0x8000_0000 case Fp16_16 => -0x8000_0000
  }

  function Highest(t: VType): int {
    match t
    case NoType => 0 case UInt8 => 0xFF case UInt16 => 0xFFFF case UInt32 => 0xFFFF_FFFF
    case Int8 => 0x7F case Int16 => 0x7FFF case Int32 => 0x7FFF_FFFF case Fp16_16 => 0x7FFF_FFFF
  }

  predicate InRange(t: VType, v: int) {
    Lowest(t) <= v <= Highest(t)
  }

  /** The values that survive printing and reading: they print in at most nine characters and
      are not the maximum of their type. */
  predicate Survives(t: VType, v: int) {
    |Decimal(v)| <= 9 && v < Highest(t)
  }

  ghost predicate Restorable(root: Node, d: Values) {
    forall p :: IsNode(root, p) && Settable(NodeAt(root, p)) ==>
      InRange(NodeAt(root, p).vtype, ValueAt(d, p)) && Survives(NodeAt(root, p).vtype, ValueAt(d, p))
  }

  // ---------------------------------------------------------------- one module

  lemma DigitsPlain(s: string)
    requires forall i :: 0 <= i < |s| ==> IsDigit(s[i]) || s[i] == '-'
    ensures Plain(s)
  {
  }

  lemma PrintedPlain(v: int)
    ensures Plain(Printed(v)) && |Printed(v)| <= 10
    ensures |Decimal(v)| <= 9 <==> |Printed(v)| <= 9
    ensures |Decimal(v)| <= 9 ==> Printed(v) == Decimal(v)
  {
    DigitsPlain(Decimal(v));
  }

  function TypeText(t: VType): (s: string)
    ensures |s| == 1 && Plain(s)
  {
    var s := Digits(TypeCode(t));
    DigitsPlain(s);
    s
  }

  ghost predicate ValueTail(tail: string) {
    tail == "" || exists value :: Plain(value) && tail == "[" + value + "]"
  }

  lemma PrefixMarks(name: string, t: string)
    requires Plain(name) && Plain(t)
    ensures var a := name + "<" + t;
            && '>' !in a && '[' !in a && ']' !in a && '/' !in a
            && '[' !in a + ">" && ']' !in a + ">" && '/' !in a + ">"
  {
  }

  /** Where the marks of a printed node stand. */
  lemma TypeMarks(name: string, t: string, tail: string)
    requires Plain(name) && Plain(t)
    ensures StrChr(name + "<" + t + ">" + tail, '<') == Some(|name|)
    ensures StrChr(name + "<" + t + ">" + tail, '>') == Some(|name| + 1 + |t|)
  {
    assert '<' !in name;
    PrefixMarks(name, t);
    hide StrChr, Plain;
    StrChrMark(name + "<" + t, '>', tail);
    assert name + "<" + t + ">" + tail == name + "<" + (t + ">" + tail);
    StrChrMark(name, '<', t + ">" + tail);
  }

  lemma TailMarks(name: string, t: string, tail: string, c: char)
    requires Plain(name) && Plain(t) && c in "[]/"
    ensures StrChr(name + "<" + t + ">" + tail, c)
         == match StrChr(tail, c) case None => None case Some(k) => Some(|name| + |t| + 2 + k)
  {
    PrefixMarks(name, t);
    hide StrChr, Plain;
    StrChrPast(name + "<" + t + ">", tail, c);
  }

  lemma MarksOfTail(tail: string)
    requires ValueTail(tail)
    ensures StrChr(tail, '/') == None
    ensures StrChr(tail, '[') == if tail == "" then None else Some(0)
    ensures StrChr(tail, ']') == if tail == "" then None else Some(|tail| - 1)
  {
    if tail != "" {
      hide StrChr;
      var value :| Plain(value) && tail == "[" + value + "]";
      BracketMarks(value);
    }
  }

  lemma {:induction false} BracketMarks(value: string)
    requires Plain(value)
    ensures var tail := "[" + value + "]";
            && StrChr(tail, '/') == None && StrChr(tail, '[') == Some(0) && StrChr(tail, ']') == Some(|tail| - 1)
  {
    var tail := "[" + value + "]";
    assert '/' !in tail && ']' !in "[" + value;
    hide StrChr, Plain;
    StrChrAbsent(tail, '/');
    assert tail == [] + ['['] + (value + "]");
    StrChrMark([], '[', value + "]");
    assert tail == ("[" + value) + [']'] + [];
    StrChrMark("[" + value, ']', []);
  }

  function Tail(n: Node, v: int): (s: string)
    ensures n.vtype.NoType? ==> s == ""
    ensures !n.vtype.NoType? ==> s == "[" + Printed(v) + "]"
  {
    if n.vtype.NoType? then "" else "[" + Printed(v) + "]"
  }

  lemma NodeMarks(n: Node, v: int)
    requires ValidName(n.name)
    ensures NodeString(n, v) == n.name + "<" + TypeText(n.vtype) + ">" + Tail(n, v)
    ensures |NodeString(n, v)| == |n.name| + 3 + |Tail(n, v)| <= 31
    ensures StrChr(NodeString(n, v), '/') == None
    ensures StrChr(NodeString(n, v), '<') == Some(|n.name|)
    ensures StrChr(NodeString(n, v), '>') == Some(|n.name| + 2)
    ensures StrChr(NodeString(n, v), '[') == if n.vtype.NoType? then None else Some(|n.name| + 3)
    ensures StrChr(NodeString(n, v), ']') == if n.vtype.NoType? then None else Some(|n.name| + 4 + |Printed(v)|)
  {
    PrintedPlain(v);
    hide StrChr, Printed, Plain, Digits;
    assert Tail(n, v) != "" ==> Tail(n, v) == "[" + Printed(v) + "]";
    assert Plain(n.name);
    TypeMarks(n.name, TypeText(n.vtype), Tail(n, v));
    TailMarks(n.name, TypeText(n.vtype), Tail(n, v), '[');
    TailMarks(n.name, TypeText(n.vtype), Tail(n, v), ']');
    TailMarks(n.name, TypeText(n.vtype), Tail(n, v), '/');
    MarksOfTail(Tail(n, v));
  }

  /** A printed node, followed by anything, is cut off as one module. */
  lemma ModuleOfNode(n: Node, v: int, rest: string)
    requires ValidName(n.name)
    ensures ModuleString(MAX_PARAM_NODE_LENGTH, NodeString(n, v) + "/" + rest) == Some((NodeString(n, v), rest))
  {
    NodeMarks(n, v);
    hide StrChr, NodeString, ModuleString;
    ModuleCut(MAX_PARAM_NODE_LENGTH, NodeString(n, v), rest);
  }

  function ValueText(n: Node, v: int): string {
    if !n.vtype.NoType? && |Decimal(v)| <= 9 then Decimal(v) else ""
  }

  lemma NodeSlices(name: string, t: string, tail: string)
    requires |t| == 1
    ensures var text := name + "<" + t + ">" + tail;
            && text[..|name|] == name
            && text[|name| + 1..|name| + 2] == t
            && text[|name| + 3..] == tail
  {
  }

  lemma NameOfNode(n: Node, v: int)
    requires ValidName(n.name)
    ensures NameString(17, NodeString(n, v)) == Some(n.name)
  {
    NodeMarks(n, v);
    NodeSlices(n.name, TypeText(n.vtype), Tail(n, v));
    hide StrChr, NodeString, Plain, TypeText, Tail;
  }

  lemma TypeOfNode(n: Node, v: int)
    requires ValidName(n.name)
    ensures StringBetween(4, NodeString(n, v), '<', '>') == Some(TypeText(n.vtype))
  {
    hide StrChr, StringBetween, NodeString, ValidName, TypeText, Tail;
    NodeMarks(n, v);
    NodeSlices(n.name, TypeText(n.vtype), Tail(n, v));
    BetweenMarks(4, NodeString(n, v), '<', '>', |n.name|, |n.name| + 2);
  }

  lemma ValueOfNode(n: Node, v: int)
    requires ValidName(n.name)
    ensures OrEmpty(StringBetween(11, NodeString(n, v), '[', ']')) == ValueText(n, v)
  {
    PrintedPlain(v);
    var before := n.name + "<" + TypeText(n.vtype) + ">";
    if n.vtype.NoType? {
      NodeMarks(n, v);
    } else {
      PrefixMarks(n.name, TypeText(n.vtype));
      NodeText(n, v);
      assert ']' !in Printed(v);
      hide StringBetween, NodeString, Plain, TypeText, Printed, Decimal;
      BetweenCut(11, before, Printed(v), '[', ']');
    }
  }

  lemma NodeText(n: Node, v: int)
    requires !n.vtype.NoType?
    ensures NodeString(n, v) == n.name + "<" + TypeText(n.vtype) + ">" + "[" + Printed(v) + "]"
  {
    hide Printed;
  }

  lemma TypeTextReads(t: VType)
    ensures StrToL(TypeText(t)) == TypeCode(t)
  {
    ReadDigitsOfDigits(TypeCode(t));
  }

  /** Updating a node from a printed copy of itself sets it to the printed value text, which is
      empty when the number has more than nine characters. */
  lemma UpdateFromPrinted(n: Node, current: int, v: int)
    requires ValidName(n.name)
    ensures UpdateCurrent(n, current, NodeString(n, v)) == SetValue(n, current, ValueText(n, v))
  {
    hide NameString, StringBetween, NodeString, SetValue, ValueText, StrToL;
    NameOfNode(n, v);
    TypeOfNode(n, v);
    ValueOfNode(n, v);
    TypeTextReads(n.vtype);
  }

  /** Printing a value and setting a node of its type from it gives the value back, whatever
      the node held, exactly when the value survives. */
  lemma NodeRoundTrip(n: Node, v: int)
    requires ValidName(n.name) && Settable(n) && InRange(n.vtype, v)
    ensures (forall current :: UpdateCurrent(n, current, NodeString(n, v)) == Some(v)) <==> Survives(n.vtype, v)
  {
    hide UpdateCurrent, NodeString, StrToL, Decimal, Accepted, Highest, InRange, ValidName;
    forall current
      ensures UpdateCurrent(n, current, NodeString(n, v))
           == if |Decimal(v)| <= 9 then Accepted(n.vtype, v) else Some(current)
    {
      UpdateFromPrinted(n, current, v);
      StrToLOfDecimal(v);
    }
    AcceptedBelowHighest(n.vtype, v);
    if |Decimal(v)| <= 9 {
      assert UpdateCurrent(n, 0, NodeString(n, v)) == Accepted(n.vtype, v);
    } else {
      assert UpdateCurrent(n, v + 1, NodeString(n, v)) == Some(v + 1);
    }
  }

  /** A type takes the values of its range as they are, but for its maximum. */
  lemma AcceptedBelowHighest(t: VType, v: int)
    requires t != NoType && InRange(t, v)
    ensures Accepted(t, v) == Some(v) <==> v < Highest(t)
  {
  }

  // ---------------------------------------------------------------- a whole walk

  /** Exactly the settable nodes of `entered` have their value from d, the others keep v. */
  ghost predicate Overlaid(root: Node, v: Values, d: Values, entered: set<Path>, v': Values) {
    forall p :: IsNode(root, p) ==>
      ValueAt(v', p) == if p in entered && Settable(NodeAt(root, p)) then ValueAt(d, p) else ValueAt(v, p)
  }

  lemma {:induction false} FindChildAt(children: seq<Node>, i: nat)
    requires i < |children| && DistinctNames(children)
    ensures FindChild(children, children[i].name) == Some(i)
    decreases |children|
  {
    if i > 0 {
      FindChildAt(children[1..], i - 1);
    }
  }

  /** Entering a child: it is found by name and set from the printed value text. */
  lemma EnterFinds(root: Node, p: Path, q: Path, values: Values, d: Values)
    requires WellNamed(root) && IsNode(root, p) && Steps(root, p, Enter(q))
    ensures ValidName(NodeAt(root, q).name)
    ensures var n, mod := NodeAt(root, q), NodeString(NodeAt(root, q), ValueAt(d, q));
            && FindNext(root, p, mod) == Some(q)
            && UpdateCurrent(n, ValueAt(values, q), mod) == SetValue(n, ValueAt(values, q), ValueText(n, ValueAt(d, q)))
  {
    var i := q[|q| - 1];
    assert q == p + [i];
    ChildAt(root, p, i);
    var n, v := NodeAt(root, q), ValueAt(d, q);
    assert ValidName(n.name) && !StartsWithUp(n.name) && DistinctNames(NodeAt(root, p).children);
    hide UpdateCurrent, NodeString, NameString, WellNamed, NodeAt, FindChild, ValidName, SetValue, ValueText;
    FindChildAt(NodeAt(root, p).children, i);
    NameOfNode(n, v);
    UpdateFromPrinted(n, ValueAt(values, q), v);
  }

  /** A child whose value survives takes the printed value. */
  lemma EnterStep(root: Node, p: Path, q: Path, values: Values, d: Values)
    requires WellNamed(root) && Restorable(root, d) && IsNode(root, p) && Steps(root, p, Enter(q))
    ensures var mod := NodeString(NodeAt(root, q), ValueAt(d, q));
            && FindNext(root, p, mod) == Some(q)
            && UpdateCurrent(NodeAt(root, q), ValueAt(values, q), mod)
            == Some(if Settable(NodeAt(root, q)) then ValueAt(d, q) else ValueAt(values, q))
  {
    EnterFinds(root, p, q, values, d);
    var n, v := NodeAt(root, q), ValueAt(d, q);
    assert Settable(n) ==> InRange(n.vtype, v) && Survives(n.vtype, v);
    hide UpdateCurrent, NodeString, FindNext, WellNamed, Restorable, NodeAt, ValidName, InRange, Survives;
    if Settable(n) {
      NodeRoundTrip(n, v);
    }
  }

  lemma UpStep(root: Node, p: Path, values: Values)
    requires IsNode(root, p) && p != []
    ensures var q := p[..|p| - 1];
            && IsNode(root, q)
            && FindNext(root, p, "..") == Some(q)
            && UpdateCurrent(NodeAt(root, q), ValueAt(values, q), "..") == Some(ValueAt(values, q))
  {
    hide StrChr, StringBetween, NameString, NodeAt;
    UpModule("");
    ParentAt(root, p);
  }

  lemma UpModule(rest: string)
    ensures ModuleString(MAX_PARAM_NODE_LENGTH, "../" + rest) == Some(("..", rest))
    ensures NameString(17, "..") == Some("..")
    ensures StringBetween(4, "..", '<', '>') == None && StringBetween(11, "..", '[', ']') == None
  {
    StrChrAt("../" + rest, '/', 2);
    assert ("../" + rest)[..2] == ".." && ("../" + rest)[3..] == rest;
    assert StrChr("..", '<') == None && StrChr("..", '[') == None && StrChr("..", '/') == None;
    assert StrChr("..", '>') == None && StrChr("..", ']') == None;
  }

  lemma OverlaidNode(root: Node, v: Values, d: Values, q: Path, entered: set<Path>, v': Values)
    requires IsNode(root, q)
    requires Overlaid(root, v[q := if Settable(NodeAt(root, q)) then ValueAt(d, q) else ValueAt(v, q)], d, entered, v')
    ensures Overlaid(root, v, d, entered + {q}, v')
  {
  }

  lemma OverlaidSame(root: Node, v: Values, d: Values, q: Path, entered: set<Path>, v': Values)
    requires Overlaid(root, v[q := ValueAt(v, q)], d, entered, v')
    ensures Overlaid(root, v, d, entered, v')
  {
  }

  /** Reading a printed child goes on from that child. */
  lemma {:induction false} SetEnter(root: Node, p: Path, q: Path, values: Values, d: Values, rest: string)
    requires WellNamed(root) && Restorable(root, d) && IsNode(root, p) && IsNode(root, q) && Steps(root, p, Enter(q))
    ensures var n, v := NodeAt(root, q), ValueAt(d, q);
            var values1 := values[q := if Settable(n) then v else ValueAt(values, q)];
            SetLoop(root, p, values, NodeString(n, v) + "/" + rest) == SetLoop(root, q, values1, rest)
  {
    hide ModuleString, FindNext, UpdateCurrent, NodeString, WellNamed, Restorable, NodeAt, IsNode, ValidName;
    EnteredNamed(root, q);
    ModuleOfNode(NodeAt(root, q), ValueAt(d, q), rest);
    EnterStep(root, p, q, values, d);
  }

  /** Reading the parent notation goes on from the parent. */
  lemma {:induction false} SetUp(root: Node, p: Path, values: Values, rest: string)
    requires IsNode(root, p) && p != [] && IsNode(root, p[..|p| - 1])
    ensures var q := p[..|p| - 1];
            SetLoop(root, p, values, "../" + rest) == SetLoop(root, q, values[q := ValueAt(values, q)], rest)
  {
    hide ModuleString, FindNext, UpdateCurrent, NodeAt, IsNode;
    UpModule(rest);
    UpStep(root, p, values);
  }

  lemma EnteredFirst(tokens: seq<Token>)
    requires tokens != []
    ensures Entered(tokens) == if tokens[0].Enter? then Entered(tokens[1..]) + {tokens[0].path} else Entered(tokens[1..])
  {
  }

  /** The text of a walk, read from where the walk starts, is accepted to its end and overlays
      the printed values on the nodes entered. */
  lemma {:induction false} SetWalk(root: Node, p: Path, values: Values, d: Values, tokens: seq<Token>)
    requires WellNamed(root) && Restorable(root, d) && IsNode(root, p)
    requires Walks(root, p, tokens) && NodesOf(root, tokens)
    ensures var res := SetLoop(root, p, values, TextOf(root, d, tokens));
            res.ok && Overlaid(root, values, d, Entered(tokens), res.values)
    decreases |tokens|
  {
    hide NodeString, WellNamed, Restorable, NodeAt, IsNode, Overlaid, Entered;
    if tokens == [] {
      NothingOverlaid(root, values, d);
    } else {
      hide SetLoop;
      var t, rest, tail := tokens[0], TextOf(root, d, tokens[1..]), tokens[1..];
      EnteredFirst(tokens);
      match t {
        case Enter(q) =>
          var n, v := NodeAt(root, q), ValueAt(d, q);
          SetEnter(root, p, q, values, d, rest);
          var values1 := values[q := if Settable(n) then v else ValueAt(values, q)];
          SetWalk(root, q, values1, d, tail);
          OverlaidNode(root, values, d, q, Entered(tail), SetLoop(root, q, values1, rest).values);
        case Up =>
          ParentAt(root, p);
          SetUp(root, p, values, rest);
          var q := p[..|p| - 1];
          var values1 := values[q := ValueAt(values, q)];
          SetWalk(root, q, values1, d, tail);
          OverlaidSame(root, values, d, q, Entered(tail), SetLoop(root, q, values1, rest).values);
      }
    }
  }

  lemma NothingOverlaid(root: Node, values: Values, d: Values)
    ensures Overlaid(root, values, d, Entered([]), values)
  {
  }

  lemma EnteredNamed(root: Node, q: Path)
    requires WellNamed(root) && IsNode(root, q)
    ensures ValidName(NodeAt(root, q).name)
  {
  }
}
