/** The parameter tree of parameters.c: printing nodes, reading them back, and walking the tree
    along a path text. The shape of a tree is fixed when it is built; the values its nodes point
    to are variables outside it, here a map from tree paths. */
module ParamTree {
  import opened Options
  import opened ParamText

  /** The room a printed node is given, its name cut to sixteen characters. */
  const MAX_PARAM_NODE_LENGTH: nat := 37

  datatype VType = NoType | UInt8 | UInt16 | UInt32 | Int8 | Int16 | Int32 | Fp16_16

  datatype Access = ReadWrite | ReadOnly

  datatype Node = Node(name: string, vtype: VType, access: Access, children: seq<Node>)

  /** The child indices that lead to a node from the root. */
  type Path = seq<nat>

  type Values = map<Path, int>

  predicate IsNode(root: Node, p: Path)
    decreases |p|
  {
    p == [] || (p[0] < |root.children| && IsNode(root.children[p[0]], p[1..]))
  }

  function NodeAt(root: Node, p: Path): (n: Node)
    requires IsNode(root, p)
    decreases |p|
  {
    if p == [] then root else NodeAt(root.children[p[0]], p[1..])
  }

  lemma {:induction false} ChildAt(root: Node, p: Path, i: nat)
    requires IsNode(root, p)
    ensures IsNode(root, p + [i]) <==> i < |NodeAt(root, p).children|
    ensures IsNode(root, p + [i]) ==> NodeAt(root, p + [i]) == NodeAt(root, p).children[i]
    decreases |p|
  {
    if p == [] {
      assert [] + [i] == [i] && [i][1..] == [];
    } else {
      assert (p + [i])[1..] == p[1..] + [i];
      ChildAt(root.children[p[0]], p[1..], i);
    }
  }

  lemma {:induction false} ParentAt(root: Node, p: Path)
    requires IsNode(root, p) && p != []
    ensures IsNode(root, p[..|p| - 1])
    decreases |p|
  {
    if |p| > 1 {
      ParentAt(root.children[p[0]], p[1..]);
      assert p[1..][..|p| - 2] == p[..|p| - 1][1..];
    }
  }

  // ---------------------------------------------------------------- printing one node

  function TypeCode(t: VType): nat {
    match t
    case NoType => 0 case UInt8 => 1 case UInt16 => 2 case UInt32 => 3
    case Int8 => 4 case Int16 => 5 case Int32 => 6 case Fp16_16 => 7
  }

  /** snprintf into eleven characters keeps ten. */
  function Printed(v: int): string {
    var s := Decimal(v);
    if |s| <= 10 then s else s[..10]
  }

  /** Param_AppendNodeString: name<type> and, for a typed node, [value]. */
  function NodeString(n: Node, v: int): string {
    n.name + "<" + Digits(TypeCode(n.vtype)) + ">" +
    if n.vtype.NoType? then "" else "[" + Printed(v) + "]"
  }

  // ---------------------------------------------------------------- reading one node

  function Wrapped(v: int, modulus: nat, half: nat): int
    requires modulus > 0
  {
    var w := v % modulus;
    if w < half then w else w - modulus
  }

  /** The value a node takes from a text value, if it accepts it (Param_SettNodeValue): each
      type accepts values below its maximum and converts them to its width. */
  function Accepted(t: VType, v: int): Option<int> {
    match t
    case NoType => None
    case UInt8 => if v < 0xFF then Some(v % 0x100) else None
    case UInt16 => if v < 0xFFFF then Some(v % 0x1_0000) else None
    case UInt32 => if v % 0x1_0000_0000 < 0xFFFF_FFFF then Some(v % 0x1_0000_0000) else None
    case Int8 => if v < 0x7F then Some(Wrapped(v, 0x100, 0x80)) else None
    case Int16 => if v < 0x7FFF then Some(Wrapped(v, 0x1_0000, 0x8000)) else None
    case Int32 => if v < 0x7FFF_FFFF then Some(Wrapped(v, 0x1_0000_0000, 0x8000_0000)) else None
    case Fp16_16 => if v < 0x7FFF_FFFF then Some(Wrapped(v, 0x1_0000_0000, 0x8000_0000)) else None
  }

  /** The new value of a node, given a value text; None is an error. */
  function SetValue(n: Node, current: int, text: string): Option<int> {
    if text == "" || n.access != ReadWrite then Some(current)
    else Accepted(n.vtype, StrToL(text))
  }

  function OrEmpty(s: Option<string>): string {
    match s case Some(t) => t case None => ""
  }

  predicate StartsWithUp(name: string) {
    |name| >= 2 && name[0] == '.' && name[1] == '.'
  }

  /** Param_UpdateCurrent: check name and type, then set the value if there is one. */
  function UpdateCurrent(n: Node, current: int, mod: string): Option<int> {
    match NameString(17, mod)
    case None => None
    case Some(name) =>
      var typeText := OrEmpty(StringBetween(4, mod, '<', '>'));
      var valueText := OrEmpty(StringBetween(11, mod, '[', ']'));
      if name != n.name && !StartsWithUp(name) then None
      else if typeText != "" && StrToL(typeText) != TypeCode(n.vtype) then None
      else SetValue(n, current, valueText)
  }

  function FindChild(children: seq<Node>, name: string): (i: Option<nat>)
    ensures i.Some? ==> i.value < |children| && children[i.value].name == name
  {
    if children == [] then None
    else if children[0].name == name then Some(0)
    else match FindChild(children[1..], name) case None => None case Some(i) => Some(i + 1)
  }

  /** Param_FindNext: the parent for "..", the first child of that name otherwise. */
  function FindNext(root: Node, p: Path, mod: string): (q: Option<Path>)
    requires IsNode(root, p)
    ensures q.Some? ==> IsNode(root, q.value)
  {
    match NameString(17, mod)
    case None => None
    case Some(name) =>
      if StartsWithUp(name) then
        if p == [] then None else (ParentAt(root, p); Some(p[..|p| - 1]))
      else
        match FindChild(NodeAt(root, p).children, name)
        case None => None
        case Some(i) => ChildAt(root, p, i); Some(p + [i])
  }

  // ---------------------------------------------------------------- reading a path text

  datatype SetResult = SetResult(values: Values, ok: bool)

  function ValueAt(values: Values, p: Path): int {
    if p in values then values[p] else 0
  }

  /** The loop of Param_SetFromHere: module after module until only the null is left. */
  function SetLoop(root: Node, p: Path, values: Values, text: string): SetResult
    requires IsNode(root, p)
    decreases |text|
  {
    if text == "" then SetResult(values, true)
    else match ModuleString(MAX_PARAM_NODE_LENGTH, text)
      case None => SetResult(values, false)
      case Some((mod, rest)) =>
        match FindNext(root, p, mod)
        case None => SetResult(values, false)
        case Some(q) =>
          match UpdateCurrent(NodeAt(root, q), ValueAt(values, q), mod)
          case None => SetResult(values, false)
          case Some(v) => SetLoop(root, q, values[q := v], rest)
  }

  /** Param_SetFromHere, from the root. */
  function SetFromRoot(root: Node, values: Values, text: string): SetResult {
    match ModuleString(MAX_PARAM_NODE_LENGTH, text)
    case None => SetResult(values, false)
    case Some((mod, rest)) =>
      match UpdateCurrent(root, ValueAt(values, []), mod)
      case None => SetResult(values, false)
      case Some(v) => SetLoop(root, [], values[[] := v], rest)
  }
}
