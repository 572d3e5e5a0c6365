/** Set messages in all the forms of the format: modules in which type and value may each be left
    out, up and down the tree. What reading their text does is what reading them module by module
    does. */
module ParamPath {
  import opened Options
  import opened ParamText
  import opened ParamTree
  import opened ParamWalk
  import opened ParamHandler

  // ---------------------------------------------------------------- modules and their text

  /** A module of a path text: a name, and a type and a value if they are given. */
  datatype Piece = Piece(name: string, typed: Option<string>, value: Option<string>)

  predicate ValidPiece(m: Piece) {
    && Plain(m.name)
    && (m.typed.Some? ==> Plain(m.typed.value))
    && (m.value.Some? ==> Plain(m.value.value))
  }

  function TypePart(m: Piece): string {
    match m.typed case None => "" case Some(t) => "<" + t + ">"
  }

  function ValuePart(m: Piece): string {
    match m.value case None => "" case Some(v) => "[" + v + "]"
  }

  function Module(m: Piece): string {
    m.name + TypePart(m) + ValuePart(m)
  }

  /** The path text of some modules, each closed by a separator. */
  function PathText(ms: seq<Piece>): string {
    if ms == [] then "" else Module(ms[0]) + "/" + PathText(ms[1..])
  }

  predicate ValidPieces(ms: seq<Piece>) {
    forall i :: 0 <= i < |ms| ==> ValidPiece(ms[i])
  }

  // ---------------------------------------------------------------- what the modules mean

  /** A name of at most sixteen characters in a module of at most 36. */
  predicate Readable(m: Piece) {
    |m.name| <= 16 && |Module(m)| <= 36
  }

  /** A type is compared if it is given in one or two characters. */
  predicate TypeMatches(t: VType, typed: Option<string>) {
    typed.Some? && 1 <= |typed.value| <= 2 ==> StrToL(typed.value) == TypeCode(t)
  }

  /** A settable node takes a value that is given in one to nine characters, as its type accepts it;
      any other value is passed over, but for one given to a node without a type. */
  function NewValue(n: Node, current: int, value: Option<string>): Option<int> {
    if value.Some? && 1 <= |value.value| <= 9 && n.access == ReadWrite then Accepted(n.vtype, StrToL(value.value))
    else Some(current)
  }

  /** Where a module leads: to the parent, or to the first child of that name. */
  function Target(root: Node, p: Path, name: string): (q: Option<Path>)
    requires IsNode(root, p)
    ensures q.Some? ==> IsNode(root, q.value)
  {
    if StartsWithUp(name) then
      if p == [] then None else (ParentAt(root, p); Some(p[..|p| - 1]))
    else
      match FindChild(NodeAt(root, p).children, name)
      case None => None
      case Some(i) => ChildAt(root, p, i); Some(p + [i])
  }

  /** The values after a module that is read at a node, or nothing if the module is refused there. */
  function Applied(root: Node, q: Path, values: Values, m: Piece): Option<Values>
    requires IsNode(root, q)
  {
    if !TypeMatches(NodeAt(root, q).vtype, m.typed) then None
    else
      match NewValue(NodeAt(root, q), ValueAt(values, q), m.value)
      case None => None
      case Some(v) => Some(values[q := v])
  }

  /** How far reading came: the node it stands at, the values, and whether all modules were taken. */
  datatype Progress = Progress(at: Path, values: Values, ok: bool)

  /** Module after module, until one is refused. */
  function ReadPieces(root: Node, p: Path, values: Values, ms: seq<Piece>): (r: Progress)
    requires IsNode(root, p)
    ensures IsNode(root, r.at)
    decreases |ms|
  {
    if ms == [] then Progress(p, values, true)
    else if !Readable(ms[0]) then Progress(p, values, false)
    else
      match Target(root, p, ms[0].name)
      case None => Progress(p, values, false)
      case Some(q) =>
        match Applied(root, q, values, ms[0])
        case None => Progress(p, values, false)
        case Some(values1) => ReadPieces(root, q, values1, ms[1..])
  }

  lemma {:induction false} ReadAppend(root: Node, p: Path, values: Values, a: seq<Piece>, b: seq<Piece>)
    requires IsNode(root, p)
    ensures var r := ReadPieces(root, p, values, a);
            ReadPieces(root, p, values, a + b) == if r.ok then ReadPieces(root, r.at, r.values, b) else r
    decreases |a|
  {
    hide Target, Applied, Readable, IsNode;
    if a == [] {
      assert a + b == b;
    } else {
      assert (a + b)[1..] == a[1..] + b;
      var q := Target(root, p, a[0].name);
      if Readable(a[0]) && q.Some? && Applied(root, q.value, values, a[0]).Some? {
        ReadAppend(root, q.value, Applied(root, q.value, values, a[0]).value, a[1..], b);
      }
    }
  }

  // ---------------------------------------------------------------- reading one module

  lemma NoMarks(s: string)
    requires Plain(s)
    ensures '/' !in s && '<' !in s && '>' !in s && '[' !in s && ']' !in s
  {
  }

  lemma TypePartMarks(m: Piece)
    requires ValidPiece(m)
    ensures var a := m.name + TypePart(m);
            && '/' !in a && '[' !in a && ']' !in a
            && StrChr(a, '<') == (if m.typed.Some? then Some(|m.name|) else None)
            && StrChr(a, '>') == (if m.typed.Some? then Some(|m.name| + 1 + |m.typed.value|) else None)
  {
    hide StrChr, Plain;
    var a := m.name + TypePart(m);
    NoMarks(m.name);
    match m.typed {
      case None =>
        assert a == m.name;
        StrChrAbsent(a, '<');
        StrChrAbsent(a, '>');
      case Some(t) =>
        PrefixMarks(m.name, t);
        assert a == m.name + ['<'] + (t + ">");
        StrChrMark(m.name, '<', t + ">");
        assert a == (m.name + "<" + t) + ['>'] + [];
        StrChrMark(m.name + "<" + t, '>', []);
    }
  }

  lemma ValuePartMarks(m: Piece)
    requires ValidPiece(m)
    ensures var b := ValuePart(m);
            && '/' !in b && '<' !in b && '>' !in b
            && StrChr(b, '[') == (if m.value.Some? then Some(0) else None)
            && StrChr(b, ']') == (if m.value.Some? then Some(1 + |m.value.value|) else None)
  {
    var b := ValuePart(m);
    match m.value {
      case None =>
      case Some(v) =>
        assert ']' !in "[" + v;
        hide StrChr;
        assert b == [] + ['['] + (v + "]");
        StrChrMark([], '[', v + "]");
        assert b == ("[" + v) + [']'] + [];
        StrChrMark("[" + v, ']', []);
    }
  }

  /** Where the marks of a module stand. */
  lemma ModuleMarks(m: Piece)
    requires ValidPiece(m)
    ensures var n, w := |m.name|, |m.name| + |TypePart(m)|;
            && StrChr(Module(m), '/') == None && '/' !in Module(m)
            && StrChr(Module(m), '<') == (if m.typed.Some? then Some(n) else None)
            && StrChr(Module(m), '>') == (if m.typed.Some? then Some(n + 1 + |m.typed.value|) else None)
            && StrChr(Module(m), '[') == (if m.value.Some? then Some(w) else None)
            && StrChr(Module(m), ']') == (if m.value.Some? then Some(w + 1 + |m.value.value|) else None)
  {
    hide StrChr, TypePart, ValuePart, ValidPiece;
    TypePartMarks(m);
    ValuePartMarks(m);
    var a, b := m.name + TypePart(m), ValuePart(m);
    assert Module(m) == a + b;
    StrChrAbsent(a + b, '/');
    StrChrPast(a, b, '[');
    StrChrPast(a, b, ']');
    StrChrBefore(a, b, '<');
    StrChrBefore(a, b, '>');
  }

  /** What follows does not matter where a character is found, or if it holds none. */
  lemma {:induction false} StrChrBefore(a: string, b: string, c: char)
    requires c !in b
    ensures StrChr(a + b, c) == StrChr(a, c)
    decreases |a|
  {
    if a == [] {
      assert a + b == b;
      StrChrAbsent(b, c);
    } else {
      assert (a + b)[1..] == a[1..] + b;
      StrChrBefore(a[1..], b, c);
    }
  }

  /** A text that is compared or read only up to some length. */
  function Short(s: Option<string>, most: nat): string {
    if s.Some? && |s.value| <= most then s.value else ""
  }

  lemma NamePart(m: Piece)
    ensures Module(m)[..|m.name|] == m.name && (m.typed.None? && m.value.None? ==> Module(m) == m.name)
  {
  }

  /** What is read of a module: its name, and type and value as far as they are short enough. */
  lemma NameReads(m: Piece)
    requires ValidPiece(m)
    ensures NameString(17, Module(m)) == if |m.name| <= 16 then Some(m.name) else None
  {
    hide StrChr, ValidPiece;
    ModuleMarks(m);
    NamePart(m);
  }

  lemma BetweenIs(room: nat, text: string, start: char, end: char, a: string, t: string, b: string)
    requires StrChr(text, start) == Some(|a|) && StrChr(text, end) == Some(|a| + 1 + |t|)
    requires text == a + [start] + t + ([end] + b)
    ensures StringBetween(room, text, start, end) == if |t| + 2 <= room then Some(t) else None
  {
    hide StrChr;
    assert text[|a| + 1..|a| + 1 + |t|] == t;
    BetweenMarks(room, text, start, end, |a|, |a| + 1 + |t|);
  }

  lemma NothingBetween(room: nat, text: string, start: char, end: char)
    requires StrChr(text, start) == None
    ensures StringBetween(room, text, start, end) == None
  {
  }

  lemma TypeReads(m: Piece)
    requires ValidPiece(m)
    ensures OrEmpty(StringBetween(4, Module(m), '<', '>')) == Short(m.typed, 2)
  {
    hide StrChr, ValidPiece, ValuePart, StringBetween;
    ModuleMarks(m);
    match m.typed {
      case None => NothingBetween(4, Module(m), '<', '>');
      case Some(t) => BetweenIs(4, Module(m), '<', '>', m.name, t, ValuePart(m));
    }
  }

  lemma LastPart(a: string, v: string)
    ensures a + ("[" + v + "]") == a + ['['] + v + ([']'] + "")
  {
  }

  lemma ValueReads(m: Piece)
    requires ValidPiece(m)
    ensures OrEmpty(StringBetween(11, Module(m), '[', ']')) == Short(m.value, 9)
  {
    hide StrChr, ValidPiece, TypePart, StringBetween;
    ModuleMarks(m);
    match m.value {
      case None => NothingBetween(11, Module(m), '[', ']');
      case Some(v) =>
        LastPart(m.name + TypePart(m), v);
        BetweenIs(11, Module(m), '[', ']', m.name + TypePart(m), v, "");
    }
  }

  lemma ModuleCutOff(m: Piece, rest: string)
    requires ValidPiece(m)
    ensures ModuleString(MAX_PARAM_NODE_LENGTH, Module(m) + "/" + rest)
         == if |Module(m)| <= 36 then Some((Module(m), rest)) else None
  {
    ModuleMarks(m);
    hide StrChr, Module, ValidPiece;
    var s := Module(m) + "/" + rest;
    StrChrMark(Module(m), '/', rest);
    assert s[..|Module(m)|] == Module(m) && s[|Module(m)| + 1..] == rest;
  }

  /** Updating a node from a module, wherever the module leads. */
  lemma UpdateIsApplied(root: Node, q: Path, values: Values, m: Piece)
    requires ValidPiece(m) && Readable(m) && IsNode(root, q)
    requires m.name == NodeAt(root, q).name || StartsWithUp(m.name)
    ensures Applied(root, q, values, m)
         == match UpdateCurrent(NodeAt(root, q), ValueAt(values, q), Module(m)) case None => None case Some(v) => Some(values[q := v])
  {
    hide NameString, StringBetween, Module, ValidPiece, StrToL, Accepted, NodeAt, IsNode, StartsWithUp, TypeCode;
    NameReads(m);
    TypeReads(m);
    ValueReads(m);
  }

  lemma FindNextIsTarget(root: Node, p: Path, m: Piece)
    requires ValidPiece(m) && Readable(m) && IsNode(root, p)
    ensures FindNext(root, p, Module(m)) == Target(root, p, m.name)
    ensures Target(root, p, m.name).Some? ==>
              m.name == NodeAt(root, Target(root, p, m.name).value).name || StartsWithUp(m.name)
  {
    NameReads(m);
    hide NameString, StringBetween, Module, ValidPiece, StartsWithUp;
    if !StartsWithUp(m.name) {
      var i := FindChild(NodeAt(root, p).children, m.name);
      if i.Some? {
        ChildAt(root, p, i.value);
      }
    }
  }

  /** Reading the text of a path is reading its modules. */
  lemma {:induction false} ReadsPath(root: Node, p: Path, values: Values, ms: seq<Piece>)
    requires ValidPieces(ms) && IsNode(root, p)
    ensures var r := ReadPieces(root, p, values, ms);
            SetLoop(root, p, values, PathText(ms)) == SetResult(r.values, r.ok)
    decreases |ms|
  {
    if ms != [] {
      var m, rest := ms[0], PathText(ms[1..]);
      assert ValidPiece(m);
      ModuleCutOff(m, rest);
      NameReads(m);
      hide ModuleString, NameString, StringBetween, UpdateCurrent, Applied, Target, Module, ValidPiece, NodeAt, IsNode;
      if Readable(m) {
        FindNextIsTarget(root, p, m);
        var q := Target(root, p, m.name);
        if q.Some? {
          UpdateIsApplied(root, q.value, values, m);
          var values1 := Applied(root, q.value, values, m);
          if values1.Some? {
            ReadsPath(root, q.value, values1.value, ms[1..]);
          }
        }
      } else if |m.name| > 16 {
        assert FindNext(root, p, Module(m)) == None;
      }
    }
  }

  // ---------------------------------------------------------------- what is refused

  /** A node takes a module if its type is the given one and it accepts the value. */
  predicate Takes(n: Node, m: Piece) {
    && (m.typed.Some? && 1 <= |m.typed.value| <= 2 ==> StrToL(m.typed.value) == TypeCode(n.vtype))
    && (m.value.Some? && 1 <= |m.value.value| <= 9 && n.access == ReadWrite ==> Accepted(n.vtype, StrToL(m.value.value)).Some?)
  }

  /** Modules that can be read and lead somewhere that takes them; a node has one child of a name. */
  ghost predicate Followed(root: Node, p: Path, m: Piece)
    requires IsNode(root, p)
  {
    && |m.name| <= 16 && |Module(m)| <= 36
    && if StartsWithUp(m.name) then p != [] && IsNode(root, p[..|p| - 1]) && Takes(NodeAt(root, p[..|p| - 1]), m)
       else exists i: nat :: IsNode(root, p + [i]) && NodeAt(root, p + [i]).name == m.name && Takes(NodeAt(root, p + [i]), m)
  }

  /** The first child of a name is found, or none if no child has it. */
  lemma {:induction false} FindsFirstChild(children: seq<Node>, name: string)
    ensures FindChild(children, name).None? <==> forall i :: 0 <= i < |children| ==> children[i].name != name
    ensures FindChild(children, name).Some? ==> forall i :: 0 <= i < FindChild(children, name).value ==> children[i].name != name
    decreases |children|
  {
    if children != [] {
      FindsFirstChild(children[1..], name);
      assert forall i :: 0 < i < |children| ==> children[i] == children[1..][i - 1];
    }
  }

  lemma OneStep(p: Path, i: nat, k: nat)
    ensures p + [i] == p + [k] <==> i == k
  {
    assert (p + [i])[|p|] == i && (p + [k])[|p|] == k;
  }

  lemma TargetOf(root: Node, p: Path, name: string)
    requires IsNode(root, p) && DistinctNames(NodeAt(root, p).children)
    ensures StartsWithUp(name) ==> Target(root, p, name) == if p == [] then None else Some(p[..|p| - 1])
    ensures !StartsWithUp(name) ==>
              forall i: nat :: Target(root, p, name) == Some(p + [i]) <==> IsNode(root, p + [i]) && NodeAt(root, p + [i]).name == name
    ensures !StartsWithUp(name) && Target(root, p, name).Some? ==> exists i: nat :: Target(root, p, name) == Some(p + [i])
  {
    if !StartsWithUp(name) {
      hide StartsWithUp, NodeAt, IsNode;
      var children := NodeAt(root, p).children;
      FindsFirstChild(children, name);
      forall i: nat
        ensures Target(root, p, name) == Some(p + [i]) <==> IsNode(root, p + [i]) && NodeAt(root, p + [i]).name == name
      {
        ChildAt(root, p, i);
        if i < |children| && children[i].name == name {
          FindChildAt(children, i);
        }
        if FindChild(children, name).Some? {
          OneStep(p, i, FindChild(children, name).value);
        }
      }
    }
  }

  /** A module is refused exactly if it is too long, leads nowhere or is not taken where it leads.
      Then everything from it on has no effect. */
  lemma RefusedIff(root: Node, p: Path, values: Values, before: seq<Piece>, m: Piece, after: seq<Piece>)
    requires ValidPieces(before + [m] + after) && WellNamed(root) && IsNode(root, p)
    requires ReadPieces(root, p, values, before).ok
    ensures var r := ReadPieces(root, p, values, before);
            if Followed(root, r.at, m) then ReadPieces(root, r.at, r.values, [m]).ok
            else SetLoop(root, p, values, PathText(before + [m] + after)) == SetResult(r.values, false)
  {
    hide WellNamed, Followed, SetLoop, ValidPiece;
    var r := ReadPieces(root, p, values, before);
    ReadsPath(root, p, values, before + [m] + after);
    assert before + [m] + after == before + ([m] + after);
    ReadAppend(root, p, values, before, [m] + after);
    ReadAppend(root, r.at, r.values, [m], after);
    OneModule(root, r.at, r.values, m);
  }

  lemma OneModule(root: Node, p: Path, values: Values, m: Piece)
    requires WellNamed(root) && IsNode(root, p)
    ensures var r := ReadPieces(root, p, values, [m]);
            && (r.ok <==> Followed(root, p, m))
            && (!r.ok ==> r.values == values)
  {
    hide Target, NodeAt, IsNode, Module, StartsWithUp, DistinctNames, Accepted, StrToL, TypeCode, ValidName;
    assert DistinctNames(NodeAt(root, p).children);
    TargetOf(root, p, m.name);
    assert [m][1..] == [];
  }

  // ---------------------------------------------------------------- finding the root of a message

  /** By how many levels some modules lead down. */
  function Descent(ms: seq<Piece>): int {
    if ms == [] then 0 else (if StartsWithUp(ms[0].name) then -1 else 1) + Descent(ms[1..])
  }

  /** Module i is at level zero, in 32-bit arithmetic, and has the name. */
  predicate RootAt(name: string, depth: nat, ms: seq<Piece>, i: nat)
    requires i < |ms|
  {
    (depth + Descent(ms[..i])) % 0x1_0000_0000 == 0 && ms[i].name == name
  }

  lemma UpModules(m: Piece)
    ensures StartsWithUp(Module(m)) <==> StartsWithUp(m.name)
  {
    assert |m.name| >= 2 ==> Module(m)[0] == m.name[0] && Module(m)[1] == m.name[1];
    assert |m.name| == 1 && |Module(m)| >= 2 ==> Module(m)[1] in "<[";
    assert |m.name| == 0 && |Module(m)| >= 2 ==> Module(m)[0] in "<[";
  }

  lemma RootTurn(name: string, m: Piece, rest: string, depth: nat)
    requires ValidPiece(m) && Readable(m) && depth < 0x1_0000_0000
    ensures RootFrom(name, Module(m) + "/" + rest, depth)
         == if depth == 0 && m.name == name then Some(Module(m) + "/" + rest)
            else RootFrom(name, rest, (depth + Descent([m])) % 0x1_0000_0000)
  {
    ModuleCutOff(m, rest);
    NameReads(m);
    UpModules(m);
    assert Descent([m]) == if StartsWithUp(m.name) then -1 else 1 by {
      assert [m][1..] == [];
    }
    hide ModuleString, NameString, Module, StartsWithUp, Descent;
    assert (depth + 0xFFFF_FFFF) % 0x1_0000_0000 == (depth - 1) % 0x1_0000_0000;
  }

  lemma DescentFirst(ms: seq<Piece>, i: nat)
    requires i < |ms|
    ensures ms[..i + 1][1..] == ms[1..][..i]
    ensures Descent(ms[..i + 1]) == Descent([ms[0]]) + Descent(ms[1..][..i])
  {
    hide StartsWithUp;
    assert ms[..i + 1][1..] == ms[1..][..i];
    assert [ms[0]][1..] == [];
  }

  lemma SameLevel(depth: int, a: int, b: int)
    ensures ((depth + a) % 0x1_0000_0000 + b) % 0x1_0000_0000 == (depth + (a + b)) % 0x1_0000_0000
  {
  }

  lemma RootAtNext(name: string, depth: nat, ms: seq<Piece>, i: nat)
    requires i + 1 < |ms|
    ensures RootAt(name, depth, ms, i + 1) <==> RootAt(name, (depth + Descent([ms[0]])) % 0x1_0000_0000, ms[1..], i)
  {
    hide Descent;
    DescentFirst(ms, i);
    SameLevel(depth, Descent([ms[0]]), Descent(ms[1..][..i]));
  }

  /** A message is read by a handler from the first module at level zero that has the name of its
      root, whatever modules of other trees come before. */
  lemma {:induction false} FindsRoot(name: string, depth: nat, ms: seq<Piece>, i: nat)
    requires ValidPieces(ms) && depth < 0x1_0000_0000 && i < |ms| && RootAt(name, depth, ms, i)
    requires forall j :: 0 <= j < i ==> Readable(ms[j]) && !RootAt(name, depth, ms, j)
    requires Readable(ms[i])
    ensures RootFrom(name, PathText(ms), depth) == Some(PathText(ms[i..]))
    decreases |ms|
  {
    hide RootFrom, Module, ValidPiece, Readable, RootAt;
    var m, rest := ms[0], PathText(ms[1..]);
    assert ValidPiece(m) && Readable(m);
    RootTurn(name, m, rest, depth);
    FirstRootAt(name, depth, ms);
    if i == 0 {
      assert ms[0..] == ms;
    } else {
      var depth1 := (depth + Descent([m])) % 0x1_0000_0000;
      RootAtNext(name, depth, ms, i - 1);
      forall j | 0 <= j < i - 1
        ensures Readable(ms[1..][j]) && !RootAt(name, depth1, ms[1..], j)
      {
        RootAtNext(name, depth, ms, j);
        assert Readable(ms[j + 1]) && !RootAt(name, depth, ms, j + 1);
      }
      assert !RootAt(name, depth, ms, 0);
      FindsRoot(name, depth1, ms[1..], i - 1);
      assert ms[1..][i - 1..] == ms[i..];
    }
  }

  lemma FirstRootAt(name: string, depth: nat, ms: seq<Piece>)
    requires ms != [] && depth < 0x1_0000_0000
    ensures RootAt(name, depth, ms, 0) <==> depth == 0 && ms[0].name == name
  {
    assert ms[..0] == [];
  }

  /** Without such a module no root is found. */
  lemma {:induction false} FindsNoRoot(name: string, depth: nat, ms: seq<Piece>)
    requires ValidPieces(ms) && depth < 0x1_0000_0000
    requires forall j :: 0 <= j < |ms| ==> Readable(ms[j]) && !RootAt(name, depth, ms, j)
    ensures RootFrom(name, PathText(ms), depth) == None
    decreases |ms|
  {
    hide RootFrom, Module, ValidPiece, Readable, RootAt;
    if ms == [] {
      NoRootInNothing(name, depth);
    } else {
      var m, rest := ms[0], PathText(ms[1..]);
      assert ValidPiece(m) && Readable(m) && !RootAt(name, depth, ms, 0);
      RootTurn(name, m, rest, depth);
      FirstRootAt(name, depth, ms);
      var depth1 := (depth + Descent([m])) % 0x1_0000_0000;
      forall j | 0 <= j < |ms| - 1
        ensures Readable(ms[1..][j]) && !RootAt(name, depth1, ms[1..], j)
      {
        RootAtNext(name, depth, ms, j);
        assert Readable(ms[j + 1]) && !RootAt(name, depth, ms, j + 1);
      }
      FindsNoRoot(name, depth1, ms[1..]);
    }
  }

  /** And a message that does not begin with a separator is for nobody. */
  lemma NeedsFirstSeparator(root: Node, values: Values, payload: string)
    requires payload == "" || payload[0] != '/'
    ensures SetByMessage(root, values, payload) == SetResult(values, false)
  {
    hide RootFrom, SetFromRoot;
  }

  // ---------------------------------------------------------------- setting one parameter

  /** The modules on the way from a node down to one below it, each with its type or without; the
      last one has the value. */
  function Way(n: Node, q: Path, typed: seq<bool>, value: string): (ms: seq<Piece>)
    requires IsNode(n, q) && |typed| == |q| + 1
    decreases |q|
  {
    var t := if typed[0] then Some(TypeText(n.vtype)) else None;
    if q == [] then [Piece(n.name, t, Some(value))]
    else [Piece(n.name, t, None)] + Way(n.children[q[0]], q[1..], typed[1..], value)
  }

  /** One node has the new value, if there is one, and all others are as they were. */
  ghost predicate SetsOne(values: Values, r: SetResult, q: Path, taken: Option<int>) {
    && r.ok == taken.Some?
    && forall p :: ValueAt(r.values, p) == if p == q && taken.Some? then taken.value else ValueAt(values, p)
  }

  lemma Multiple(k: int, m: nat)
    requires m > 0
    ensures (k * m) % m == 0
  {
    var d := k - (k * m) / m;
    assert d * m == (k * m) % m;
    assert d >= 1 ==> d * m >= m;
    assert d <= -1 ==> d * m < 0;
  }

  lemma Reduced(v: int, m: nat)
    requires m > 0
    ensures (v % m - v) % m == 0 && (v % m - m - v) % m == 0
  {
    assert v == m * (v / m) + v % m;
    assert v % m - v == (-(v / m)) * m && v % m - m - v == (-(v / m) - 1) * m;
    Multiple(-(v / m), m);
    Multiple(-(v / m) - 1, m);
  }

  /** What a settable node makes of a number: it is refused if it is not below the maximum of the
      type, and otherwise reduced to the width of the type. */
  lemma AcceptedConverts(t: VType, v: int)
    requires t != NoType
    ensures Accepted(t, v).Some? <==> (if t == UInt32 then v % 0x1_0000_0000 < 0xFFFF_FFFF else v < Highest(t))
    ensures Accepted(t, v).Some? ==>
              InRange(t, Accepted(t, v).value) && (Accepted(t, v).value - v) % (Highest(t) - Lowest(t) + 1) == 0
  {
    var m := Highest(t) - Lowest(t) + 1;
    Reduced(v, m);
    assert Accepted(t, v).Some? ==> Accepted(t, v).value == v % m || Accepted(t, v).value == v % m - m;
  }

  lemma WayTurn(n: Node, q: Path, typed: seq<bool>, v: int)
    requires IsNode(n, q) && |typed| == |q| + 1 && ValidName(n.name) && |Decimal(v)| <= 9
    ensures var ms := Way(n, q, typed, Decimal(v));
            && ms != [] && ms[0].name == n.name && ValidPiece(ms[0]) && Readable(ms[0])
            && TypeMatches(n.vtype, ms[0].typed)
            && ms[0].value == (if q == [] then Some(Decimal(v)) else None)
            && ms[1..] == (if q == [] then [] else Way(n.children[q[0]], q[1..], typed[1..], Decimal(v)))
  {
    DigitsPlain(Decimal(v));
    TypeTextReads(n.vtype);
    hide Decimal, TypeText, Plain, StrToL;
    var ms := Way(n, q, typed, Decimal(v));
    assert |TypePart(ms[0])| <= 3 && |ValuePart(ms[0])| <= 11;
  }

  /** What a node on the way does with its module. */
  lemma WayApplied(root: Node, p: Path, q: Path, typed: seq<bool>, v: int, values: Values)
    requires IsNode(root, p) && IsNode(NodeAt(root, p), q) && |typed| == |q| + 1
    requires ValidName(NodeAt(root, p).name) && |Decimal(v)| <= 9 && Settable(NodeAt(NodeAt(root, p), q))
    ensures Applied(root, p, values, Way(NodeAt(root, p), q, typed, Decimal(v))[0])
         == if q == [] then
              match Accepted(NodeAt(root, p).vtype, v) case None => None case Some(x) => Some(values[p := x])
            else Some(values[p := ValueAt(values, p)])
  {
    WayTurn(NodeAt(root, p), q, typed, v);
    StrToLOfDecimal(v);
    hide Way, Decimal, StrToL, Accepted, IsNode, TypeMatches, ValidName, Readable, ValidPiece;
  }

  lemma SameExcept(values: Values, values1: Values, r: SetResult, p: Path, q: Path, taken: Option<int>)
    requires values1 == values[p := ValueAt(values, p)] && SetsOne(values1, r, q, taken)
    ensures SetsOne(values, r, q, taken)
  {
  }

  lemma PathSplit(p: Path, q: Path)
    ensures p + [] == p && (q != [] ==> p + q == p + [q[0]] + q[1..])
  {
  }

  /** A node on the way: its name and those of its siblings, and the next node on it. */
  lemma WayNode(root: Node, p: Path, i: nat, q: Path)
    requires WellNamed(root) && IsNode(root, p) && IsNode(root, p + [i]) && IsNode(NodeAt(root, p + [i]), q)
    ensures var n := NodeAt(root, p + [i]);
            && ValidName(n.name) && !StartsWithUp(n.name) && DistinctNames(NodeAt(root, p).children)
            && (q == [] ==> NodeAt(n, q) == n)
            && (q != [] ==>
                 && q[0] < |n.children| && IsNode(n.children[q[0]], q[1..]) && NodeAt(n, q) == NodeAt(n.children[q[0]], q[1..])
                 && IsNode(root, p + [i] + [q[0]]) && NodeAt(root, p + [i] + [q[0]]) == n.children[q[0]])
  {
    if q != [] {
      ChildAt(root, p + [i], q[0]);
    }
  }

  lemma {:induction false} WayReads(root: Node, p: Path, i: nat, q: Path, typed: seq<bool>, v: int, values: Values)
    requires WellNamed(root) && IsNode(root, p) && IsNode(root, p + [i]) && IsNode(NodeAt(root, p + [i]), q)
    requires |typed| == |q| + 1 && |Decimal(v)| <= 9 && Settable(NodeAt(NodeAt(root, p + [i]), q))
    ensures var n := NodeAt(root, p + [i]);
            var r := ReadPieces(root, p, values, Way(n, q, typed, Decimal(v)));
            SetsOne(values, SetResult(r.values, r.ok), p + [i] + q, Accepted(NodeAt(n, q).vtype, v))
    decreases |q|
  {
    hide WellNamed, Way, Target, Applied, Readable, ValidPiece, TypeMatches, NodeAt, IsNode, Decimal, Accepted, StartsWithUp,
      Settable, DistinctNames, ValidName;
    var n := NodeAt(root, p + [i]);
    var ms := Way(n, q, typed, Decimal(v));
    WayNode(root, p, i, q);
    WayTurn(n, q, typed, v);
    WayApplied(root, p + [i], q, typed, v, values);
    TargetOf(root, p, n.name);
    PathSplit(p + [i], q);
    if q != [] {
      hide ReadPieces;
      WayTail(root, p, values, ms);
      var values1 := values[p + [i] := ValueAt(values, p + [i])];
      WayReads(root, p + [i], q[0], q[1..], typed[1..], v, values1);
      var r := ReadPieces(root, p + [i], values1, ms[1..]);
      SameExcept(values, values1, SetResult(r.values, r.ok), p + [i], p + [i] + q, Accepted(NodeAt(n, q).vtype, v));
    }
  }

  lemma WayTail(root: Node, p: Path, values: Values, ms: seq<Piece>)
    requires IsNode(root, p) && ms != [] && Readable(ms[0]) && Target(root, p, ms[0].name).Some?
    requires Applied(root, Target(root, p, ms[0].name).value, values, ms[0]).Some?
    ensures ReadPieces(root, p, values, ms)
         == ReadPieces(root, Target(root, p, ms[0].name).value,
              Applied(root, Target(root, p, ms[0].name).value, values, ms[0]).value, ms[1..])
  {
    hide Target, Applied, Readable, IsNode;
  }

  /** Reading from the root: the first module is its own. */
  lemma RootReads(root: Node, values: Values, ms: seq<Piece>)
    requires ValidPieces(ms) && ms != [] && Readable(ms[0]) && ms[0].name == root.name
    ensures IsNode(root, [])
    ensures SetFromRoot(root, values, PathText(ms))
         == match Applied(root, [], values, ms[0])
            case None => SetResult(values, false)
            case Some(values1) =>
              var r := ReadPieces(root, [], values1, ms[1..]);
              SetResult(r.values, r.ok)
  {
    var m, rest := ms[0], PathText(ms[1..]);
    assert ValidPiece(m);
    assert IsNode(root, []) && NodeAt(root, []) == root;
    ModuleCutOff(m, rest);
    UpdateIsApplied(root, [], values, m);
    hide ModuleString, UpdateCurrent, Applied, Module, ValidPiece, Readable, SetLoop;
    var v := UpdateCurrent(root, ValueAt(values, []), Module(m));
    if v.Some? {
      ReadsPath(root, [], values[[] := v.value], ms[1..]);
    }
  }

  lemma {:induction false} WayValid(n: Node, q: Path, typed: seq<bool>, v: int)
    requires IsNode(n, q) && |typed| == |q| + 1 && |Decimal(v)| <= 9
    requires forall p :: IsNode(n, p) ==> ValidName(NodeAt(n, p).name)
    ensures ValidPieces(Way(n, q, typed, Decimal(v)))
    decreases |q|
  {
    assert IsNode(n, []) && NodeAt(n, []) == n;
    WayTurn(n, q, typed, v);
    var ms := Way(n, q, typed, Decimal(v));
    if q != [] {
      var c := n.children[q[0]];
      forall p | IsNode(c, p)
        ensures ValidName(NodeAt(c, p).name)
      {
        assert [q[0]] + p != [] && ([q[0]] + p)[1..] == p;
        assert IsNode(n, [q[0]] + p) && NodeAt(n, [q[0]] + p) == NodeAt(c, p);
      }
      hide Way, ValidPiece, ValidName, NodeAt, IsNode, Decimal, Readable, TypeMatches;
      WayValid(c, q[1..], typed[1..], v);
      assert forall i :: 0 < i < |ms| ==> ms[i] == ms[1..][i - 1];
    }
  }

  lemma {:induction false} WaySets(root: Node, q: Path, typed: seq<bool>, v: int, values: Values)
    requires WellNamed(root) && IsNode(root, q) && |typed| == |q| + 1
    requires Settable(NodeAt(root, q)) && |Decimal(v)| <= 9
    ensures SetsOne(values, SetFromRoot(root, values, PathText(Way(root, q, typed, Decimal(v)))), q, Accepted(NodeAt(root, q).vtype, v))
  {
    var ms := Way(root, q, typed, Decimal(v));
    assert IsNode(root, []) && NodeAt(root, []) == root && ValidName(root.name);
    WayValid(root, q, typed, v);
    WayTurn(root, q, typed, v);
    WayApplied(root, [], q, typed, v, values);
    PathSplit([], q);
    if q != [] {
      ChildAt(root, [], q[0]);
    }
    hide WellNamed, Way, Applied, Readable, ValidPiece, TypeMatches, IsNode, Decimal, Accepted, SetFromRoot, ReadPieces,
      Settable, ValidName, PathText;
    RootReads(root, values, ms);
    if q == [] {
      NothingLeft(root, values, ms[1..]);
    } else {
      var values1 := values[[] := ValueAt(values, [])];
      WayReads(root, [], q[0], q[1..], typed[1..], v, values1);
      SameExcept(values, values1, SetFromRoot(root, values, PathText(ms)), [], q, Accepted(NodeAt(root, q).vtype, v));
    }
  }

  lemma NothingLeft(root: Node, values: Values, ms: seq<Piece>)
    requires ms == []
    ensures IsNode(root, []) && forall values :: ReadPieces(root, [], values, ms) == Progress([], values, true)
  {
  }

  /** A set message with the way to one settable parameter, each type given or left out, sets this
      parameter to the number, reduced to its width, and nothing else; or changes nothing, if the
      parameter does not accept the number. Modules of other trees may come before. */
  lemma {:induction false} PathSets(root: Node, before: seq<Piece>, q: Path, typed: seq<bool>, v: int, values: Values)
    requires WellNamed(root) && IsNode(root, q) && |typed| == |q| + 1
    requires Settable(NodeAt(root, q)) && |Decimal(v)| <= 9
    requires ValidPieces(before) && Descent(before) % 0x1_0000_0000 == 0
    requires forall j :: 0 <= j < |before| ==> Readable(before[j]) && !RootAt(root.name, 0, before, j)
    ensures var r := SetByMessage(root, values, "/" + PathText(before + Way(root, q, typed, Decimal(v))));
            SetsOne(values, r, q, Accepted(NodeAt(root, q).vtype, v))
  {
    var way := Way(root, q, typed, Decimal(v));
    var ms, n := before + way, |before|;
    assert IsNode(root, []) && NodeAt(root, []) == root && ValidName(root.name);
    WayValid(root, q, typed, v);
    WayTurn(root, q, typed, v);
    WaySets(root, q, typed, v, values);
    hide WellNamed, Way, Readable, ValidPiece, TypeMatches, IsNode, Decimal, Accepted, SetFromRoot, RootFrom, SetsOne,
      Settable, ValidName, PathText, Descent, NodeAt;
    assert ms[..n] == before && ms[n..] == way;
    forall j | 0 <= j < n
      ensures Readable(ms[j]) && !RootAt(root.name, 0, ms, j)
    {
      assert ms[..j] == before[..j] && ms[j] == before[j];
      assert !RootAt(root.name, 0, before, j);
    }
    FindsRoot(root.name, 0, ms, n);
    assert ("/" + PathText(ms))[1..] == PathText(ms);
  }
}
