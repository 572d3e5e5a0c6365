/** The text of a whole dump, written out: each node, its children one after the other, and the way
    back up after each child. */
module ParamDumpText {
  import opened ParamText
  import opened ParamTree
  import opened ParamWalk
  import opened ParamDump
  import opened ParamDumpEnds
  import opened ParamHandler
  import opened ParamPath
  import opened Options

  /** A subtree as the format describes it. */
  function Described(n: Node, p: Path, d: Values): string
    decreases n, |n.children| + 1
  {
    NodeString(n, ValueAt(d, p)) + "/" + DescribedFrom(n, p, d, 0)
  }

  /** The children from index i on. */
  function DescribedFrom(n: Node, p: Path, d: Values, i: nat): string
    decreases n, if i < |n.children| then |n.children| - i else 0
  {
    if i >= |n.children| then "" else Described(n.children[i], p + [i], d) + "../" + DescribedFrom(n, p, d, i + 1)
  }

  /** A dump from the beginning of a subtree that finishes has printed exactly its description; and it
      finishes if there is room for one more node after it. */
  lemma {:induction false} DumpIsDescription(root: Node, n: Node, p: Path, d: Values, cap: nat, used: nat, s: seq<nat>)
    requires |s| == 8 && |p| < 8 && FitsDepth(n, 8 - |p|)
    requires IsNode(root, p) && NodeAt(root, p) == n && ZeroFrom(s, |p|)
    ensures var r := DumpNode(n, p, d, cap, used, s);
            && NodesOf(root, r.tokens)
            && (r.ok ==> TextOf(root, d, r.tokens) == Described(n, p, d) && r.used == used + |Described(n, p, d)|)
            && (used + |Described(n, p, d)| + MAX_PARAM_NODE_LENGTH <= cap ==> r.ok)
    decreases n, |n.children| + 1
  {
    hide NodeString, DumpNode, DumpChildren, FitsDepth, IsNode, NodeAt, DescribedFrom, TextOf, NodesOf;
    DumpTurn(n, p, d, cap, used, s);
    NothingPrinted(root, d);
    if used + MAX_PARAM_NODE_LENGTH <= cap {
      var used1 := used + |NodeString(n, ValueAt(d, p))| + 1;
      assert ZeroFrom(s, |p| + 1);
      ChildrenDescribed(root, n, p, d, cap, used1, s, 0);
      TextOfOne(root, d, Enter(p));
      TextAppend(root, d, [Enter(p)], DumpChildren(n, p, d, cap, used1, s, 0).tokens);
    }
  }

  lemma {:induction false} ChildrenDescribed(root: Node, n: Node, p: Path, d: Values, cap: nat, used: nat, s: seq<nat>,
      i: nat)
    requires |s| == 8 && |p| < 8 && FitsDepth(n, 8 - |p|)
    requires IsNode(root, p) && NodeAt(root, p) == n && ZeroFrom(s, |p| + 1)
    ensures var r := DumpChildren(n, p, d, cap, used, s, i);
            && NodesOf(root, r.tokens)
            && (r.ok ==> TextOf(root, d, r.tokens) == DescribedFrom(n, p, d, i) && r.used == used + |DescribedFrom(n, p, d, i)|)
            && (used + |DescribedFrom(n, p, d, i)| + MAX_PARAM_NODE_LENGTH <= cap ==> r.ok)
    decreases n, if i < |n.children| then |n.children| - i else 0
  {
    hide NodeString, DumpNode, DumpChildren, FitsDepth, IsNode, NodeAt, Described, TextOf, NodesOf, Resumable;
    if i >= |n.children| {
      LoopEnd(n, p, d, cap, used, s, i);
      NothingPrinted(root, d);
    } else {
      var c, q := n.children[i], p + [i];
      ChildFits(n, p, i);
      var r := DumpNode(c, q, d, cap, used, s[|p| := i]);
      ZeroIsResumable(n, |p| + 1, s, i);
      ChildTurn(root, n, p, d, cap, used, s, i, r);
      DumpIsDescription(root, c, q, d, cap, used, s[|p| := i]);
      if r.ok && r.used + 4 <= cap {
        var rest := DumpChildren(n, p, d, cap, r.used + 3, r.start, i + 1);
        ChildrenDescribed(root, n, p, d, cap, r.used + 3, r.start, i + 1);
        TextOfOne(root, d, Up);
        TextAppend(root, d, r.tokens, [Up]);
        TextAppend(root, d, r.tokens + [Up], rest.tokens);
      }
    }
  }

  // ---------------------------------------------------------------- printed types and numbers

  /** The type codes as they are printed. */
  lemma PrintedType(n: Node, v: int)
    ensures NodeString(n, v)
         == n.name + match n.vtype
                     case NoType => "<0>"
                     case UInt8 => "<1>[" + Printed(v) + "]"
                     case UInt16 => "<2>[" + Printed(v) + "]"
                     case UInt32 => "<3>[" + Printed(v) + "]"
                     case Int8 => "<4>[" + Printed(v) + "]"
                     case Int16 => "<5>[" + Printed(v) + "]"
                     case Int32 => "<6>[" + Printed(v) + "]"
                     case Fp16_16 => "<7>[" + Printed(v) + "]"
  {
    OneDigit();
    hide Digits, Printed;
    var code := Digits(TypeCode(n.vtype));
    assert n.vtype.NoType? ==> NodeString(n, v) == n.name + ("<" + code + ">");
    assert !n.vtype.NoType? ==> NodeString(n, v) == n.name + ("<" + code + ">" + "[" + Printed(v) + "]");
  }

  lemma OneDigit()
    ensures Digits(0) == "0" && Digits(1) == "1" && Digits(2) == "2" && Digits(3) == "3" && Digits(4) == "4"
    ensures Digits(5) == "5" && Digits(6) == "6" && Digits(7) == "7" && Digits(8) == "8" && Digits(9) == "9"
  {
  }

  /** A printed number has no leading zero. Of the texts that read as the number there is only one
      without. */
  lemma {:induction false} NoLeadingZero(n: nat)
    ensures if n == 0 then Digits(n) == "0" else Digits(n)[0] != '0'
  {
    if n >= 10 {
      NoLeadingZero(n / 10);
    }
  }

  // ---------------------------------------------------------------- the example of the format

  function Gain(name: string): Node {
    Node(name, UInt8, ReadWrite, [])
  }

  function Gains(name: string, p: string, i: string, d: string): (n: Node)
    ensures n.name == name && n.vtype == NoType && |n.children| == 3
  {
    Node(name, NoType, ReadOnly, [Gain(p), Gain(i), Gain(d)])
  }

  function Example(): Node {
    Node("root", NoType, ReadOnly, [Gains("rate", "Kp", "Ki", "Kd"), Gains("attitude", "Kp", "Ki", "kd")])
  }

  predicate ExampleValues(d: Values) {
    && ValueAt(d, [0, 0]) == 55 && ValueAt(d, [0, 1]) == 8 && ValueAt(d, [0, 2]) == 3
    && ValueAt(d, [1, 0]) == 35 && ValueAt(d, [1, 1]) == 2 && ValueAt(d, [1, 2]) == 12
  }

  lemma GainText(name: string, v: nat, p: Path, d: Values)
    requires |Digits(v)| <= 10 && ValueAt(d, p) == v
    ensures Described(Gain(name), p, d) == name + "<1>[" + Digits(v) + "]/"
  {
    PrintedType(Gain(name), v);
    hide Digits, NodeString;
    assert DescribedFrom(Gain(name), p, d, 0) == "";
  }

  /** A child and the way back up from it. */
  function GainThere(name: string, v: nat): string {
    name + "<1>[" + Digits(v) + "]/" + "../"
  }

  lemma {:induction false} GainsFrom(n: Node, p: Path, d: Values, i: nat, name: string, v: nat)
    requires i < |n.children| && n.children[i] == Gain(name)
    requires |Digits(v)| <= 10 && ValueAt(d, p + [i]) == v
    ensures DescribedFrom(n, p, d, i) == GainThere(name, v) + DescribedFrom(n, p, d, i + 1)
  {
    hide Digits, Described;
    GainText(name, v, p + [i], d);
  }

  lemma GainsText(n: Node, p: Path, d: Values, names: seq<string>, v: seq<nat>)
    requires |names| == |v| == 3 && n == Gains(n.name, names[0], names[1], names[2])
    requires forall i :: 0 <= i < 3 ==> |Digits(v[i])| <= 10 && ValueAt(d, p + [i]) == v[i]
    ensures Described(n, p, d)
         == n.name + "<0>" + "/" + (GainThere(names[0], v[0]) + (GainThere(names[1], v[1]) + GainThere(names[2], v[2])))
  {
    hide Digits, NodeString, ValueAt, DescribedFrom, Described, GainThere, Gain;
    GroupText(n, p, d);
    GainsFrom(n, p, d, 0, names[0], v[0]);
    GainsFrom(n, p, d, 1, names[1], v[1]);
    GainsFrom(n, p, d, 2, names[2], v[2]);
    NoChildren(n, p, d);
    assert GainThere(names[2], v[2]) + "" == GainThere(names[2], v[2]);
  }

  lemma GroupText(n: Node, p: Path, d: Values)
    requires n.vtype == NoType
    ensures Described(n, p, d) == n.name + "<0>" + "/" + DescribedFrom(n, p, d, 0)
  {
    hide NodeString, DescribedFrom, ValueAt;
    PrintedType(n, ValueAt(d, p));
  }

  lemma NoChildren(n: Node, p: Path, d: Values)
    ensures DescribedFrom(n, p, d, |n.children|) == ""
  {
  }

  lemma RateGains()
    ensures GainThere("Kp", 55) == "Kp<1>[55]/../" && GainThere("Ki", 8) == "Ki<1>[8]/../" && GainThere("Kd", 3) == "Kd<1>[3]/../"
    ensures |Digits(55)| <= 10 && |Digits(8)| <= 10 && |Digits(3)| <= 10
  {
    assert Digits(55) == "55" && Digits(8) == "8" && Digits(3) == "3";
  }

  lemma AttitudeGains()
    ensures GainThere("Kp", 35) == "Kp<1>[35]/../" && GainThere("Ki", 2) == "Ki<1>[2]/../" && GainThere("kd", 12) == "kd<1>[12]/../"
    ensures |Digits(35)| <= 10 && |Digits(2)| <= 10 && |Digits(12)| <= 10
  {
    assert Digits(35) == "35" && Digits(2) == "2" && Digits(12) == "12";
  }

  lemma RateText(d: Values)
    requires ExampleValues(d)
    ensures Described(Gains("rate", "Kp", "Ki", "Kd"), [0], d)
         == "rate<0>" + "/" + ("Kp<1>[55]/../" + ("Ki<1>[8]/../" + "Kd<1>[3]/../"))
  {
    hide Digits, NodeString, ValueAt, DescribedFrom, Described, GainThere, Gain;
    assert [0] + [0] == [0, 0] && [0] + [1] == [0, 1] && [0] + [2] == [0, 2];
    assert "rate" + "<0>" == "rate<0>";
    RateGains();
    GainsText(Gains("rate", "Kp", "Ki", "Kd"), [0], d, ["Kp", "Ki", "Kd"], [55, 8, 3]);
  }

  lemma AttitudeText(d: Values)
    requires ExampleValues(d)
    ensures Described(Gains("attitude", "Kp", "Ki", "kd"), [1], d)
         == "attitude<0>" + "/" + ("Kp<1>[35]/../" + ("Ki<1>[2]/../" + "kd<1>[12]/../"))
  {
    hide Digits, NodeString, ValueAt, DescribedFrom, Described, GainThere, Gain;
    assert [1] + [0] == [1, 0] && [1] + [1] == [1, 1] && [1] + [2] == [1, 2];
    assert "attitude" + "<0>" == "attitude<0>";
    AttitudeGains();
    GainsText(Gains("attitude", "Kp", "Ki", "kd"), [1], d, ["Kp", "Ki", "kd"], [35, 2, 12]);
  }

  lemma ExampleText(d: Values)
    requires ExampleValues(d)
    ensures Described(Example(), [], d) == HeaderText()
  {
    hide Digits, NodeString, ValueAt, DescribedFrom, Described, Gains, ExampleValues;
    assert [] + [0] == [0] && [] + [1] == [1];
    assert "root" + "<0>" == "root<0>";
    RateText(d);
    AttitudeText(d);
    DescribedTurn(Example(), [], d);
    GroupText(Example(), [], d);
  }

  /** The dump of the example, in pieces. */
  function HeaderText(): string {
    "root<0>" + "/"
    + ("rate<0>" + "/" + ("Kp<1>[55]/../" + ("Ki<1>[8]/../" + "Kd<1>[3]/../")) + "../"
       + ("attitude<0>" + "/" + ("Kp<1>[35]/../" + ("Ki<1>[2]/../" + "kd<1>[12]/../")) + "../"))
  }

  lemma DescribedTurn(n: Node, p: Path, d: Values)
    requires |n.children| == 2
    ensures DescribedFrom(n, p, d, 0) == Described(n.children[0], p + [0], d) + "../" + (Described(n.children[1], p + [1], d) + "../")
  {
    hide NodeString, ValueAt, Described;
    assert DescribedFrom(n, p, d, 2) == "";
    assert DescribedFrom(n, p, d, 1) == Described(n.children[1], p + [1], d) + "../";
  }

  lemma {:induction false} ExampleFits()
    ensures FitsDepth(Example(), 8)
  {
    assert forall name, levels: nat :: levels > 0 ==> FitsDepth(Gain(name), levels);
    assert FitsDepth(Gains("rate", "Kp", "Ki", "Kd"), 7) && FitsDepth(Gains("attitude", "Kp", "Ki", "kd"), 7);
  }

  /** A tree is dumped in one message, to this text. */
  predicate DumpsTo(root: Node, d: Values, text: string)
    requires FitsDepth(root, 8)
  {
    var r := DumpNode(root, [], d, PARAM_BUFFER_LEN, 1, FreshStart());
    r.ok && NodesOf(root, r.tokens) && TextOf(root, d, r.tokens) == text
  }

  /** The tree of the header is dumped in one message, and to the text that the header shows. */
  lemma ExampleDump(root: Node, d: Values)
    requires root == Example() && ExampleValues(d)
    ensures FitsDepth(root, 8) && DumpsTo(root, d, HeaderText())
  {
    ExampleFits();
    hide NodeString, ValueAt, DescribedFrom, DumpNode, FitsDepth, FreshStart, TextOf, NodesOf, Described, Example,
      ExampleValues;
    ExampleText(d);
    assert IsNode(root, []) && NodeAt(root, []) == root;
    assert |HeaderText()| <= 120;
    DumpIsDescription(root, root, [], d, PARAM_BUFFER_LEN, 1, FreshStart());
  }

  lemma GroupNamed(n: Node, a: string, b: string, c: string, p: Path)
    requires n == Gains(n.name, a, b, c) && IsNode(n, p)
    requires ValidName(n.name) && ValidName(a) && ValidName(b) && ValidName(c) && a != b && a != c && b != c
    ensures ValidName(NodeAt(n, p).name) && DistinctNames(NodeAt(n, p).children)
  {
    hide ValidName;
    assert n.children == [Gain(a), Gain(b), Gain(c)];
    if p != [] {
      assert n.children[p[0]].children == [] && p[1..] == [];
    }
  }

  lemma ExampleNames()
    ensures ValidName("root") && ValidName("rate") && ValidName("attitude")
    ensures ValidName("Kp") && ValidName("Ki") && ValidName("Kd") && ValidName("kd")
    ensures "Kp"[1] != "Ki"[1] && "Kp"[1] != "Kd"[1] && "Ki"[1] != "Kd"[1] && "Kd"[1] == "kd"[1]
    ensures "rate" != "attitude"
  {
    assert |"rate"| != |"attitude"|;
  }

  lemma ExampleNamed()
    ensures WellNamed(Example())
  {
    hide ValidName, Example, DistinctNames;
    var n := Example();
    forall p | IsNode(n, p)
      ensures ValidName(NodeAt(n, p).name) && DistinctNames(NodeAt(n, p).children)
    {
      ExampleNodes(n, p);
    }
  }

  lemma ExampleNodes(n: Node, p: Path)
    requires n == Example() && IsNode(n, p)
    ensures ValidName(NodeAt(n, p).name) && DistinctNames(NodeAt(n, p).children)
  {
    assert n.children[0] == Gains("rate", "Kp", "Ki", "Kd") && n.children[1] == Gains("attitude", "Kp", "Ki", "kd");
    assert n.name == "root" && |n.children| == 2;
    ExampleNames();
    hide ValidName, Gains, Example;
    if p != [] {
      if p[0] == 0 {
        GroupNamed(n.children[0], "Kp", "Ki", "Kd", p[1..]);
      } else {
        GroupNamed(n.children[1], "Kp", "Ki", "kd", p[1..]);
      }
    }
  }

  /** The text that sets rate/Ki, with its type or without. */
  lemma KiText(typed: bool, value: string)
    ensures IsNode(Example(), [0, 1])
    ensures PathText(Way(Example(), [0, 1], [false, false, typed], value))
         == "root" + "/" + ("rate" + "/" + ("Ki" + (if typed then "<1>" else "") + ("[" + value + "]") + "/"))
  {
    var n := Example();
    var rate := n.children[0];
    assert rate == Gains("rate", "Kp", "Ki", "Kd") && n.name == "root";
    assert rate.children[1] == Gain("Ki");
    assert [0, 1][1..] == [1] && [1][1..] == [];
    assert [false, false, typed][1..] == [false, typed] && [false, typed][1..] == [typed];
    OneDigit();
    hide Example, Digits, Module;
    var last := Piece("Ki", if typed then Some("1") else None, Some(value));
    assert TypeText(UInt8) == "1";
    assert Way(rate.children[1], [], [typed], value) == [last];
    var middle, first := Piece("rate", None, None), Piece("root", None, None);
    assert Way(rate, [1], [false, typed], value) == [middle] + [last];
    assert Way(n, [0, 1], [false, false, typed], value) == [first] + ([middle] + [last]);
    KiModules(first, middle, last, typed, value);
  }

  lemma KiModules(first: Piece, middle: Piece, last: Piece, typed: bool, value: string)
    requires first == Piece("root", None, None) && middle == Piece("rate", None, None)
    requires last == Piece("Ki", if typed then Some("1") else None, Some(value))
    ensures PathText([first] + ([middle] + [last]))
         == "root" + "/" + ("rate" + "/" + ("Ki" + (if typed then "<1>" else "") + ("[" + value + "]") + "/"))
  {
    assert Module(first) == "root" && Module(middle) == "rate";
    assert Module(last) == "Ki" + (if typed then "<1>" else "") + ("[" + value + "]");
    hide Module;
    assert ([first] + ([middle] + [last]))[1..] == [middle] + [last] && ([middle] + [last])[1..] == [last] && [last][1..] == [];
    assert PathText([last]) == Module(last) + "/" + "" == Module(last) + "/";
    assert PathText([middle] + [last]) == Module(middle) + "/" + PathText([last]);
  }

  lemma KiLiterals()
    ensures "root" + "/" + ("rate" + "/" + ("Ki" + "<1>" + ("[" + "12" + "]") + "/")) == "root/rate/Ki<1>[12]/"
    ensures "root" + "/" + ("rate" + "/" + ("Ki" + "" + ("[" + "13" + "]") + "/")) == "root/rate/Ki[13]/"
  {
  }

  /** The two ways in which the header sets rate/Ki, closed by a separator as the code needs it: with
      its type to 12, and without to 13. Nothing else changes. */
  lemma {:induction false} ExampleSet(root: Node, values: Values)
    requires root == Example()
    ensures SetsOne(values, SetByMessage(root, values, "/" + "root/rate/Ki<1>[12]/"), [0, 1], Some(12))
    ensures SetsOne(values, SetByMessage(root, values, "/" + "root/rate/Ki[13]/"), [0, 1], Some(13))
  {
    KiText(true, "12");
    KiText(false, "13");
    KiLiterals();
    KiNumbers();
    KiNode(root);
    ExampleNamed();
    hide Example, WellNamed, SetByMessage, SetsOne, Way, PathText, Decimal, Accepted, Readable, ValidPiece, Descent, RootAt;
    NoPieces();
    KiSets(root, true, 12, values);
    KiSets(root, false, 13, values);
  }

  lemma NoPieces()
    ensures Descent([]) == 0
  {
  }

  lemma KiSets(root: Node, typed: bool, v: int, values: Values)
    requires WellNamed(root) && IsNode(root, [0, 1]) && Settable(NodeAt(root, [0, 1])) && |Decimal(v)| <= 9
    ensures SetsOne(values, SetByMessage(root, values, "/" + PathText(Way(root, [0, 1], [false, false, typed], Decimal(v)))),
                    [0, 1], Accepted(NodeAt(root, [0, 1]).vtype, v))
  {
    hide WellNamed, SetByMessage, SetsOne, Way, PathText, Decimal, Accepted, Readable, ValidPiece, Descent, RootAt, IsNode, NodeAt,
      Settable;
    NoPieces();
    PathSets(root, [], [0, 1], [false, false, typed], v, values);
    var way := Way(root, [0, 1], [false, false, typed], Decimal(v));
    assert [] + way == way;
  }

  lemma KiNode(n: Node)
    requires n == Example()
    ensures IsNode(n, [0, 1]) && NodeAt(n, [0, 1]) == Gain("Ki") && Settable(Gain("Ki"))
  {
    assert n.children[0] == Gains("rate", "Kp", "Ki", "Kd");
    assert [0, 1][1..] == [1] && [1][1..] == [];
  }

  lemma KiNumbers()
    ensures Decimal(12) == "12" && Decimal(13) == "13" && Accepted(UInt8, 12) == Some(12) && Accepted(UInt8, 13) == Some(13)
  {
  }
}
