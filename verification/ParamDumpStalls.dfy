/** Resuming a dump does not always get to its end: when a subtree is printed to its end but the
    way back up does not fit any more, the next message starts that subtree again. */
module ParamDumpStalls {
  import opened ParamText
  import opened ParamTree
  import opened ParamDump

  /** A chain of typed nodes, each with the next one as its only child. */
  function Chain(k: nat): (n: Node)
    ensures n.vtype == UInt16 && |n.name| == 16
    ensures n.children == if k == 0 then [] else [Chain(k - 1)]
  {
    Node("integral.limit.x", UInt16, ReadWrite, if k == 0 then [] else [Chain(k - 1)])
  }

  /** A root above seven such nodes: eight levels, the depth the dump is made for. */
  function Deep(): (n: Node)
    ensures n.children == [Chain(6)]
  {
    Node("r", NoType, ReadOnly, [Chain(6)])
  }

  function Zeros(k: nat): (p: Path)
    ensures |p| == k && forall i :: 0 <= i < k ==> p[i] == 0
  {
    if k == 0 then [] else Zeros(k - 1) + [0]
  }

  /** All values print in four characters. */
  predicate FourDigits(d: Values) {
    forall k :: 1 <= k <= 7 ==> |Decimal(ValueAt(d, Zeros(k)))| == 4
  }

  lemma {:induction false} ChainFits(k: nat)
    ensures FitsDepth(Chain(k), k + 1)
  {
    hide Chain;
    if k > 0 {
      ChainFits(k - 1);
    }
  }

  lemma ChainLength(k: nat, d: Values, level: nat)
    requires FourDigits(d) && 1 <= level <= 7
    ensures |NodeString(Chain(k), ValueAt(d, Zeros(level)))| + 1 == 26
  {
    assert |Digits(2)| == 1;
    hide Decimal;
  }

  /** The dump of a node with one child: the child, and back up if there is room. */
  lemma {:induction false} OnlyChild(n: Node, c: Node, p: Path, d: Values, used: nat, s: seq<nat>, r: Dump)
    requires |s| == 8 && |p| < 7 && FitsDepth(n, 8 - |p|) && FitsDepth(c, 8 - |p + [0]|)
    requires n.children == [c] && s[|p|] == 0 && used + MAX_PARAM_NODE_LENGTH <= PARAM_BUFFER_LEN
    requires r == DumpNode(c, p + [0], d, PARAM_BUFFER_LEN, used + |NodeString(n, ValueAt(d, p))| + 1, s)
    ensures var whole := DumpNode(n, p, d, PARAM_BUFFER_LEN, used, s);
            if !r.ok || r.used + 4 > PARAM_BUFFER_LEN then !whole.ok && whole.start == r.start
            else whole.ok && whole.used == r.used + 3 && whole.start == r.start[|p| := 0]
  {
    hide DumpNode, DumpChildren, FitsDepth, NodeString;
    var used1 := used + |NodeString(n, ValueAt(d, p))| + 1;
    DumpTurn(n, p, d, PARAM_BUFFER_LEN, used, s);
    assert s[|p| := 0] == s;
    LoopTurn(n, p, d, PARAM_BUFFER_LEN, used1, s, 0, r);
    LoopEnd(n, p, d, PARAM_BUFFER_LEN, r.used + 3, r.start, 1);
  }

  /** A chain at the end of the tree prints itself whole but leaves too little room to get back
      up through all of it; its start indices are all zero then. */
  lemma {:induction false} ChainDump(k: nat, level: nat, d: Values, used: nat)
    requires FourDigits(d) && 1 <= level && level + k == 7 && used + 26 * k + MAX_PARAM_NODE_LENGTH <= PARAM_BUFFER_LEN
    requires FitsDepth(Chain(k), 8 - level)
    ensures var r := DumpNode(Chain(k), Zeros(level), d, PARAM_BUFFER_LEN, used, FreshStart());
            && r.start == FreshStart()
            && (r.ok <==> k == 0 || used + 26 * (k + 1) + 3 * (k - 1) + 4 <= PARAM_BUFFER_LEN)
            && (r.ok ==> r.used == used + 26 * (k + 1) + 3 * k)
    decreases k
  {
    hide NodeString, FourDigits, Chain, DumpNode, DumpChildren, FitsDepth, FreshStart, Zeros;
    ChainLength(k, d, level);
    var s, p := FreshStart(), Zeros(level);
    assert s[level := 0] == s;
    if k > 0 {
      ChildFits(Chain(k), p, 0);
      ZerosMore(level);
      ChainDump(k - 1, level + 1, d, used + 26);
      OnlyChild(Chain(k), Chain(k - 1), p, d, used, s, DumpNode(Chain(k - 1), p + [0], d, PARAM_BUFFER_LEN, used + 26, s));
    } else {
      DumpTurn(Chain(k), p, d, PARAM_BUFFER_LEN, used, s);
      LoopEnd(Chain(k), p, d, PARAM_BUFFER_LEN, used + 26, s, 0);
    }
  }

  lemma {:induction false} ZerosMore(k: nat)
    ensures Zeros(k + 1) == Zeros(k) + [0]
    ensures Zeros(1) == [] + [0]
  {
    assert Zeros(0) == [];
  }

  lemma DeepFits()
    ensures FitsDepth(Deep(), 8)
  {
    hide Chain;
    ChainFits(6);
  }

  lemma {:induction false} RootLength(v: int)
    ensures |NodeString(Deep(), v)| == 4
  {
    hide Chain;
    assert |Digits(0)| == 1;
  }

  /** In one message the dump of this tree stops, and stops where it began. */
  lemma {:induction false} DeepDump(root: Node, p: Path, d: Values)
    requires root == Deep() && p == [] && FourDigits(d) && FitsDepth(root, 8 - |p|)
    ensures var r := DumpNode(root, p, d, PARAM_BUFFER_LEN, 1, FreshStart());
            !r.ok && r.start == FreshStart()
  {
    hide FourDigits, Chain, NodeString, DumpNode, DumpChildren, FitsDepth, FreshStart, Zeros, Deep;
    RootLength(ValueAt(d, p));
    ZerosMore(0);
    ChildFits(root, p, 0);
    ChainDump(6, 1, d, 6);
    OnlyChild(root, Chain(6), p, d, 1, FreshStart(), DumpNode(Chain(6), p + [0], d, PARAM_BUFFER_LEN, 6, FreshStart()));
  }

  /** No number of messages is enough: no series of dumps of this tree comes to an end. */
  lemma {:induction false} NeverFinishes(d: seq<Values>, dumps: seq<Dump>)
    requires FitsDepth(Deep(), 8) && forall i :: 0 <= i < |d| ==> FourDigits(d[i])
    ensures !Series(Deep(), d, PARAM_BUFFER_LEN, FreshStart(), dumps)
    decreases |dumps|
  {
    hide DumpNode, FourDigits, Deep, FitsDepth;
    if dumps != [] && |d| == |dumps| {
      DeepDump(Deep(), [], d[0]);
      if |dumps| > 1 {
        NeverFinishes(d[1..], dumps[1..]);
      }
    }
  }
}
