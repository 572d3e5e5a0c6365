/** Which dumps restore a tree: exactly those all of whose settable values survive printing. */
module ParamRestore {
  import opened Options
  import opened ParamText
  import opened ParamTree
  import opened ParamWalk
  import opened ParamDump

  /** Every settable node holds a value of its type. */
  ghost predicate AllInRange(root: Node, d: Values) {
    forall p :: IsNode(root, p) && Settable(NodeAt(root, p)) ==> InRange(NodeAt(root, p).vtype, ValueAt(d, p))
  }

  ghost predicate AllSurvive(root: Node, d: Values) {
    forall p :: IsNode(root, p) && Settable(NodeAt(root, p)) ==> Survives(NodeAt(root, p).vtype, ValueAt(d, p))
  }

  /** A node whose value does not survive. */
  predicate Lost(root: Node, d: Values, p: Path) {
    && IsNode(root, p) && Settable(NodeAt(root, p))
    && InRange(NodeAt(root, p).vtype, ValueAt(d, p)) && !Survives(NodeAt(root, p).vtype, ValueAt(d, p))
  }

  /** Its printed value is refused or leaves the node as it is. */
  lemma LostValue(n: Node, current: int, v: int)
    requires Settable(n) && InRange(n.vtype, v) && !Survives(n.vtype, v)
    ensures SetValue(n, current, ValueText(n, v)) in {None, Some(current)}
  {
    hide StrToL, Decimal;
    StrToLOfDecimal(v);
    if |Decimal(v)| <= 9 {
      HighestRefused(n.vtype);
    }
  }

  lemma HighestRefused(t: VType)
    ensures Accepted(t, Highest(t)) == None
  {
  }

  /** Reading a walk never changes such a node. */
  lemma {:induction false} WalkKeeps(root: Node, p: Path, values: Values, d: Values, tokens: seq<Token>, lost: Path)
    requires WellNamed(root) && IsNode(root, p) && Lost(root, d, lost)
    requires Walks(root, p, tokens) && NodesOf(root, tokens)
    ensures var res := SetLoop(root, p, values, TextOf(root, d, tokens));
            res.ok ==> ValueAt(res.values, lost) == ValueAt(values, lost)
    decreases |tokens|
  {
    hide NodeString, WellNamed, NodeAt, IsNode, ModuleString, FindNext, UpdateCurrent, SetValue, ValueText, ValidName,
      InRange, Survives, Settable;
    if tokens != [] {
      var t, rest, tail := tokens[0], TextOf(root, d, tokens[1..]), tokens[1..];
      match t {
        case Enter(q) =>
          var n, v := NodeAt(root, q), ValueAt(d, q);
          EnterFinds(root, p, q, values, d);
          ModuleOfNode(n, v, rest);
          var u := UpdateCurrent(n, ValueAt(values, q), NodeString(n, v));
          if q == lost {
            LostValue(n, ValueAt(values, q), v);
          }
          if u.Some? {
            WalkKeeps(root, q, values[q := u.value], d, tail, lost);
          }
        case Up =>
          ParentAt(root, p);
          SetUp(root, p, values, rest);
          var q := p[..|p| - 1];
          WalkKeeps(root, q, values[q := ValueAt(values, q)], d, tail, lost);
      }
    }
  }

  lemma LostAt(root: Node, d: Values, p: Path)
    requires Lost(root, d, p)
    ensures IsNode(root, p) && Settable(NodeAt(root, p))
    ensures InRange(NodeAt(root, p).vtype, ValueAt(d, p)) && !Survives(NodeAt(root, p).vtype, ValueAt(d, p))
  {
  }

  lemma {:induction false} DumpKeeps(root: Node, values: Values, d: Values, ok: bool, tokens: seq<Token>, lost: Path)
    requires WellNamed(root) && Lost(root, d, lost)
    requires Visit(root, [], ok, tokens) && tokens != [] && NodesOf(root, tokens)
    ensures var res := SetFromRoot(root, values, TextOf(root, d, tokens));
            res.ok ==> ValueAt(res.values, lost) == ValueAt(values, lost)
  {
    hide ModuleString, UpdateCurrent, NodeString, WellNamed, ValidName, Walks, SetLoop, InRange, Survives, SetValue,
      ValueText, Settable, Lost;
    var tail, v := tokens[1..], ValueAt(d, []);
    var rest := TextOf(root, d, tail);
    assert IsNode(root, []) && NodeAt(root, []) == root;
    LostAt(root, d, lost);
    EnteredNamed(root, []);
    ModuleOfNode(root, v, rest);
    UpdateFromPrinted(root, ValueAt(values, []), v);
    if lost == [] {
      LostValue(root, ValueAt(values, []), v);
    }
    var u := UpdateCurrent(root, ValueAt(values, []), NodeString(root, v));
    if u.Some? {
      WalkKeeps(root, [], values[[] := u.value], d, tail, lost);
    }
  }

  lemma {:induction false} SeriesKeeps(root: Node, values: Values, d: seq<Values>, v: Values, cap: nat, s: seq<nat>,
      dumps: seq<Dump>, lost: Path)
    requires WellNamed(root) && FitsDepth(root, 8) && cap > MAX_PARAM_NODE_LENGTH && Lost(root, v, lost)
    requires |s| == 8 && Series(root, d, cap, s, dumps) && Steady(d, v)
    requires forall i :: 0 <= i < |dumps| ==> NodesOf(root, dumps[i].tokens)
    ensures var res := SetInTurn(root, values, v, dumps);
            res.ok ==> ValueAt(res.values, lost) == ValueAt(values, lost)
    decreases |dumps|
  {
    hide WellNamed, SetFromRoot, Visit, FitsDepth, DumpChildren, NodeString, TextOf, Lost, NodesOf;
    var r := dumps[0];
    assert IsNode(root, []) && NodeAt(root, []) == root;
    NodeVisits(root, root, [], v, cap, 1, s);
    DumpKeeps(root, values, v, r.ok, r.tokens, lost);
    if |dumps| > 1 {
      SeriesKeeps(root, SetFromRoot(root, values, TextOf(root, v, r.tokens)).values, d[1..], v, cap, r.start, dumps[1..], lost);
    }
  }

  lemma {:induction false} SeriesNodes(root: Node, d: seq<Values>, cap: nat, s: seq<nat>, dumps: seq<Dump>)
    requires |s| == 8 && FitsDepth(root, 8) && Series(root, d, cap, s, dumps)
    ensures forall i :: 0 <= i < |dumps| ==> NodesOf(root, dumps[i].tokens)
    decreases |dumps|
  {
    hide DumpNode, FitsDepth, NodesOf;
    DumpNodes(root, d[0], cap, 1, s);
    if |dumps| > 1 {
      SeriesNodes(root, d[1..], cap, dumps[0].start, dumps[1..]);
      assert forall i :: 1 <= i < |dumps| ==> dumps[i] == dumps[1..][i - 1];
    }
  }

  /** The receiver accepted everything and took over the values of the nodes entered, no others. */
  ghost predicate TookOver(root: Node, values: Values, v: Values, entered: set<Path>, res: SetResult) {
    res.ok && Overlaid(root, values, v, entered, res.values)
  }

  lemma NotTookOver(root: Node, values: Values, v: Values, entered: set<Path>, res: SetResult, lost: Path)
    requires Lost(root, v, lost) && lost in entered && ValueAt(values, lost) != ValueAt(v, lost)
    requires res.ok ==> ValueAt(res.values, lost) == ValueAt(values, lost)
    ensures !TookOver(root, values, v, entered, res)
  {
    hide NodeAt, IsNode, Settable, InRange, Survives;
  }

  /** The messages of a series restore every tree of the shape if and only if all settable values
      survive: they print in at most nine characters and are not the maximum of their type. */
  lemma RestoresIfAllSurvive(root: Node, d: seq<Values>, v: Values, cap: nat, dumps: seq<Dump>)
    requires WellNamed(root) && AllInRange(root, v) && FitsDepth(root, 8)
    requires Series(root, d, cap, FreshStart(), dumps) && Steady(d, v)
    ensures forall i :: 0 <= i < |dumps| ==> NodesOf(root, dumps[i].tokens)
    ensures (forall values :: TookOver(root, values, v, EnteredInSeries(dumps), SetInTurn(root, values, v, dumps)))
       <==> AllSurvive(root, v)
  {
    hide WellNamed, FitsDepth, Series, SetInTurn, EnteredInSeries, NodesOf, Survives, InRange, Settable, NodeAt,
      IsNode, FreshStart, Steady, Overlaid;
    SeriesNodes(root, d, cap, FreshStart(), dumps);
    SeriesHasRoom(root, d, cap, FreshStart(), dumps);
    if AllSurvive(root, v) {
      forall values
        ensures TookOver(root, values, v, EnteredInSeries(dumps), SetInTurn(root, values, v, dumps))
      {
        SeriesRestores(root, values, d, v, cap, dumps);
      }
    } else {
      var lost :| IsNode(root, lost) && Settable(NodeAt(root, lost)) && !Survives(NodeAt(root, lost).vtype, ValueAt(v, lost));
      var values: Values := map[lost := ValueAt(v, lost) + 1];
      NothingSkipped(root, d, cap, dumps, lost);
      SeriesKeeps(root, values, d, v, cap, FreshStart(), dumps, lost);
      NotTookOver(root, values, v, EnteredInSeries(dumps), SetInTurn(root, values, v, dumps), lost);
    }
  }

  /** The same of a dump that finished in one message. */
  lemma DumpRestoresIfAllSurvive(root: Node, d: Values, cap: nat, r: Dump)
    requires WellNamed(root) && AllInRange(root, d) && FitsDepth(root, 8)
    requires r == DumpNode(root, [], d, cap, 1, FreshStart()) && r.ok
    ensures NodesOf(root, r.tokens)
    ensures (forall values :: TookOver(root, values, d, Entered(r.tokens), SetFromRoot(root, values, TextOf(root, d, r.tokens))))
       <==> AllSurvive(root, d)
  {
    hide *;
    DumpNodes(root, d, cap, 1, FreshStart());
    SeriesOfOne(root, map[], d, cap, r);
    RestoresIfAllSurvive(root, [d], d, cap, [r]);
    if AllSurvive(root, d) {
      forall values
        ensures TookOver(root, values, d, Entered(r.tokens), SetFromRoot(root, values, TextOf(root, d, r.tokens)))
      {
        SeriesOfOne(root, values, d, cap, r);
        assert TookOver(root, values, d, EnteredInSeries([r]), SetInTurn(root, values, d, [r]));
      }
    } else {
      var values :| !TookOver(root, values, d, EnteredInSeries([r]), SetInTurn(root, values, d, [r]));
      SeriesOfOne(root, values, d, cap, r);
      assert !TookOver(root, values, d, Entered(r.tokens), SetFromRoot(root, values, TextOf(root, d, r.tokens)));
    }
  }
}
