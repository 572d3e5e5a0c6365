/** The resumable dump of a parameter tree (Param_AppendDumpFromHere): it stops when the buffer
    is full, remembers for each level the child it was working on, and goes on from there. */
module ParamDump {
  import opened ParamText
  import opened ParamTree
  import opened ParamWalk

  // MAX_DEPTH is 8.

  /** The size of the payload buffer of an answer. */
  const PARAM_BUFFER_LEN: nat := 200

  /** A tree of at most so many levels. */
  predicate FitsDepth(n: Node, levels: nat) {
    levels > 0 && forall i :: 0 <= i < |n.children| ==> FitsDepth(n.children[i], levels - 1)
  }

  /** The outcome of a dump: whether it finished, what it printed, the length of the text so
      far, and the helper's start indices. */
  datatype Dump = Dump(ok: bool, tokens: seq<Token>, used: nat, start: seq<nat>)

  function DumpNode(n: Node, p: Path, d: Values, cap: nat, used: nat, start: seq<nat>): (r: Dump)
    requires |start| == 8 && |p| < 8 && FitsDepth(n, 8 - |p|)
    ensures |r.start| == 8
    decreases n, |n.children| + 1
  {
    if used + MAX_PARAM_NODE_LENGTH > cap then Dump(false, [], used, start)
    else
      var r := DumpChildren(n, p, d, cap, used + |NodeString(n, ValueAt(d, p))| + 1, start, start[|p|]);
      r.(tokens := [Enter(p)] + r.tokens)
  }

  /** The loop over the children from index i on. */
  function DumpChildren(n: Node, p: Path, d: Values, cap: nat, used: nat, start: seq<nat>, i: nat): (r: Dump)
    requires |start| == 8 && |p| < 8 && FitsDepth(n, 8 - |p|)
    ensures |r.start| == 8
    decreases n, if i < |n.children| then |n.children| - i else 0
  {
    if i >= |n.children| then Dump(true, [], used, start[|p| := 0])
    else
      assert FitsDepth(n.children[i], 8 - |p| - 1);
      var r := DumpNode(n.children[i], p + [i], d, cap, used, start[|p| := i]);
      if !r.ok || r.used + 4 > cap then r.(ok := false)
      else
        var rest := DumpChildren(n, p, d, cap, r.used + 3, r.start, i + 1);
        rest.(tokens := r.tokens + [Up] + rest.tokens)
  }

  // ---------------------------------------------------------------- one step of a dump

  /** A dump that had printed `a` before. */
  function Joined(a: seq<Token>, r: Dump): Dump {
    r.(tokens := a + r.tokens)
  }

  lemma {:induction false} DumpTurn(n: Node, p: Path, d: Values, cap: nat, used: nat, s: seq<nat>)
    requires |s| == 8 && |p| < 8 && FitsDepth(n, 8 - |p|)
    ensures used + MAX_PARAM_NODE_LENGTH > cap ==> DumpNode(n, p, d, cap, used, s) == Dump(false, [], used, s)
    ensures var used1 := used + |NodeString(n, ValueAt(d, p))| + 1;
            used + MAX_PARAM_NODE_LENGTH <= cap ==> DumpNode(n, p, d, cap, used, s) == Joined([Enter(p)], DumpChildren(n, p, d, cap, used1, s, s[|p|]))
  {
    hide FitsDepth, DumpChildren, NodeString;
  }

  lemma {:induction false} ChildFits(n: Node, p: Path, i: nat)
    requires |p| < 8 && FitsDepth(n, 8 - |p|) && i < |n.children|
    ensures |p + [i]| < 8 && FitsDepth(n.children[i], 8 - |p + [i]|)
  {
    assert FitsDepth(n.children[i], 8 - |p| - 1);
  }

  /** One turn of the loop over the children, the one that visits child i. */
  lemma {:induction false} LoopTurn(n: Node, p: Path, d: Values, cap: nat, used: nat, s: seq<nat>, i: nat, r: Dump)
    requires |s| == 8 && |p| < 8 && FitsDepth(n, 8 - |p|) && i < |n.children|
    requires |p + [i]| < 8 && FitsDepth(n.children[i], 8 - |p + [i]|)
    requires r == DumpNode(n.children[i], p + [i], d, cap, used, s[|p| := i])
    ensures !r.ok || r.used + 4 > cap ==> DumpChildren(n, p, d, cap, used, s, i) == r.(ok := false)
    ensures r.ok && r.used + 4 <= cap ==>
              var rest := DumpChildren(n, p, d, cap, r.used + 3, r.start, i + 1);
              DumpChildren(n, p, d, cap, used, s, i) == Joined(r.tokens + [Up], rest)
  {
    hide FitsDepth, DumpNode;
  }

  lemma {:induction false} LoopEnd(n: Node, p: Path, d: Values, cap: nat, used: nat, s: seq<nat>, i: nat)
    requires |s| == 8 && |p| < 8 && FitsDepth(n, 8 - |p|) && i >= |n.children|
    ensures DumpChildren(n, p, d, cap, used, s, i) == Dump(true, [], used, s[|p| := 0])
  {
    hide FitsDepth, DumpNode;
  }

  // ---------------------------------------------------------------- a dump is a walk

  function WalkEnd(p: Path, tokens: seq<Token>): Path
    decreases |tokens|
  {
    if tokens == [] then p else WalkEnd(Moved(p, tokens[0]), tokens[1..])
  }

  lemma {:induction false} WalksAppend(root: Node, p: Path, a: seq<Token>, b: seq<Token>)
    requires Walks(root, p, a) && Walks(root, WalkEnd(p, a), b)
    ensures Walks(root, p, a + b) && WalkEnd(p, a + b) == WalkEnd(WalkEnd(p, a), b)
    decreases |a|
  {
    if a == [] {
      assert a + b == b;
    } else {
      assert (a + b)[1..] == a[1..] + b;
      WalksAppend(root, Moved(p, a[0]), a[1..], b);
    }
  }

  /** What DumpNode prints: nothing, or the node and then a walk that starts from it and, if
      the dump finished, returns to it. */
  ghost predicate Visit(root: Node, p: Path, ok: bool, tokens: seq<Token>) {
    if tokens == [] then !ok
    else tokens[0] == Enter(p) && Tour(root, p, ok, tokens[1..])
  }

  ghost predicate Tour(root: Node, p: Path, ok: bool, tokens: seq<Token>) {
    Walks(root, p, tokens) && NodesOf(root, tokens) && (ok ==> WalkEnd(p, tokens) == p)
  }

  lemma {:induction false} NodeVisits(root: Node, n: Node, p: Path, d: Values, cap: nat, used: nat, start: seq<nat>)
    requires |start| == 8 && |p| < 8 && FitsDepth(n, 8 - |p|)
    requires IsNode(root, p) && NodeAt(root, p) == n
    ensures var r := DumpNode(n, p, d, cap, used, start);
            Visit(root, p, r.ok, r.tokens)
    decreases n, |n.children| + 1
  {
    hide Tour, NodeString, DumpNode, DumpChildren, IsNode, NodeAt, FitsDepth;
    DumpTurn(n, p, d, cap, used, start);
    if used + MAX_PARAM_NODE_LENGTH <= cap {
      var used1 := used + |NodeString(n, ValueAt(d, p))| + 1;
      ChildrenTour(root, n, p, d, cap, used1, start, start[|p|]);
      var r := DumpChildren(n, p, d, cap, used1, start, start[|p|]);
      assert ([Enter(p)] + r.tokens)[1..] == r.tokens;
    }
  }

  lemma {:induction false} ChildrenTour(root: Node, n: Node, p: Path, d: Values, cap: nat, used: nat, start: seq<nat>,
      i: nat)
    requires |start| == 8 && |p| < 8 && FitsDepth(n, 8 - |p|)
    requires IsNode(root, p) && NodeAt(root, p) == n
    ensures var r := DumpChildren(n, p, d, cap, used, start, i);
            Tour(root, p, r.ok, r.tokens)
    decreases n, if i < |n.children| then |n.children| - i else 0
  {
    hide DumpNode, DumpChildren, FitsDepth, Visit, IsNode, NodeAt;
    if i < |n.children| {
      hide Tour;
      ChildFits(n, p, i);
      ChildAt(root, p, i);
      var r := DumpNode(n.children[i], p + [i], d, cap, used, start[|p| := i]);
      LoopTurn(n, p, d, cap, used, start, i, r);
      NodeVisits(root, n.children[i], p + [i], d, cap, used, start[|p| := i]);
      if r.ok && r.used + 4 <= cap {
        var rest := DumpChildren(n, p, d, cap, r.used + 3, r.start, i + 1);
        VisitAndBack(root, p, i, r.tokens);
        ChildrenTour(root, n, p, d, cap, r.used + 3, r.start, i + 1);
        ToursJoin(root, p, rest.ok, r.tokens + [Up], rest.tokens);
      } else {
        VisitStops(root, p, i, r.ok, r.tokens);
      }
    } else {
      LoopEnd(n, p, d, cap, used, start, i);
      assert Tour(root, p, true, []);
    }
  }

  /** Visiting a child, whether finished or not, is a tour from the parent. */
  lemma VisitStops(root: Node, p: Path, i: nat, ok: bool, tokens: seq<Token>)
    requires IsNode(root, p + [i]) && Visit(root, p + [i], ok, tokens)
    ensures Tour(root, p, false, tokens)
  {
    if tokens != [] {
      var q := p + [i];
      assert q[..|q| - 1] == p;
      hide IsNode;
      assert forall j :: 1 <= j < |tokens| ==> tokens[j] == tokens[1..][j - 1];
    }
  }

  /** A finished visit of a child, and back up, is a finished tour from the parent. */
  lemma VisitAndBack(root: Node, p: Path, i: nat, tokens: seq<Token>)
    requires IsNode(root, p + [i]) && Visit(root, p + [i], true, tokens)
    ensures Tour(root, p, true, tokens + [Up])
  {
    var q, inner := p + [i], tokens[1..];
    assert q[..|q| - 1] == p;
    VisitStops(root, p, i, true, tokens);
    BackUp(root, q);
    WalksAppend(root, q, inner, [Up]);
    assert (tokens + [Up])[1..] == inner + [Up];
    assert (tokens + [Up])[0] == Enter(q);
  }

  lemma BackUp(root: Node, q: Path)
    requires q != []
    ensures Walks(root, q, [Up]) && WalkEnd(q, [Up]) == q[..|q| - 1]
  {
    assert [Up][1..] == [];
    assert Walks(root, q[..|q| - 1], []) && WalkEnd(q[..|q| - 1], []) == q[..|q| - 1];
  }

  lemma ToursJoin(root: Node, p: Path, ok: bool, a: seq<Token>, b: seq<Token>)
    requires Tour(root, p, true, a) && Tour(root, p, ok, b)
    ensures Tour(root, p, ok, a + b)
  {
    hide IsNode;
    WalksAppend(root, p, a, b);
  }

  // ---------------------------------------------------------------- coverage

  /** A node comes before the position of the start indices, seen from level k. */
  predicate Before(q: Path, k: nat, s: seq<nat>)
    requires |q| <= |s|
    decreases |q| - k
  {
    k < |q| && (q[k] < s[k] || (q[k] == s[k] && Before(q, k + 1, s)))
  }

  predicate ZeroFrom(s: seq<nat>, k: nat) {
    forall j :: k <= j < |s| ==> s[j] == 0
  }

  /** Start indices a dump of n may be resumed with: a path of existing children, then zeros. */
  predicate Resumable(n: Node, k: nat, s: seq<nat>)
    decreases n
  {
    || ZeroFrom(s, k)
    || (k < |s| && s[k] < |n.children| && Resumable(n.children[s[k]], k + 1, s))
  }

  lemma {:induction false} ZeroBefore(q: Path, k: nat, s: seq<nat>)
    requires |q| <= |s| && ZeroFrom(s, k)
    ensures !Before(q, k, s)
    decreases |q| - k
  {
    if k < |q| {
      ZeroBefore(q, k + 1, s);
    }
  }

  predicate Under(root: Node, p: Path, q: Path) {
    IsNode(root, q) && p <= q && |q| <= 8
  }

  /** What a dump that began at position s must have printed of the nodes below p (or p and
      below): all of them from s on if it finished, those up to its new position otherwise. */
  ghost predicate Covers(root: Node, p: Path, s: seq<nat>, r: Dump, below: bool)
    requires |s| == 8 && |r.start| == 8
  {
    forall q :: Under(root, p, q) && (below ==> q != p) && !Before(q, |p|, s) && (r.ok || Before(q, |p|, r.start)) ==>
      q in Entered(r.tokens)
  }

  /** What it leaves in the start indices. */
  predicate Leaves(n: Node, p: Path, s: seq<nat>, r: Dump)
    requires |s| == 8 && |r.start| == 8 && |p| < 8
  {
    && r.start[..|p|] == s[..|p|]
    && (if r.ok then ZeroFrom(r.start, |p|) else Resumable(n, |p|, r.start))
  }

  lemma {:induction false} ResumableAgrees(n: Node, k: nat, s: seq<nat>, t: seq<nat>)
    requires |s| == |t| && k <= |s| && s[k..] == t[k..] && Resumable(n, k, s)
    ensures Resumable(n, k, t)
    decreases n
  {
    assert forall j :: k <= j < |s| ==> s[j] == s[k..][j - k] && t[j] == t[k..][j - k];
    if !ZeroFrom(s, k) {
      assert s[k + 1..] == t[k + 1..];
      ResumableAgrees(n.children[s[k]], k + 1, s, t);
    }
  }

  lemma {:induction false} UnderChild(root: Node, p: Path, q: Path)
    requires IsNode(root, p) && Under(root, p, q) && q != p
    ensures |p| < |q| && q[|p|] < |NodeAt(root, p).children| && Under(root, p + [q[|p|]], q)
    decreases |p|
  {
    if p == [] {
      assert [] + [q[0]] == q[..1];
    } else {
      assert p[1..] <= q[1..];
      UnderChild(root.children[p[0]], p[1..], q[1..]);
      assert p + [q[|p|]] == [p[0]] + (p[1..] + [q[|p|]]);
    }
  }

  lemma EnteredJoin(a: seq<Token>, b: seq<Token>)
    ensures Entered(a + b) == Entered(a) + Entered(b)
  {
    forall x | x in Entered(a)
      ensures x in Entered(a + b)
    {
      var i :| 0 <= i < |a| && a[i].Enter? && a[i].path == x;
      assert (a + b)[i] == a[i];
    }
    forall x | x in Entered(b)
      ensures x in Entered(a + b)
    {
      var i :| 0 <= i < |b| && b[i].Enter? && b[i].path == x;
      assert (a + b)[|a| + i] == b[i];
    }
  }

  lemma {:induction false} NodeCovers(root: Node, n: Node, p: Path, d: Values, cap: nat, used: nat, s: seq<nat>)
    requires |s| == 8 && |p| < 8 && FitsDepth(n, 8 - |p|)
    requires IsNode(root, p) && NodeAt(root, p) == n
    requires Resumable(n, |p|, s)
    ensures var r := DumpNode(n, p, d, cap, used, s);
            Leaves(n, p, s, r) && Covers(root, p, s, r, false)
    decreases n, |n.children| + 1
  {
    hide NodeString, Entered;
    var k := |p|;
    if used + MAX_PARAM_NODE_LENGTH <= cap {
      var used1 := used + |NodeString(n, ValueAt(d, p))| + 1;
      ChildrenCover(root, n, p, d, cap, used1, s, s[k]);
      var r := DumpChildren(n, p, d, cap, used1, s, s[k]);
      assert s[k := s[k]] == s;
      EnteredJoin([Enter(p)], r.tokens);
      EnteredOne(p);
    }
  }

  lemma EnteredOne(p: Path)
    ensures Entered([Enter(p)]) == {p} && Entered([Up]) == {}
  {
    assert [Enter(p)][0] == Enter(p);
  }

  /** The start indices after child i, seen from its parent. */
  lemma LeavesChild(n: Node, p: Path, i: nat, s: seq<nat>, r: Dump)
    requires |s| == 8 && |r.start| == 8 && |p| < 7 && i < |n.children|
    requires Leaves(n.children[i], p + [i], s[|p| := i], r)
    ensures r.start[|p|] == i && r.start[..|p|] == s[..|p|]
    ensures r.ok ==> ZeroFrom(r.start, |p| + 1)
    ensures Resumable(n, |p|, r.start)
  {
    var k := |p|;
    assert r.start[k] == r.start[..k + 1][k];
    assert r.start[..k] == r.start[..k + 1][..k];
    assert Resumable(n.children[i], k + 1, r.start);
  }

  lemma ZeroIsResumable(n: Node, k: nat, s: seq<nat>, i: nat)
    requires ZeroFrom(s, k)
    ensures i < |n.children| ==> Resumable(n.children[i], k, s)
  {
  }

  lemma {:induction false} ChildrenCover(root: Node, n: Node, p: Path, d: Values, cap: nat, used: nat, s: seq<nat>,
      i: nat)
    requires |s| == 8 && |p| < 8 && FitsDepth(n, 8 - |p|)
    requires IsNode(root, p) && NodeAt(root, p) == n
    requires if i < |n.children| then Resumable(n.children[i], |p| + 1, s) else ZeroFrom(s, |p| + 1)
    ensures var r := DumpChildren(n, p, d, cap, used, s, i);
            Leaves(n, p, s, r) && Covers(root, p, s[|p| := i], r, true)
    decreases n, if i < |n.children| then |n.children| - i else 0
  {
    hide DumpChildren, DumpNode, FitsDepth, Resumable, IsNode, NodeAt;
    var s1 := s[|p| := i];
    if i >= |n.children| {
      LoopEnd(n, p, d, cap, used, s, i);
      NoneLeft(root, p, s1);
    } else {
      hide Covers, Leaves;
      ChildFits(n, p, i);
      ChildAt(root, p, i);
      ResumableAgrees(n.children[i], |p| + 1, s, s1);
      var r := DumpNode(n.children[i], p + [i], d, cap, used, s1);
      LoopTurn(n, p, d, cap, used, s, i, r);
      NodeCovers(root, n.children[i], p + [i], d, cap, used, s1);
      LeavesChild(n, p, i, s, r);
      if r.ok && r.used + 4 <= cap {
        ZeroIsResumable(n, |p| + 1, r.start, i + 1);
        ChildrenCover(root, n, p, d, cap, r.used + 3, r.start, i + 1);
        var rest := DumpChildren(n, p, d, cap, r.used + 3, r.start, i + 1);
        CoverMore(root, p, i, s1, r, rest);
        LeavesMore(n, p, s, r, rest, rest.(tokens := r.tokens + [Up] + rest.tokens));
      } else {
        CoverStop(root, p, i, s1, r);
        LeavesStop(n, p, s, r);
      }
    }
  }

  lemma LeavesStop(n: Node, p: Path, s: seq<nat>, r: Dump)
    requires |s| == 8 && |r.start| == 8 && |p| < 8
    requires r.start[..|p|] == s[..|p|] && Resumable(n, |p|, r.start)
    ensures Leaves(n, p, s, r.(ok := false))
  {
  }

  lemma LeavesMore(n: Node, p: Path, s: seq<nat>, r: Dump, rest: Dump, whole: Dump)
    requires |s| == 8 && |r.start| == 8 && |rest.start| == 8 && |p| < 8
    requires r.start[..|p|] == s[..|p|] && Leaves(n, p, r.start, rest)
    requires whole.ok == rest.ok && whole.start == rest.start
    ensures Leaves(n, p, s, whole)
  {
  }

  lemma NoneLeft(root: Node, p: Path, s: seq<nat>)
    requires |s| == 8 && |p| < 8 && IsNode(root, p) && s[|p|] >= |NodeAt(root, p).children|
    ensures forall q :: Under(root, p, q) && q != p ==> Before(q, |p|, s)
  {
    forall q | Under(root, p, q) && q != p
      ensures Before(q, |p|, s)
    {
      UnderChild(root, p, q);
    }
  }

  /** The dump stopped in child i, or after it for lack of room for the way back. */
  lemma CoverStop(root: Node, p: Path, i: nat, s: seq<nat>, r: Dump)
    requires |s| == 8 && |r.start| == 8 && |p| < 8 && IsNode(root, p)
    requires s[|p|] == i == r.start[|p|]
    requires Covers(root, p + [i], s, r, false)
    ensures Covers(root, p, s, r.(ok := false), true)
  {
    hide Entered, IsNode;
    forall q | Under(root, p, q) && q != p && !Before(q, |p|, s) && Before(q, |p|, r.start)
      ensures q in Entered(r.tokens)
    {
      UnderChild(root, p, q);
    }
  }

  /** Child i was finished, and the loop went on from the next one. */
  lemma CoverMore(root: Node, p: Path, i: nat, s: seq<nat>, r: Dump, rest: Dump)
    requires |s| == 8 && |r.start| == 8 && |rest.start| == 8 && |p| < 8 && IsNode(root, p)
    requires s[|p|] == i && r.ok && ZeroFrom(r.start, |p| + 1)
    requires Covers(root, p + [i], s, r, false)
    requires Covers(root, p, r.start[|p| := i + 1], rest, true)
    ensures Covers(root, p, s, rest.(tokens := r.tokens + [Up] + rest.tokens), true)
  {
    EnteredJoin(r.tokens, [Up]);
    EnteredJoin(r.tokens + [Up], rest.tokens);
    hide Entered, IsNode;
    var k := |p|;
    forall q | Under(root, p, q) && q != p && !Before(q, k, s) && (rest.ok || Before(q, k, rest.start))
      ensures q in Entered(r.tokens + [Up] + rest.tokens)
    {
      UnderChild(root, p, q);
      if q[k] > i {
        ZeroBefore(q, k + 1, r.start[k := i + 1]);
        assert !Before(q, k, r.start[k := i + 1]);
      } else {
        assert !Before(q, k + 1, s);
      }
    }
  }

  // ---------------------------------------------------------------- a series of messages

  /** A series of dumps, each into an empty buffer that already holds the leading separator,
      each going on where the one before stopped, until one finishes. */
  predicate Series(root: Node, d: seq<Values>, cap: nat, s: seq<nat>, dumps: seq<Dump>)
    requires |s| == 8 && FitsDepth(root, 8)
    decreases |dumps|
  {
    && dumps != [] && |d| == |dumps|
    && dumps[0] == DumpNode(root, [], d[0], cap, 1, s)
    && (if |dumps| == 1 then dumps[0].ok else !dumps[0].ok && Series(root, d[1..], cap, dumps[0].start, dumps[1..]))
  }

  function EnteredInSeries(dumps: seq<Dump>): set<Path> {
    if dumps == [] then {} else Entered(dumps[0].tokens) + EnteredInSeries(dumps[1..])
  }

  /** A series that ends has printed every node from its first position on, even if values
      changed between its messages. */
  lemma {:induction false} SeriesCovers(root: Node, d: seq<Values>, cap: nat, s: seq<nat>, dumps: seq<Dump>)
    requires |s| == 8 && FitsDepth(root, 8) && Resumable(root, 0, s)
    requires Series(root, d, cap, s, dumps)
    ensures forall q :: Under(root, [], q) && !Before(q, 0, s) ==> q in EnteredInSeries(dumps)
    decreases |dumps|
  {
    hide Entered, Before;
    assert IsNode(root, []) && NodeAt(root, []) == root;
    NodeCovers(root, root, [], d[0], cap, 1, s);
    if |dumps| > 1 {
      SeriesCovers(root, d[1..], cap, dumps[0].start, dumps[1..]);
    }
  }

  lemma {:induction false} DepthBound(n: Node, levels: nat, q: Path)
    requires FitsDepth(n, levels) && IsNode(n, q)
    ensures |q| < levels
    decreases |q|
  {
    if q != [] {
      DepthBound(n.children[q[0]], levels - 1, q[1..]);
    }
  }

  function FreshStart(): (s: seq<nat>)
    ensures |s| == 8 && ZeroFrom(s, 0)
  {
    [0, 0, 0, 0, 0, 0, 0, 0]
  }

  lemma FreshResumable(n: Node)
    ensures Resumable(n, 0, FreshStart())
  {
  }

  /** A dump resumed any number of times never skips a node. */
  lemma NothingSkipped(root: Node, d: seq<Values>, cap: nat, dumps: seq<Dump>, q: Path)
    requires FitsDepth(root, 8) && Series(root, d, cap, FreshStart(), dumps)
    requires IsNode(root, q)
    ensures q in EnteredInSeries(dumps)
  {
    hide EnteredInSeries;
    DepthBound(root, 8, q);
    ZeroBefore(q, 0, FreshStart());
    SeriesCovers(root, d, cap, FreshStart(), dumps);
    assert Under(root, [], q);
  }

  // ---------------------------------------------------------------- reading dumps back

  /** The text of a dump's tokens after the leading separator. */
  lemma SetDump(root: Node, values: Values, d: Values, ok: bool, tokens: seq<Token>)
    requires WellNamed(root) && Restorable(root, d)
    requires Visit(root, [], ok, tokens) && tokens != [] && NodesOf(root, tokens)
    ensures var res := SetFromRoot(root, values, TextOf(root, d, tokens));
            res.ok && Overlaid(root, values, d, Entered(tokens), res.values)
  {
    var tail := tokens[1..];
    var rest := TextOf(root, d, tail);
    var v := ValueAt(d, []);
    assert IsNode(root, []) && NodeAt(root, []) == root;
    EnteredNamed(root, []);
    assert Settable(root) ==> InRange(root.vtype, v) && Survives(root.vtype, v);
    assert tokens == [Enter([])] + tail;
    EnteredJoin([Enter([])], tail);
    EnteredOne([]);
    hide ModuleString, UpdateCurrent, NodeString, WellNamed, Restorable, Overlaid, Entered, ValidName, Walks, SetLoop,
      InRange, Survives;
    ModuleOfNode(root, v, rest);
    UpdateFromPrinted(root, ValueAt(values, []), v);
    if Settable(root) {
      NodeRoundTrip(root, v);
    }
    var values1 := values[[] := if Settable(root) then v else ValueAt(values, [])];
    SetWalk(root, [], values1, d, tail);
    assert SetFromRoot(root, values, TextOf(root, d, tokens)) == SetLoop(root, [], values1, rest);
    OverlaidNode(root, values, d, [], Entered(tail), SetLoop(root, [], values1, rest).values);
    assert Entered(tokens) == Entered(tail) + {[]};
  }

  lemma VisitNodes(root: Node, ok: bool, tokens: seq<Token>)
    requires Visit(root, [], ok, tokens)
    ensures NodesOf(root, tokens)
  {
    forall i | 0 <= i < |tokens| && tokens[i].Enter?
      ensures IsNode(root, tokens[i].path)
    {
      if i > 0 {
        assert tokens[1..][i - 1] == tokens[i];
      }
    }
  }

  /** Every node of the tree is in the set. */
  ghost predicate AllNodes(root: Node, entered: set<Path>) {
    forall q :: IsNode(root, q) ==> q in entered
  }

  /** A receiver that reads the messages of a series one after the other. */
  function SetInTurn(root: Node, values: Values, d: Values, dumps: seq<Dump>): SetResult
    requires forall i :: 0 <= i < |dumps| ==> NodesOf(root, dumps[i].tokens)
    decreases |dumps|
  {
    if dumps == [] then SetResult(values, true)
    else
      var first := SetFromRoot(root, values, TextOf(root, d, dumps[0].tokens));
      var rest := SetInTurn(root, first.values, d, dumps[1..]);
      rest.(ok := first.ok && rest.ok)
  }

  /** The values do not change between the messages of a series. */
  predicate Steady(d: seq<Values>, v: Values) {
    forall i :: 0 <= i < |d| ==> d[i] == v
  }

  /** A series that ends has room for at least one node in every message. */
  lemma {:induction false} SeriesHasRoom(root: Node, d: seq<Values>, cap: nat, s: seq<nat>, dumps: seq<Dump>)
    requires |s| == 8 && FitsDepth(root, 8) && Series(root, d, cap, s, dumps)
    ensures cap > MAX_PARAM_NODE_LENGTH
    decreases |dumps|
  {
    if |dumps| > 1 {
      SeriesHasRoom(root, d[1..], cap, dumps[0].start, dumps[1..]);
    }
  }

  lemma OverlaidAgain(root: Node, v: Values, d: Values, a: set<Path>, v1: Values, b: set<Path>, v2: Values)
    requires Overlaid(root, v, d, a, v1) && Overlaid(root, v1, d, b, v2)
    ensures Overlaid(root, v, d, a + b, v2)
  {
  }

  lemma {:induction false} SeriesSets(root: Node, values: Values, d: seq<Values>, v: Values, cap: nat, s: seq<nat>,
      dumps: seq<Dump>)
    requires WellNamed(root) && Restorable(root, v) && FitsDepth(root, 8) && cap > MAX_PARAM_NODE_LENGTH
    requires |s| == 8 && Series(root, d, cap, s, dumps) && Steady(d, v)
    ensures forall i :: 0 <= i < |dumps| ==> NodesOf(root, dumps[i].tokens)
    ensures var res := SetInTurn(root, values, v, dumps);
            res.ok && Overlaid(root, values, v, EnteredInSeries(dumps), res.values)
    decreases |dumps|
  {
    hide WellNamed, Restorable, Overlaid, SetFromRoot, Entered, Visit, FitsDepth, DumpChildren, NodeString, TextOf;
    var r := dumps[0];
    assert IsNode(root, []) && NodeAt(root, []) == root;
    NodeVisits(root, root, [], v, cap, 1, s);
    VisitNodes(root, r.ok, r.tokens);
    SetDump(root, values, v, r.ok, r.tokens);
    var first := SetFromRoot(root, values, TextOf(root, v, r.tokens));
    if |dumps| > 1 {
      SeriesSets(root, first.values, d[1..], v, cap, r.start, dumps[1..]);
      OverlaidAgain(root, values, v, Entered(r.tokens), first.values, EnteredInSeries(dumps[1..]),
        SetInTurn(root, first.values, v, dumps[1..]).values);
    } else {
      assert dumps[1..] == [] && EnteredInSeries(dumps) == Entered(r.tokens);
    }
  }

  /** Reading the messages of a whole series in turn gives the tree that one dump of everything
      gives: all settable nodes have the dumped values, all others are as they were. */
  lemma SeriesRestores(root: Node, values: Values, d: seq<Values>, v: Values, cap: nat, dumps: seq<Dump>)
    requires WellNamed(root) && Restorable(root, v) && FitsDepth(root, 8)
    requires Series(root, d, cap, FreshStart(), dumps) && Steady(d, v)
    ensures forall i :: 0 <= i < |dumps| ==> NodesOf(root, dumps[i].tokens)
    ensures var res := SetInTurn(root, values, v, dumps);
            && res.ok
            && AllNodes(root, EnteredInSeries(dumps))
            && Overlaid(root, values, v, EnteredInSeries(dumps), res.values)
  {
    hide WellNamed, Restorable, Overlaid, Series, SetInTurn, EnteredInSeries, FitsDepth;
    SeriesHasRoom(root, d, cap, FreshStart(), dumps);
    SeriesSets(root, values, d, v, cap, FreshStart(), dumps);
    forall q | IsNode(root, q)
      ensures q in EnteredInSeries(dumps)
    {
      NothingSkipped(root, d, cap, dumps, q);
    }
  }

  lemma SeriesOfOne(root: Node, values: Values, d: Values, cap: nat, r: Dump)
    requires FitsDepth(root, 8) && NodesOf(root, r.tokens)
    requires r == DumpNode(root, [], d, cap, 1, FreshStart()) && r.ok
    ensures Series(root, [d], cap, FreshStart(), [r]) && Steady([d], d)
    ensures SetInTurn(root, values, d, [r]) == SetFromRoot(root, values, TextOf(root, d, r.tokens))
    ensures EnteredInSeries([r]) == Entered(r.tokens)
  {
    hide DumpNode, SetFromRoot, TextOf, FitsDepth, Entered;
    assert [r][1..] == [];
    assert EnteredInSeries([]) == {};
    var first := SetFromRoot(root, values, TextOf(root, d, [r][0].tokens));
    assert SetInTurn(root, first.values, d, []) == SetResult(first.values, true);
  }

  /** Whatever tree of this shape reads a dump that finished in one message, every settable
      node takes the dumped value and every other node keeps its own. */
  lemma DumpThenSet(root: Node, values: Values, d: Values, cap: nat, r: Dump)
    requires WellNamed(root) && Restorable(root, d) && FitsDepth(root, 8)
    requires r == DumpNode(root, [], d, cap, 1, FreshStart()) && r.ok
    ensures NodesOf(root, r.tokens)
    ensures var res := SetFromRoot(root, values, TextOf(root, d, r.tokens));
            res.ok && AllNodes(root, Entered(r.tokens)) && Overlaid(root, values, d, Entered(r.tokens), res.values)
  {
    hide *;
    DumpNodes(root, d, cap, 1, FreshStart());
    SeriesOfOne(root, values, d, cap, r);
    SeriesRestores(root, values, [d], d, cap, [r]);
  }

  lemma DumpNodes(root: Node, d: Values, cap: nat, used: nat, s: seq<nat>)
    requires |s| == 8 && FitsDepth(root, 8)
    ensures NodesOf(root, DumpNode(root, [], d, cap, used, s).tokens)
  {
    hide DumpNode, Visit, NodesOf, FitsDepth;
    assert IsNode(root, []) && NodeAt(root, []) == root;
    NodeVisits(root, root, [], d, cap, used, s);
    var r := DumpNode(root, [], d, cap, used, s);
    VisitNodes(root, r.ok, r.tokens);
  }

  // ---------------------------------------------------------------- text and length

  lemma {:induction false} TextAppend(root: Node, d: Values, a: seq<Token>, b: seq<Token>)
    requires NodesOf(root, a) && NodesOf(root, b)
    ensures NodesOf(root, a + b) && TextOf(root, d, a + b) == TextOf(root, d, a) + TextOf(root, d, b)
    decreases |a|
  {
    hide TokenText, IsNode;
    if a == [] {
      assert a + b == b;
    } else {
      assert (a + b)[1..] == a[1..] + b;
      TextAppend(root, d, a[1..], b);
    }
  }
}
