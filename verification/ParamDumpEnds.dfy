/** When a series of resumed dumps comes to an end: conditions on the printed lengths of the tree
    under which every message gets further than the one before, and how far they are necessary. */
module ParamDumpEnds {
  import opened ParamTree
  import opened ParamWalk
  import opened ParamDump

  // ---------------------------------------------------------------- printed lengths

  /** The length of a message that begins with the way to a node, before that node: the leading
      separator and the nodes above it. */
  function PathUsed(root: Node, d: Values, q: Path): nat
    requires IsNode(root, q)
    decreases |q|
  {
    if q == [] then 1
    else
      ParentAt(root, q);
      var p := q[..|q| - 1];
      PathUsed(root, d, p) + |NodeString(NodeAt(root, p), ValueAt(d, p))| + 1
  }

  lemma ChildUsed(root: Node, d: Values, p: Path, i: nat)
    requires IsNode(root, p) && IsNode(root, p + [i])
    ensures PathUsed(root, d, p + [i]) == PathUsed(root, d, p) + |NodeString(NodeAt(root, p), ValueAt(d, p))| + 1
  {
    hide NodeString, NodeAt;
    assert (p + [i])[..|p + [i]| - 1] == p;
  }

  /** The length of a whole printed subtree, without the way back up from it. */
  function Width(n: Node, p: Path, d: Values): nat
    decreases n, |n.children| + 1
  {
    |NodeString(n, ValueAt(d, p))| + 1 + WidthFrom(n, p, d, 0)
  }

  function WidthFrom(n: Node, p: Path, d: Values, i: nat): nat
    decreases n, if i < |n.children| then |n.children| - i else 0
  {
    if i >= |n.children| then 0 else Width(n.children[i], p + [i], d) + 3 + WidthFrom(n, p, d, i + 1)
  }

  /** The room needed to print the last node of a subtree and get back up out of the subtree. */
  function TailRoom(n: Node, p: Path, d: Values): nat
    decreases n
  {
    if n.children == [] then |NodeString(n, ValueAt(d, p))| + 5
    else
      var i := |n.children| - 1;
      TailRoom(n.children[i], p + [i], d) + 3
  }

  /** The subtree can always be left once it is finished: a message that begins with the way to it
      holds it with the way back up, or the room in which its last node was printed is enough for
      that node and the way back up. */
  predicate Leavable(root: Node, d: Values, cap: nat, q: Path)
    requires IsNode(root, q)
  {
    || PathUsed(root, d, q) + Width(NodeAt(root, q), q, d) + 4 <= cap
    || TailRoom(NodeAt(root, q), q, d) <= MAX_PARAM_NODE_LENGTH
  }

  /** Every node can be reached in a message of its own. */
  ghost predicate Reachable(root: Node, d: Values, cap: nat) {
    forall q :: IsNode(root, q) ==> PathUsed(root, d, q) + MAX_PARAM_NODE_LENGTH <= cap
  }

  ghost predicate AllLeavable(root: Node, d: Values, cap: nat) {
    forall q :: IsNode(root, q) && q != [] ==> Leavable(root, d, cap, q)
  }

  // ---------------------------------------------------------------- what is left to visit

  function Size(n: Node): nat
    decreases n, |n.children| + 1
  {
    1 + SizeFrom(n, 0)
  }

  function SizeFrom(n: Node, i: nat): nat
    decreases n, if i < |n.children| then |n.children| - i else 0
  {
    if i >= |n.children| then 0 else Size(n.children[i]) + SizeFrom(n, i + 1)
  }

  /** The number of nodes a dump that starts at position s still has to print. */
  function ToVisit(n: Node, k: nat, s: seq<nat>): (c: nat)
    ensures c > 0
    decreases n
  {
    if k < |s| && s[k] < |n.children| then 1 + ToVisit(n.children[s[k]], k + 1, s) + SizeFrom(n, s[k] + 1)
    else 1
  }

  lemma {:induction false} SizeFalls(n: Node, i: nat, j: nat)
    requires i <= j
    ensures SizeFrom(n, j) <= SizeFrom(n, i)
    decreases j - i
  {
    if i < j {
      SizeFalls(n, i + 1, j);
    }
  }

  lemma {:induction false} ToVisitBound(n: Node, k: nat, s: seq<nat>)
    ensures ToVisit(n, k, s) <= Size(n)
    decreases n
  {
    if k < |s| && s[k] < |n.children| {
      ToVisitBound(n.children[s[k]], k + 1, s);
      SizeFalls(n, 0, s[k]);
    }
  }

  /** A later child to stop in means less left to visit. */
  lemma LaterChild(n: Node, k: nat, s: seq<nat>, t: seq<nat>)
    requires k < |s| && k < |t| && s[k] < t[k] < |n.children|
    ensures ToVisit(n, k, t) < ToVisit(n, k, s)
  {
    ToVisitBound(n.children[t[k]], k + 1, t);
    SizeFalls(n, s[k] + 1, t[k]);
  }

  lemma SameChild(n: Node, k: nat, s: seq<nat>, t: seq<nat>)
    requires k < |s| && k < |t| && s[k] == t[k] < |n.children|
    requires ToVisit(n.children[s[k]], k + 1, t) < ToVisit(n.children[s[k]], k + 1, s)
    ensures ToVisit(n, k, t) < ToVisit(n, k, s)
  {
  }

  // ---------------------------------------------------------------- the length of a dump

  /** A dump adds the width of the subtree at most, and exactly that if it printed all of it. */
  lemma {:induction false} NodeUsed(root: Node, n: Node, p: Path, d: Values, cap: nat, used: nat, s: seq<nat>)
    requires |s| == 8 && |p| < 8 && FitsDepth(n, 8 - |p|)
    requires IsNode(root, p) && NodeAt(root, p) == n && Resumable(n, |p|, s)
    ensures var r := DumpNode(n, p, d, cap, used, s);
            && r.used <= used + Width(n, p, d)
            && (r.ok && ZeroFrom(s, |p|) ==> r.used == used + Width(n, p, d))
    decreases n, |n.children| + 1
  {
    hide NodeString, DumpNode, DumpChildren, FitsDepth, IsNode, NodeAt, WidthFrom;
    DumpTurn(n, p, d, cap, used, s);
    if used + MAX_PARAM_NODE_LENGTH <= cap {
      StartOfChildren(n, |p|, s);
      ChildrenUsed(root, n, p, d, cap, used + |NodeString(n, ValueAt(d, p))| + 1, s, s[|p|]);
      WidthFalls(n, p, d, 0, s[|p|]);
    }
  }

  lemma StartOfChildren(n: Node, k: nat, s: seq<nat>)
    requires k < |s| && Resumable(n, k, s)
    ensures s[k] < |n.children| ==> Resumable(n.children[s[k]], k + 1, s)
    ensures s[k] >= |n.children| ==> n.children == [] && ZeroFrom(s, k)
    ensures ZeroFrom(s, k) ==> s[k] == 0 && ZeroFrom(s, k + 1)
  {
    if s[k] < |n.children| && ZeroFrom(s, k) {
      assert ZeroFrom(s, k + 1);
    }
  }

  lemma {:induction false} WidthFalls(n: Node, p: Path, d: Values, i: nat, j: nat)
    requires i <= j
    ensures WidthFrom(n, p, d, j) <= WidthFrom(n, p, d, i)
    decreases j - i
  {
    hide Width;
    if i < j {
      WidthFalls(n, p, d, i + 1, j);
    }
  }

  lemma {:induction false} ChildrenUsed(root: Node, n: Node, p: Path, d: Values, cap: nat, used: nat, s: seq<nat>,
      i: nat)
    requires |s| == 8 && |p| < 8 && FitsDepth(n, 8 - |p|)
    requires IsNode(root, p) && NodeAt(root, p) == n
    requires if i < |n.children| then Resumable(n.children[i], |p| + 1, s) else ZeroFrom(s, |p| + 1)
    ensures var r := DumpChildren(n, p, d, cap, used, s, i);
            && r.used <= used + WidthFrom(n, p, d, i)
            && (r.ok && ZeroFrom(s, |p| + 1) ==> r.used == used + WidthFrom(n, p, d, i))
    decreases n, if i < |n.children| then |n.children| - i else 0
  {
    hide DumpChildren, DumpNode, FitsDepth, Resumable, IsNode, NodeAt, Width;
    if i >= |n.children| {
      LoopEnd(n, p, d, cap, used, s, i);
    } else {
      var c, q := n.children[i], p + [i];
      ChildFits(n, p, i);
      var r := DumpNode(c, q, d, cap, used, s[|p| := i]);
      ChildTurn(root, n, p, d, cap, used, s, i, r);
      NodeUsed(root, c, q, d, cap, used, s[|p| := i]);
      if r.ok && r.used + 4 <= cap {
        ChildrenUsed(root, n, p, d, cap, r.used + 3, r.start, i + 1);
      }
    }
  }

  /** One turn of the loop with what is known of the start indices before and after it. */
  lemma {:induction false} ChildTurn(root: Node, n: Node, p: Path, d: Values, cap: nat, used: nat, s: seq<nat>,
      i: nat, r: Dump)
    requires |s| == 8 && |p| < 8 && FitsDepth(n, 8 - |p|)
    requires IsNode(root, p) && NodeAt(root, p) == n && i < |n.children|
    requires Resumable(n.children[i], |p| + 1, s)
    requires |p + [i]| < 8 && FitsDepth(n.children[i], 8 - |p + [i]|)
    requires r == DumpNode(n.children[i], p + [i], d, cap, used, s[|p| := i])
    ensures IsNode(root, p + [i]) && NodeAt(root, p + [i]) == n.children[i]
    ensures Resumable(n.children[i], |p + [i]|, s[|p| := i])
    ensures ZeroFrom(s, |p| + 1) ==> ZeroFrom(s[|p| := i], |p + [i]|)
    ensures |r.start| == 8 && r.start[|p|] == i && Resumable(n, |p|, r.start)
    ensures r.ok ==> ZeroFrom(r.start, |p| + 1)
    ensures r.ok && i + 1 < |n.children| ==> Resumable(n.children[i + 1], |p| + 1, r.start)
    ensures !r.ok || r.used + 4 > cap ==> DumpChildren(n, p, d, cap, used, s, i) == r.(ok := false)
    ensures r.ok && r.used + 4 <= cap ==>
              var rest := DumpChildren(n, p, d, cap, r.used + 3, r.start, i + 1);
              DumpChildren(n, p, d, cap, used, s, i) == Joined(r.tokens + [Up], rest)
  {
    hide DumpChildren, DumpNode, FitsDepth, Resumable, IsNode, NodeAt, Covers, Leaves;
    ChildAt(root, p, i);
    ResumableAgrees(n.children[i], |p| + 1, s, s[|p| := i]);
    LoopTurn(n, p, d, cap, used, s, i, r);
    NodeCovers(root, n.children[i], p + [i], d, cap, used, s[|p| := i]);
    LeavesChild(n, p, i, s, r);
    if r.ok {
      ZeroIsResumable(n, |p| + 1, r.start, i + 1);
    }
  }

  /** A finished subtree leaves the room of its last node, less what was printed since. */
  lemma {:induction false} NodeTail(root: Node, n: Node, p: Path, d: Values, cap: nat, used: nat, s: seq<nat>)
    requires |s| == 8 && |p| < 8 && FitsDepth(n, 8 - |p|)
    requires IsNode(root, p) && NodeAt(root, p) == n && Resumable(n, |p|, s)
    ensures var r := DumpNode(n, p, d, cap, used, s);
            r.ok ==> r.used + 4 + MAX_PARAM_NODE_LENGTH <= cap + TailRoom(n, p, d)
    decreases n, |n.children| + 1
  {
    hide NodeString, DumpNode, DumpChildren, FitsDepth, IsNode, NodeAt;
    DumpTurn(n, p, d, cap, used, s);
    if used + MAX_PARAM_NODE_LENGTH <= cap {
      var used1 := used + |NodeString(n, ValueAt(d, p))| + 1;
      StartOfChildren(n, |p|, s);
      if s[|p|] < |n.children| {
        ChildrenTail(root, n, p, d, cap, used1, s, s[|p|]);
      } else {
        LoopEnd(n, p, d, cap, used1, s, s[|p|]);
      }
    }
  }

  lemma {:induction false} ChildrenTail(root: Node, n: Node, p: Path, d: Values, cap: nat, used: nat, s: seq<nat>,
      i: nat)
    requires |s| == 8 && |p| < 8 && FitsDepth(n, 8 - |p|)
    requires IsNode(root, p) && NodeAt(root, p) == n && i < |n.children|
    requires Resumable(n.children[i], |p| + 1, s)
    ensures var r := DumpChildren(n, p, d, cap, used, s, i);
            r.ok ==> r.used + 4 + MAX_PARAM_NODE_LENGTH <= cap + TailRoom(n, p, d)
    decreases n, |n.children| - i
  {
    hide DumpChildren, DumpNode, FitsDepth, Resumable, IsNode, NodeAt;
    var c, q := n.children[i], p + [i];
    ChildFits(n, p, i);
    var r := DumpNode(c, q, d, cap, used, s[|p| := i]);
    ChildTurn(root, n, p, d, cap, used, s, i, r);
    NodeTail(root, c, q, d, cap, used, s[|p| := i]);
    if r.ok && r.used + 4 <= cap {
      if i + 1 < |n.children| {
        ChildrenTail(root, n, p, d, cap, r.used + 3, r.start, i + 1);
      } else {
        LoopEnd(n, p, d, cap, r.used + 3, r.start, i + 1);
      }
    }
  }

  // ---------------------------------------------------------------- every message gets further

  /** A loop over the children that stops, stops in one of those it had to visit. */
  lemma {:induction false} StopsLater(root: Node, n: Node, p: Path, d: Values, cap: nat, used: nat, s: seq<nat>, i: nat)
    requires |s| == 8 && |p| < 8 && FitsDepth(n, 8 - |p|)
    requires IsNode(root, p) && NodeAt(root, p) == n
    requires if i < |n.children| then Resumable(n.children[i], |p| + 1, s) else ZeroFrom(s, |p| + 1)
    ensures var r := DumpChildren(n, p, d, cap, used, s, i);
            !r.ok ==> i <= r.start[|p|] < |n.children|
    decreases n, if i < |n.children| then |n.children| - i else 0
  {
    hide DumpChildren, DumpNode, FitsDepth, Resumable, IsNode, NodeAt;
    if i >= |n.children| {
      LoopEnd(n, p, d, cap, used, s, i);
    } else {
      ChildFits(n, p, i);
      var r := DumpNode(n.children[i], p + [i], d, cap, used, s[|p| := i]);
      ChildTurn(root, n, p, d, cap, used, s, i, r);
      if r.ok && r.used + 4 <= cap {
        StopsLater(root, n, p, d, cap, r.used + 3, r.start, i + 1);
      }
    }
  }

  /** A subtree reached along its own path, and finished, can be left. */
  lemma CanLeave(root: Node, n: Node, p: Path, d: Values, cap: nat, s: seq<nat>)
    requires |s| == 8 && |p| < 8 && FitsDepth(n, 8 - |p|)
    requires IsNode(root, p) && NodeAt(root, p) == n && Resumable(n, |p|, s)
    requires Leavable(root, d, cap, p)
    ensures var r := DumpNode(n, p, d, cap, PathUsed(root, d, p), s);
            r.ok ==> r.used + 4 <= cap
  {
    hide DumpNode, FitsDepth, IsNode, NodeAt, Width, TailRoom, PathUsed, Resumable;
    NodeUsed(root, n, p, d, cap, PathUsed(root, d, p), s);
    NodeTail(root, n, p, d, cap, PathUsed(root, d, p), s);
  }

  /** A dump that goes on at position s, with the way to it printed first, finishes or stops at a
      later position. */
  lemma {:induction false} GetsFurther(root: Node, n: Node, p: Path, d: Values, cap: nat, s: seq<nat>)
    requires |s| == 8 && |p| < 8 && FitsDepth(n, 8 - |p|)
    requires IsNode(root, p) && NodeAt(root, p) == n && Resumable(n, |p|, s)
    requires Reachable(root, d, cap) && AllLeavable(root, d, cap)
    ensures var r := DumpNode(n, p, d, cap, PathUsed(root, d, p), s);
            r.ok || ToVisit(n, |p|, r.start) < ToVisit(n, |p|, s)
    decreases n
  {
    hide NodeString, DumpNode, DumpChildren, FitsDepth, IsNode, NodeAt, PathUsed, Leavable, Resumable, ToVisit,
      ZeroFrom;
    var used := PathUsed(root, d, p);
    assert used + MAX_PARAM_NODE_LENGTH <= cap;
    DumpTurn(n, p, d, cap, used, s);
    var used1, i := used + |NodeString(n, ValueAt(d, p))| + 1, s[|p|];
    StartOfChildren(n, |p|, s);
    if i < |n.children| {
      var c, q := n.children[i], p + [i];
      assert s[|p| := i] == s;
      ChildFits(n, p, i);
      var r := DumpNode(c, q, d, cap, used1, s);
      ChildTurn(root, n, p, d, cap, used1, s, i, r);
      ChildUsed(root, d, p, i);
      if r.ok {
        CanLeave(root, c, q, d, cap, s);
        StopsLater(root, n, p, d, cap, r.used + 3, r.start, i + 1);
        var rest := DumpChildren(n, p, d, cap, r.used + 3, r.start, i + 1);
        if !rest.ok {
          LaterChild(n, |p|, s, rest.start);
        }
      } else {
        GetsFurther(root, c, q, d, cap, s);
        SameChild(n, |p|, s, r.start);
      }
    } else {
      LoopEnd(n, p, d, cap, used1, s, i);
    }
  }

  /** A series of dumps, one for each of the given values in turn, that ends at one of them. */
  ghost predicate Ends(root: Node, d: seq<Values>, cap: nat, s: seq<nat>)
    requires |s| == 8 && FitsDepth(root, 8)
  {
    exists dumps :: 0 < |dumps| <= |d| && Series(root, d[..|dumps|], cap, s, dumps)
  }

  /** When every node can be reached and every subtree left, whatever values the messages show,
      a series ends from every position, after as many messages as there are nodes left at most. */
  lemma {:induction false} SeriesEnds(root: Node, d: seq<Values>, cap: nat, s: seq<nat>)
    requires |s| == 8 && FitsDepth(root, 8) && Resumable(root, 0, s)
    requires forall i :: 0 <= i < |d| ==> Reachable(root, d[i], cap) && AllLeavable(root, d[i], cap)
    requires |d| >= ToVisit(root, 0, s)
    ensures Ends(root, d, cap, s)
    decreases |d|
  {
    hide DumpNode, DumpChildren, FitsDepth, Reachable, AllLeavable, Resumable, ToVisit, Covers;
    assert IsNode(root, []) && NodeAt(root, []) == root;
    var r := DumpNode(root, [], d[0], cap, 1, s);
    GetsFurther(root, root, [], d[0], cap, s);
    if r.ok {
      OneDump(root, d, cap, s, r);
    } else {
      NodeCovers(root, root, [], d[0], cap, 1, s);
      SeriesEnds(root, d[1..], cap, r.start);
      OneMore(root, d, cap, s, r);
    }
  }

  lemma OneDump(root: Node, d: seq<Values>, cap: nat, s: seq<nat>, r: Dump)
    requires |s| == 8 && FitsDepth(root, 8) && d != []
    requires r == DumpNode(root, [], d[0], cap, 1, s) && r.ok
    ensures Ends(root, d, cap, s)
  {
    hide DumpNode, FitsDepth;
    assert Series(root, d[..|[r]|], cap, s, [r]);
  }

  lemma OneMore(root: Node, d: seq<Values>, cap: nat, s: seq<nat>, r: Dump)
    requires |s| == 8 && FitsDepth(root, 8) && d != []
    requires r == DumpNode(root, [], d[0], cap, 1, s) && !r.ok && Ends(root, d[1..], cap, r.start)
    ensures Ends(root, d, cap, s)
  {
    hide DumpNode, FitsDepth;
    var rest :| 0 < |rest| <= |d[1..]| && Series(root, d[1..][..|rest|], cap, r.start, rest);
    var dumps := [r] + rest;
    assert dumps[1..] == rest && d[..|dumps|][1..] == d[1..][..|rest|];
    assert Series(root, d[..|dumps|], cap, s, dumps);
  }

  // ---------------------------------------------------------------- what is necessary

  /** A node is only printed in a message that has room for the way to it and for the
      longest node. */
  lemma {:induction false} EnteredFits(root: Node, n: Node, p: Path, d: Values, cap: nat, used: nat, s: seq<nat>)
    requires |s| == 8 && |p| < 8 && FitsDepth(n, 8 - |p|)
    requires IsNode(root, p) && NodeAt(root, p) == n && used >= PathUsed(root, d, p)
    ensures var r := DumpNode(n, p, d, cap, used, s);
            && r.used >= used
            && forall q :: q in Entered(r.tokens) ==> IsNode(root, q) && PathUsed(root, d, q) + MAX_PARAM_NODE_LENGTH <= cap
    decreases n, |n.children| + 1
  {
    hide NodeString, DumpNode, DumpChildren, FitsDepth, IsNode, NodeAt, PathUsed, Entered;
    DumpTurn(n, p, d, cap, used, s);
    NothingEntered();
    if used + MAX_PARAM_NODE_LENGTH <= cap {
      var used1 := used + |NodeString(n, ValueAt(d, p))| + 1;
      ChildrenFit(root, n, p, d, cap, used1, s, s[|p|]);
      EnteredJoin([Enter(p)], DumpChildren(n, p, d, cap, used1, s, s[|p|]).tokens);
      EnteredOne(p);
    }
  }

  lemma NothingEntered()
    ensures Entered([]) == {}
  {
  }

  lemma {:induction false} ChildrenFit(root: Node, n: Node, p: Path, d: Values, cap: nat, used: nat, s: seq<nat>,
      i: nat)
    requires |s| == 8 && |p| < 8 && FitsDepth(n, 8 - |p|)
    requires IsNode(root, p) && NodeAt(root, p) == n
    requires used >= PathUsed(root, d, p) + |NodeString(n, ValueAt(d, p))| + 1
    ensures var r := DumpChildren(n, p, d, cap, used, s, i);
            && r.used >= used
            && forall q :: q in Entered(r.tokens) ==> IsNode(root, q) && PathUsed(root, d, q) + MAX_PARAM_NODE_LENGTH <= cap
    decreases n, if i < |n.children| then |n.children| - i else 0
  {
    hide NodeString, DumpNode, DumpChildren, FitsDepth, IsNode, NodeAt, PathUsed, Entered;
    if i >= |n.children| {
      LoopEnd(n, p, d, cap, used, s, i);
      NothingEntered();
    } else {
      ChildFits(n, p, i);
      ChildAt(root, p, i);
      ChildUsed(root, d, p, i);
      var r := DumpNode(n.children[i], p + [i], d, cap, used, s[|p| := i]);
      LoopTurn(n, p, d, cap, used, s, i, r);
      EnteredFits(root, n.children[i], p + [i], d, cap, used, s[|p| := i]);
      if r.ok && r.used + 4 <= cap {
        ChildrenFit(root, n, p, d, cap, r.used + 3, r.start, i + 1);
        EnteredOne(p);
        EnteredJoin(r.tokens, [Up]);
        EnteredJoin(r.tokens + [Up], DumpChildren(n, p, d, cap, r.used + 3, r.start, i + 1).tokens);
      }
    }
  }

  lemma {:induction false} SeriesFits(root: Node, d: seq<Values>, v: Values, cap: nat, s: seq<nat>, dumps: seq<Dump>,
      q: Path)
    requires |s| == 8 && FitsDepth(root, 8) && Series(root, d, cap, s, dumps) && Steady(d, v)
    requires q in EnteredInSeries(dumps)
    ensures IsNode(root, q) && PathUsed(root, v, q) + MAX_PARAM_NODE_LENGTH <= cap
    decreases |dumps|
  {
    hide DumpNode, FitsDepth, NodeAt, PathUsed, Entered;
    assert IsNode(root, []) && NodeAt(root, []) == root && PathUsed(root, v, []) == 1 by {
      AtRoot(root, v);
    }
    EnteredFits(root, root, [], v, cap, 1, s);
    if |dumps| > 1 && q !in Entered(dumps[0].tokens) {
      SeriesFits(root, d[1..], v, cap, dumps[0].start, dumps[1..], q);
    }
  }

  lemma AtRoot(root: Node, v: Values)
    ensures IsNode(root, []) && NodeAt(root, []) == root && PathUsed(root, v, []) == 1
  {
  }

  /** From position s a series comes to an end if the values stay as they are. */
  ghost predicate Finishes(root: Node, v: Values, cap: nat, s: seq<nat>)
    requires |s| == 8 && FitsDepth(root, 8)
  {
    exists d, dumps :: Series(root, d, cap, s, dumps) && Steady(d, v)
  }

  lemma EndsSteadily(root: Node, v: Values, cap: nat, s: seq<nat>)
    requires |s| == 8 && FitsDepth(root, 8) && Resumable(root, 0, s)
    requires Reachable(root, v, cap) && AllLeavable(root, v, cap)
    ensures Finishes(root, v, cap, s)
  {
    hide FitsDepth, Resumable, Reachable, AllLeavable, Series, ToVisit;
    var d := seq(ToVisit(root, 0, s), _ => v);
    SeriesEnds(root, d, cap, s);
    var dumps :| 0 < |dumps| <= |d| && Series(root, d[..|dumps|], cap, s, dumps);
    assert Steady(d[..|dumps|], v);
  }

  /** Where every subtree can be left, a dump of the tree comes to an end exactly if every node can
      be reached. */
  lemma EndsIfReachable(root: Node, v: Values, cap: nat)
    requires FitsDepth(root, 8) && AllLeavable(root, v, cap)
    ensures Finishes(root, v, cap, FreshStart()) <==> Reachable(root, v, cap)
  {
    hide FitsDepth, AllLeavable, Series, EnteredInSeries, PathUsed;
    if Finishes(root, v, cap, FreshStart()) {
      var d, dumps :| Series(root, d, cap, FreshStart(), dumps) && Steady(d, v);
      forall q | IsNode(root, q)
        ensures PathUsed(root, v, q) + MAX_PARAM_NODE_LENGTH <= cap
      {
        NothingSkipped(root, d, cap, dumps, q);
        SeriesFits(root, d, v, cap, FreshStart(), dumps, q);
      }
    }
    if Reachable(root, v, cap) {
      assert ZeroFrom(FreshStart(), 0);
      EndsSteadily(root, v, cap, FreshStart());
    }
  }

  /** The position at the beginning of a subtree. */
  function PositionOf(q: Path): (s: seq<nat>)
    requires |q| <= 8
    ensures |s| == 8 && s[..|q|] == q && ZeroFrom(s, |q|)
  {
    q + seq(8 - |q|, _ => 0)
  }

  /** Every subtree but the whole tree is printed to its end in a message that begins with the way
      to it. */
  ghost predicate InOneMessage(root: Node, d: Values, cap: nat) {
    forall q :: IsNode(root, q) && q != [] ==>
      && |q| < 8 && FitsDepth(NodeAt(root, q), 8 - |q|)
      && DumpNode(NodeAt(root, q), q, d, cap, PathUsed(root, d, q), PositionOf(q)).ok
  }

  /** And there is room for the way back up after it. */
  ghost predicate RoomBack(root: Node, d: Values, cap: nat) {
    forall q :: IsNode(root, q) && q != [] ==> PathUsed(root, d, q) + Width(NodeAt(root, q), q, d) + 4 <= cap
  }

  lemma {:induction false} PositionResumable(root: Node, q: Path, k: nat)
    requires k <= |q| <= 8 && IsNode(root, q) && IsNode(root, q[..k])
    ensures Resumable(NodeAt(root, q[..k]), k, PositionOf(q))
    decreases |q| - k
  {
    hide IsNode, NodeAt;
    var s := PositionOf(q);
    if k < |q| {
      PrefixIsNode(root, q, k + 1);
      assert q[..k + 1] == q[..k] + [q[k]];
      ChildAt(root, q[..k], q[k]);
      PositionResumable(root, q, k + 1);
      assert s[k] == s[..|q|][k];
    }
  }

  lemma {:induction false} PrefixIsNode(root: Node, q: Path, k: nat)
    requires k <= |q| && IsNode(root, q)
    ensures IsNode(root, q[..k])
    decreases |q| - k
  {
    if k < |q| {
      PrefixIsNode(root, q, k + 1);
      ParentAt(root, q[..k + 1]);
      assert q[..k + 1][..k] == q[..k];
    } else {
      assert q[..k] == q;
    }
  }

  lemma SameFromZero(s: seq<nat>, t: seq<nat>, q: Path)
    requires |s| == 8 && |t| == 8 && |q| <= 8
    requires s[..|q|] == t[..|q|] && ZeroFrom(s, |q|) && ZeroFrom(t, |q|)
    ensures s == t
  {
    forall j | 0 <= j < 8
      ensures s[j] == t[j]
    {
      if j < |q| {
        assert s[j] == s[..|q|][j] && t[j] == t[..|q|][j];
      }
    }
  }

  lemma {:induction false} DepthAt(n: Node, levels: nat, p: Path)
    requires FitsDepth(n, levels) && IsNode(n, p)
    ensures |p| < levels && FitsDepth(NodeAt(n, p), levels - |p|)
    decreases |p|
  {
    if p != [] {
      DepthAt(n.children[p[0]], levels - 1, p[1..]);
    }
  }

  /** A dump of the subtree at p that goes on at position s, with the way to it printed first, comes
      back to the node above unfinished or without room for the way up, and with the position
      unchanged. */
  ghost predicate Blocked(root: Node, v: Values, cap: nat, p: Path, s: seq<nat>) {
    && |s| == 8 && |p| < 8 && IsNode(root, p) && FitsDepth(NodeAt(root, p), 8 - |p|)
    && var r := DumpNode(NodeAt(root, p), p, v, cap, PathUsed(root, v, p), s);
       (!r.ok || r.used + 4 > cap) && r.start == s
  }

  /** The subtree itself: it is finished, without room for the way back, and its start indices
      are as they were. */
  lemma GroupFull(root: Node, v: Values, cap: nat, q: Path)
    requires |q| < 8 && IsNode(root, q) && FitsDepth(NodeAt(root, q), 8 - |q|) && InOneMessage(root, v, cap) && q != []
    requires PathUsed(root, v, q) + Width(NodeAt(root, q), q, v) + 4 > cap
    ensures Blocked(root, v, cap, q, PositionOf(q))
  {
    hide DumpNode, FitsDepth, IsNode, NodeAt, PathUsed, Width, Covers, Resumable, PositionOf;
    var s := PositionOf(q);
    assert q[..|q|] == q;
    PositionResumable(root, q, |q|);
    NodeUsed(root, NodeAt(root, q), q, v, cap, PathUsed(root, v, q), s);
    NodeCovers(root, NodeAt(root, q), q, v, cap, PathUsed(root, v, q), s);
    SameFromZero(DumpNode(NodeAt(root, q), q, v, cap, PathUsed(root, v, q), s).start, s, q);
  }

  /** The node above: it stops with the start indices of its child. */
  lemma StopsAbove(root: Node, v: Values, cap: nat, p: Path, i: nat, s: seq<nat>)
    requires IsNode(root, p) && |p| < 8 && FitsDepth(NodeAt(root, p), 8 - |p|)
    requires Blocked(root, v, cap, p + [i], s) && s[|p|] == i
    requires PathUsed(root, v, p) + MAX_PARAM_NODE_LENGTH <= cap
    ensures Blocked(root, v, cap, p, s)
    ensures !DumpNode(NodeAt(root, p), p, v, cap, PathUsed(root, v, p), s).ok
  {
    hide NodeString, DumpNode, DumpChildren, FitsDepth, IsNode, NodeAt, PathUsed;
    assert s[|p| := i] == s;
    ChildAt(root, p, i);
    ChildUsed(root, v, p, i);
    var n, used := NodeAt(root, p), PathUsed(root, v, p);
    var used1 := used + |NodeString(n, ValueAt(v, p))| + 1;
    DumpTurn(n, p, v, cap, used, s);
    LoopTurn(n, p, v, cap, used1, s, i, DumpNode(n.children[i], p + [i], v, cap, used1, s));
  }

  /** A dump that starts at a subtree, finishes it and has no room for the way back up, stops and
      will start there again. */
  lemma {:induction false} StandsStill(root: Node, v: Values, cap: nat, q: Path, k: nat)
    requires FitsDepth(root, 8) && Reachable(root, v, cap) && InOneMessage(root, v, cap)
    requires IsNode(root, q) && 0 < k <= |q| < 8
    requires PathUsed(root, v, q) + Width(NodeAt(root, q), q, v) + 4 > cap
    ensures Blocked(root, v, cap, q[..k], PositionOf(q))
    decreases |q| - k
  {
    hide FitsDepth, IsNode, NodeAt, PathUsed, Width, PositionOf, InOneMessage, Blocked;
    var s, p := PositionOf(q), q[..k];
    if k < |q| {
      PrefixIsNode(root, q, k);
      DepthAt(root, 8, p);
      assert q[..k + 1] == p + [q[k]];
      assert s[k] == s[..|q|][k] == q[k];
      StandsStill(root, v, cap, q, k + 1);
      StopsAbove(root, v, cap, p, q[k], s);
    } else {
      assert p == q;
      DepthAt(root, 8, q);
      GroupFull(root, v, cap, q);
    }
  }

  /** A dump that stops where it started is the first of a series that never ends. */
  lemma {:induction false} Stuck(root: Node, v: Values, cap: nat, s: seq<nat>, d: seq<Values>, dumps: seq<Dump>)
    requires |s| == 8 && FitsDepth(root, 8) && Steady(d, v)
    requires var r := DumpNode(root, [], v, cap, 1, s); !r.ok && r.start == s
    ensures !Series(root, d, cap, s, dumps)
    decreases |dumps|
  {
    hide DumpNode, FitsDepth;
    if |dumps| > 1 && |d| == |dumps| {
      Stuck(root, v, cap, s, d[1..], dumps[1..]);
    }
  }

  lemma RootStops(root: Node, v: Values, cap: nat, i: nat, s: seq<nat>)
    requires FitsDepth(root, 8) && Reachable(root, v, cap)
    requires Blocked(root, v, cap, [] + [i], s) && s[0] == i
    ensures |s| == 8
    ensures var r := DumpNode(root, [], v, cap, 1, s); !r.ok && r.start == s
  {
    hide FitsDepth, DumpNode, PathUsed;
    AtRoot(root, v);
    StopsAbove(root, v, cap, [], i, s);
  }

  lemma StuckAt(root: Node, v: Values, cap: nat, q: Path)
    requires FitsDepth(root, 8) && Reachable(root, v, cap) && InOneMessage(root, v, cap)
    requires IsNode(root, q) && q != []
    requires PathUsed(root, v, q) + Width(NodeAt(root, q), q, v) + 4 > cap
    ensures |q| < 8 && !Finishes(root, v, cap, PositionOf(q))
  {
    hide FitsDepth, InOneMessage, Reachable, Width, DumpNode, Series, PositionOf, Steady, Blocked, NodeAt, IsNode, PathUsed;
    DepthAt(root, 8, q);
    StandsStill(root, v, cap, q, 1);
    assert q[..1] == [] + [q[0]] && PositionOf(q)[0] == PositionOf(q)[..|q|][0];
    RootStops(root, v, cap, q[0], PositionOf(q));
    forall d, dumps | Series(root, d, cap, PositionOf(q), dumps) && Steady(d, v)
      ensures false
    {
      Stuck(root, v, cap, PositionOf(q), d, dumps);
    }
  }

  lemma GroupsReachable(root: Node, v: Values, cap: nat)
    requires FitsDepth(root, 8) && InOneMessage(root, v, cap) && cap > MAX_PARAM_NODE_LENGTH
    ensures Reachable(root, v, cap)
  {
    hide FitsDepth, DumpNode, NodeString, PositionOf;
    forall q | IsNode(root, q)
      ensures PathUsed(root, v, q) + MAX_PARAM_NODE_LENGTH <= cap
    {
      if q != [] {
        DepthAt(root, 8, q);
        DumpTurn(NodeAt(root, q), q, v, cap, PathUsed(root, v, q), PositionOf(q));
      }
    }
  }

  /** For trees whose subtrees are printed in one message each, a series ends from every position,
      exactly if after every subtree there is room for the way back up. */
  lemma EndsIfRoomBack(root: Node, v: Values, cap: nat)
    requires FitsDepth(root, 8) && InOneMessage(root, v, cap)
    ensures (forall s: seq<nat> :: |s| == 8 && Resumable(root, 0, s) ==> Finishes(root, v, cap, s))
       <==> cap > MAX_PARAM_NODE_LENGTH && RoomBack(root, v, cap)
  {
    hide FitsDepth, InOneMessage, Reachable, Width, DumpNode, Series, PositionOf, Steady, PathUsed, Resumable, NodeAt;
    if cap > MAX_PARAM_NODE_LENGTH && RoomBack(root, v, cap) {
      GroupsReachable(root, v, cap);
      forall s: seq<nat> | |s| == 8 && Resumable(root, 0, s)
        ensures Finishes(root, v, cap, s)
      {
        EndsSteadily(root, v, cap, s);
      }
    }
    if forall s: seq<nat> :: |s| == 8 && Resumable(root, 0, s) ==> Finishes(root, v, cap, s) {
      FreshResumable(root);
      var d, dumps :| Series(root, d, cap, FreshStart(), dumps) && Steady(d, v);
      SeriesHasRoom(root, d, cap, FreshStart(), dumps);
      GroupsReachable(root, v, cap);
      forall q | IsNode(root, q) && q != []
        ensures PathUsed(root, v, q) + Width(NodeAt(root, q), q, v) + 4 <= cap
      {
        DepthAt(root, 8, q);
        PrefixIsNode(root, q, 0);
        WholeResumable(root, q);
        if PathUsed(root, v, q) + Width(NodeAt(root, q), q, v) + 4 > cap {
          StuckAt(root, v, cap, q);
        }
      }
    }
  }

  lemma WholeResumable(root: Node, q: Path)
    requires |q| <= 8 && IsNode(root, q)
    ensures Resumable(root, 0, PositionOf(q))
  {
    assert q[..0] == [];
    PositionResumable(root, q, 0);
  }

  // ---------------------------------------------------------------- short nodes

  lemma {:induction false} TailDepth(root: Node, v: Values, n: Node, q: Path)
    requires IsNode(root, q) && NodeAt(root, q) == n && q != []
    requires forall p :: IsNode(root, p) ==> |NodeString(NodeAt(root, p), ValueAt(v, p))| + 3 * |p| + 2 <= MAX_PARAM_NODE_LENGTH
    ensures TailRoom(n, q, v) + 3 * (|q| - 1) <= MAX_PARAM_NODE_LENGTH
    decreases n
  {
    hide NodeString, IsNode, NodeAt;
    if n.children != [] {
      var i := |n.children| - 1;
      ChildAt(root, q, i);
      TailDepth(root, v, n.children[i], q + [i]);
    }
  }

  /** Nodes that print shortly enough for their depth can all be left. */
  lemma ShortNodesLeavable(root: Node, v: Values, cap: nat)
    requires forall p :: IsNode(root, p) ==> |NodeString(NodeAt(root, p), ValueAt(v, p))| + 3 * |p| + 2 <= MAX_PARAM_NODE_LENGTH
    ensures AllLeavable(root, v, cap)
  {
    hide NodeString, TailRoom, Width, PathUsed;
    forall q | IsNode(root, q) && q != []
      ensures Leavable(root, v, cap, q)
    {
      TailDepth(root, v, NodeAt(root, q), q);
    }
  }

  // ---------------------------------------------------------------- what a series does not print

  lemma {:induction false} NodeEnters(n: Node, p: Path, d: Values, cap: nat, used: nat, s: seq<nat>)
    requires |s| == 8 && |p| < 8 && FitsDepth(n, 8 - |p|)
    ensures forall q :: q in Entered(DumpNode(n, p, d, cap, used, s).tokens) ==> p <= q && |q| < 8
    decreases n, |n.children| + 1
  {
    hide NodeString, DumpNode, DumpChildren, FitsDepth, Entered;
    DumpTurn(n, p, d, cap, used, s);
    NothingEntered();
    if used + MAX_PARAM_NODE_LENGTH <= cap {
      var used1 := used + |NodeString(n, ValueAt(d, p))| + 1;
      ChildrenEnter(n, p, d, cap, used1, s, s[|p|]);
      EnteredJoin([Enter(p)], DumpChildren(n, p, d, cap, used1, s, s[|p|]).tokens);
      EnteredOne(p);
    }
  }

  lemma {:induction false} ChildrenEnter(n: Node, p: Path, d: Values, cap: nat, used: nat, s: seq<nat>, i: nat)
    requires |s| == 8 && |p| < 8 && FitsDepth(n, 8 - |p|)
    ensures forall q :: q in Entered(DumpChildren(n, p, d, cap, used, s, i).tokens) ==>
              p <= q && |p| < |q| < 8 && q[|p|] >= i
    decreases n, if i < |n.children| then |n.children| - i else 0
  {
    hide NodeString, DumpNode, DumpChildren, FitsDepth, Entered;
    if i >= |n.children| {
      LoopEnd(n, p, d, cap, used, s, i);
      NothingEntered();
    } else {
      ChildFits(n, p, i);
      var r := DumpNode(n.children[i], p + [i], d, cap, used, s[|p| := i]);
      LoopTurn(n, p, d, cap, used, s, i, r);
      NodeEnters(n.children[i], p + [i], d, cap, used, s[|p| := i]);
      BelowChild(p, i);
      if r.ok && r.used + 4 <= cap {
        ChildrenEnter(n, p, d, cap, r.used + 3, r.start, i + 1);
        EnteredOne(p);
        EnteredJoin(r.tokens, [Up]);
        EnteredJoin(r.tokens + [Up], DumpChildren(n, p, d, cap, r.used + 3, r.start, i + 1).tokens);
      }
    }
  }

  lemma BelowChild(p: Path, i: nat)
    ensures forall q: Path :: p + [i] <= q ==> p <= q && |p| < |q| && q[|p|] == i
  {
    forall q: Path | p + [i] <= q
      ensures p <= q && |p| < |q| && q[|p|] == i
    {
      assert q[..|p| + 1] == p + [i];
      assert q[..|p|] == q[..|p| + 1][..|p|] == p;
    }
  }

  /** No node before the position is printed, and what was before it is before the new one. */
  ghost predicate GoesOn(k: nat, s: seq<nat>, r: Dump) {
    && |s| == |r.start| == 8
    && (forall q :: q in Entered(r.tokens) ==> |q| < 8 && !Before(q, k, s))
    && (!r.ok ==> forall q: Path :: |q| < 8 && Before(q, k, s) ==> Before(q, k, r.start))
  }

  /** Where every message gets further, a dump goes on at its position. */
  lemma {:induction false} DumpGoesOn(root: Node, n: Node, p: Path, d: Values, cap: nat, s: seq<nat>)
    requires |s| == 8 && |p| < 8 && FitsDepth(n, 8 - |p|)
    requires IsNode(root, p) && NodeAt(root, p) == n && Resumable(n, |p|, s)
    requires Reachable(root, d, cap) && AllLeavable(root, d, cap)
    ensures GoesOn(|p|, s, DumpNode(n, p, d, cap, PathUsed(root, d, p), s))
    decreases n
  {
    hide NodeString, DumpNode, DumpChildren, FitsDepth, IsNode, NodeAt, PathUsed, Leavable, Resumable, ZeroFrom, Entered,
      GoesOn;
    var used := PathUsed(root, d, p);
    assert used + MAX_PARAM_NODE_LENGTH <= cap;
    DumpTurn(n, p, d, cap, used, s);
    var used1, i := used + |NodeString(n, ValueAt(d, p))| + 1, s[|p|];
    StartOfChildren(n, |p|, s);
    if i < |n.children| {
      var c, q := n.children[i], p + [i];
      assert s[|p| := i] == s;
      ChildFits(n, p, i);
      var r := DumpNode(c, q, d, cap, used1, s);
      ChildTurn(root, n, p, d, cap, used1, s, i, r);
      ChildUsed(root, d, p, i);
      DumpGoesOn(root, c, q, d, cap, s);
      NodeEnters(c, q, d, cap, used1, s);
      if r.ok {
        CanLeave(root, c, q, d, cap, s);
        var rest := DumpChildren(n, p, d, cap, r.used + 3, r.start, i + 1);
        StopsLater(root, n, p, d, cap, r.used + 3, r.start, i + 1);
        ChildrenEnter(n, p, d, cap, r.used + 3, r.start, i + 1);
        GoesOnMore(p, i, s, r, rest);
      } else {
        GoesOnStop(p, i, s, r);
      }
    } else {
      LoopEnd(n, p, d, cap, used1, s, i);
      GoesOnLeaf(p, s, DumpNode(n, p, d, cap, used, s));
    }
  }

  lemma GoesOnLeaf(p: Path, s: seq<nat>, r: Dump)
    requires |s| == |r.start| == 8 && |p| < 8 && r.ok && r.tokens == [Enter(p)] + []
    ensures GoesOn(|p|, s, r)
  {
    assert r.tokens == [Enter(p)];
    EnteredOne(p);
  }

  /** The dump stopped in the child it started in. */
  lemma GoesOnStop(p: Path, i: nat, s: seq<nat>, r: Dump)
    requires |p| < 7 && GoesOn(|p| + 1, s, r) && !r.ok && s[|p|] == i == r.start[|p|]
    requires forall q :: q in Entered(r.tokens) ==> p + [i] <= q && |q| < 8
    ensures GoesOn(|p|, s, r.(tokens := [Enter(p)] + r.tokens, ok := false))
  {
    hide Entered;
    BelowChild(p, i);
    EnteredJoin([Enter(p)], r.tokens);
    EnteredOne(p);
  }

  /** The child was finished, and the loop went on with later ones. */
  lemma GoesOnMore(p: Path, i: nat, s: seq<nat>, r: Dump, rest: Dump)
    requires |p| < 7 && GoesOn(|p| + 1, s, r) && s[|p|] == i && |rest.start| == 8
    requires forall q :: q in Entered(r.tokens) ==> p + [i] <= q && |q| < 8
    requires forall q :: q in Entered(rest.tokens) ==> p <= q && |p| < |q| < 8 && q[|p|] >= i + 1
    requires !rest.ok ==> rest.start[|p|] >= i + 1
    ensures GoesOn(|p|, s, rest.(tokens := [Enter(p)] + (r.tokens + [Up] + rest.tokens)))
  {
    hide Entered;
    BelowChild(p, i);
    EnteredOne(p);
    EnteredJoin(r.tokens, [Up]);
    EnteredJoin(r.tokens + [Up], rest.tokens);
    EnteredJoin([Enter(p)], r.tokens + [Up] + rest.tokens);
  }

  /** Then a whole series prints no node before its first position. */
  lemma {:induction false} SeriesGoesOn(root: Node, d: seq<Values>, cap: nat, s: seq<nat>, dumps: seq<Dump>)
    requires |s| == 8 && FitsDepth(root, 8) && Resumable(root, 0, s)
    requires forall i :: 0 <= i < |d| ==> Reachable(root, d[i], cap) && AllLeavable(root, d[i], cap)
    requires Series(root, d, cap, s, dumps)
    ensures forall q :: q in EnteredInSeries(dumps) ==> |q| < 8 && !Before(q, 0, s)
    decreases |dumps|
  {
    hide DumpNode, FitsDepth, Reachable, AllLeavable, Resumable, Entered, Before, Covers;
    var r := dumps[0];
    AtRoot(root, d[0]);
    DumpGoesOn(root, root, [], d[0], cap, s);
    NodeCovers(root, root, [], d[0], cap, 1, s);
    if |dumps| > 1 {
      SeriesGoesOn(root, d[1..], cap, r.start, dumps[1..]);
    }
  }

  /** Whether or not the messages get further: a series prints no node of the subtrees of the root
      before the one it starts in. */
  lemma {:induction false} SeriesStaysIn(root: Node, d: seq<Values>, cap: nat, s: seq<nat>, dumps: seq<Dump>)
    requires |s| == 8 && FitsDepth(root, 8) && Resumable(root, 0, s)
    requires Series(root, d, cap, s, dumps)
    ensures forall q :: q in EnteredInSeries(dumps) && q != [] ==> q[0] >= s[0]
    decreases |dumps|
  {
    hide DumpNode, DumpChildren, FitsDepth, Resumable, Entered, Covers, NodeString, ZeroFrom;
    var r := dumps[0];
    AtRoot(root, d[0]);
    DumpTurn(root, [], d[0], cap, 1, s);
    NodeCovers(root, root, [], d[0], cap, 1, s);
    NothingEntered();
    if 1 + MAX_PARAM_NODE_LENGTH <= cap {
      var used := 1 + |NodeString(root, ValueAt(d[0], []))| + 1;
      StartOfChildren(root, 0, s);
      ChildrenEnter(root, [], d[0], cap, used, s, s[0]);
      StopsLater(root, root, [], d[0], cap, used, s, s[0]);
      EnteredJoin([Enter([])], DumpChildren(root, [], d[0], cap, used, s, s[0]).tokens);
      EnteredOne([]);
    }
    if |dumps| > 1 {
      SeriesStaysIn(root, d[1..], cap, r.start, dumps[1..]);
    }
  }
}
