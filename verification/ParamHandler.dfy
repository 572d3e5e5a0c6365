/** A parameter handler (paramHandler.c): it answers get and save requests with a series of
    resumable dumps of its tree, and finds and applies its part of a set message. */
module ParamHandler {
  import opened Options
  import opened ParamText
  import opened ParamTree
  import opened ParamWalk
  import opened ParamDump

  /** Param_CreateObj cuts every name to sixteen characters. */
  predicate NamesFit(n: Node) {
    |n.name| <= 16 && forall i :: 0 <= i < |n.children| ==> NamesFit(n.children[i])
  }

  lemma NodeStringFits(n: Node, v: int)
    requires NamesFit(n)
    ensures 3 < |NodeString(n, v)| + 1 <= 32
  {
  }

  /** A text buffer with room for `size` characters, the terminating null included. */
  class TextBuffer {
    const size: nat
    var text: string

    constructor (size: nat)
      ensures this.size == size && text == ""
    {
      this.size := size;
      text := "";
    }

    method AppendDivider() returns (ok: bool)
      modifies this
      ensures ok == (|old(text)| + 2 <= size)
      ensures text == old(text) + if ok then "/" else ""
    {
      ok := |text| + 2 <= size;
      if ok {
        text := text + "/";
      }
    }

    method AppendParentNotation() returns (ok: bool)
      modifies this
      ensures ok == (|old(text)| + 4 <= size)
      ensures text == old(text) + if ok then "../" else ""
    {
      ok := |text| + 4 <= size;
      if ok {
        text := text + "../";
      }
    }

    method AppendNodeString(n: Node, v: int) returns (ok: bool)
      modifies this
      ensures ok == (|old(text)| + MAX_PARAM_NODE_LENGTH <= size)
      ensures text == old(text) + if ok then NodeString(n, v) else ""
    {
      ok := |text| + MAX_PARAM_NODE_LENGTH <= size;
      if ok {
        hide Printed, Digits;
        text := text + n.name;
        text := text + "<" + Digits(TypeCode(n.vtype)) + ">";
        assert text == old(text) + (n.name + "<" + Digits(TypeCode(n.vtype)) + ">");
        if !n.vtype.NoType? {
          text := text + "[" + Printed(v) + "]";
          assert text == old(text) + (n.name + "<" + Digits(TypeCode(n.vtype)) + ">" + ("[" + Printed(v) + "]"));
        }
        assert NodeString(n, v) == n.name + "<" + Digits(TypeCode(n.vtype)) + ">" + Tail(n, v);
      }
    }
  }

  /** Where a dump goes on, and the number of the next message (param_helper_t). */
  class Helper {
    const dumpStart: array<nat>
    var depth: nat
    var sequence: nat

    constructor ()
      ensures dumpStart.Length == 8 && dumpStart[..] == FreshStart()
      ensures depth == 0 && sequence == 0 && fresh(dumpStart)
    {
      dumpStart := new nat[8](_ => 0);
      depth, sequence := 0, 0;
    }

    method Clear()
      requires dumpStart.Length == 8
      modifies dumpStart
      ensures dumpStart[..] == FreshStart()
    {
      for i := 0 to 8
        invariant forall j :: 0 <= j < i ==> dumpStart[j] == 0
      {
        dumpStart[i] := 0;
      }
    }
  }

  lemma JoinedAgain(a: seq<Token>, b: seq<Token>, r: Dump)
    ensures Joined(a, Joined(b, r)) == Joined(a + b, r)
  {
    assert a + (b + r.tokens) == a + b + r.tokens;
  }

  lemma TextOfOne(root: Node, d: Values, t: Token)
    requires t.Enter? ==> IsNode(root, t.path)
    ensures NodesOf(root, [t]) && TextOf(root, d, [t]) == TokenText(root, d, t)
  {
    hide TokenText;
    assert TextOf(root, d, [t][1..]) == "";
  }

  lemma TextGrows(root: Node, d: Values, before: string, a: seq<Token>, b: seq<Token>)
    requires NodesOf(root, a) && NodesOf(root, b)
    ensures NodesOf(root, a + b)
    ensures before + TextOf(root, d, a) + TextOf(root, d, b) == before + TextOf(root, d, a + b)
  {
    TextAppend(root, d, a, b);
  }

  /** Param_AppendDumpFromHere. */
  method AppendDumpFromHere(root: Node, p: Path, n: Node, d: Values, buffer: TextBuffer, helper: Helper)
    returns (ok: bool)
    requires IsNode(root, p) && NodeAt(root, p) == n && NamesFit(n)
    requires helper.dumpStart.Length == 8
    requires helper.depth == |p| < 8 && FitsDepth(n, 8 - |p|)
    modifies buffer, helper`depth, helper.dumpStart
    ensures var r := DumpNode(n, p, d, buffer.size, |old(buffer.text)|, old(helper.dumpStart[..]));
            && ok == r.ok
            && NodesOf(root, r.tokens)
            && buffer.text == old(buffer.text) + TextOf(root, d, r.tokens)
            && |buffer.text| == r.used
            && helper.dumpStart[..] == r.start
            && (ok ==> helper.depth == |p|)
    decreases n
  {
    hide DumpNode, DumpChildren, FitsDepth, NodeString, TextOf, NodesOf, IsNode, NodeAt, NamesFit;
    ghost var cap, text0 := buffer.size, buffer.text;
    ghost var whole := DumpNode(n, p, d, cap, |text0|, helper.dumpStart[..]);
    DumpTurn(n, p, d, cap, |text0|, helper.dumpStart[..]);
    NodeStringFits(n, ValueAt(d, p));
    ok := buffer.AppendNodeString(n, ValueAt(d, p));
    if !ok {
      NothingPrinted(root, d);
      return;
    }
    ok := buffer.AppendDivider();
    if !ok {
      return;
    }
    ghost var done := [Enter(p)];
    TextOfOne(root, d, Enter(p));
    var i: nat := helper.dumpStart[helper.depth];
    helper.depth := helper.depth + 1;
    while i < |n.children|
      invariant helper.depth == |p| + 1
      invariant NodesOf(root, done) && buffer.text == text0 + TextOf(root, d, done)
      invariant whole == Joined(done, DumpChildren(n, p, d, cap, |buffer.text|, helper.dumpStart[..], i))
    {
      ghost var used, s := |buffer.text|, helper.dumpStart[..];
      ChildFits(n, p, i);
      ChildAt(root, p, i);
      ChildNamesFit(n, i);
      helper.dumpStart[helper.depth - 1] := i;
      assert helper.dumpStart[..] == s[|p| := i];
      ghost var r := DumpNode(n.children[i], p + [i], d, cap, used, s[|p| := i]);
      ok := AppendDumpFromHere(root, p + [i], n.children[i], d, buffer, helper);
      LoopTurn(n, p, d, cap, used, s, i, r);
      TextGrows(root, d, text0, done, r.tokens);
      if !ok {
        return;
      }
      ok := buffer.AppendParentNotation();
      if !ok {
        return;
      }
      TextOfOne(root, d, Up);
      TextGrows(root, d, text0, done + r.tokens, [Up]);
      JoinedAgain(done, r.tokens + [Up], DumpChildren(n, p, d, cap, r.used + 3, r.start, i + 1));
      assert done + (r.tokens + [Up]) == done + r.tokens + [Up];
      done := done + r.tokens + [Up];
      i := i + 1;
    }
    LoopEnd(n, p, d, cap, |buffer.text|, helper.dumpStart[..], i);
    helper.depth := helper.depth - 1;
    helper.dumpStart[helper.depth] := 0;
    ok := true;
    assert done + [] == done;
  }

  lemma ChildNamesFit(n: Node, i: nat)
    requires NamesFit(n) && i < |n.children|
    ensures NamesFit(n.children[i])
  {
  }

  lemma NothingPrinted(root: Node, d: Values)
    ensures NodesOf(root, []) && TextOf(root, d, []) == ""
  {
  }

  // ---------------------------------------------------------------- finding the root in a set message

  /** The level after a module, in 32-bit arithmetic. */
  function LevelAfter(depth: nat, mod: string): nat {
    if StartsWithUp(mod) then (depth + 0xFFFF_FFFF) % 0x1_0000_0000 else (depth + 1) % 0x1_0000_0000
  }

  /** The part of a path text that starts with the first module at level zero of that name. */
  function RootFrom(name: string, text: string, depth: nat): Option<string>
    decreases |text|
  {
    match ModuleString(MAX_PARAM_NODE_LENGTH, text)
    case None => None
    case Some((mod, rest)) =>
      if depth == 0 then
        match NameString(17, mod)
        case None => None
        case Some(found) => if found == name then Some(text) else RootFrom(name, rest, LevelAfter(depth, mod))
      else RootFrom(name, rest, LevelAfter(depth, mod))
  }

  /** ParamHandler_FindRoot. */
  method FindRoot(name: string, payload: string) returns (found: Option<string>)
    ensures found == RootOf(name, payload)
  {
    hide ModuleString, NameString;
    if payload == "" || payload[0] != '/' {
      return None;
    }
    var text, depth: nat := payload[1..], 0;
    while true
      invariant RootFrom(name, payload[1..], 0) == RootFrom(name, text, depth)
      decreases |text|
    {
      var module_ := ModuleString(MAX_PARAM_NODE_LENGTH, text);
      if module_.None? {
        return None;
      }
      var (mod, rest) := module_.value;
      if depth == 0 {
        var nameOf := NameString(17, mod);
        if nameOf.None? {
          return None;
        }
        if nameOf.value == name {
          return Some(text);
        }
      }
      if StartsWithUp(mod) {
        depth := (depth + 0xFFFF_FFFF) % 0x1_0000_0000;
      } else {
        depth := (depth + 1) % 0x1_0000_0000;
      }
      ModuleShorter(text);
      text := rest;
    }
  }

  lemma ModuleShorter(text: string)
    ensures ModuleString(MAX_PARAM_NODE_LENGTH, text).Some? ==> |ModuleString(MAX_PARAM_NODE_LENGTH, text).value.1| < |text|
  {
  }

  lemma NodeStringGoesDown(n: Node, v: int)
    requires ValidName(n.name)
    ensures !StartsWithUp(NodeString(n, v))
  {
    NodeMarks(n, v);
    hide StrChr, Plain;
    assert NodeString(n, v)[..|n.name|] == n.name;
    assert NodeString(n, v)[|n.name|] == '<';
    if |n.name| >= 2 {
      assert NodeString(n, v)[0] == n.name[0] && NodeString(n, v)[1] == n.name[1];
    }
  }

  lemma RootPastNode(n: Node, v: int, rest: string, depth: nat, name: string)
    requires ValidName(n.name) && depth < 0xFFFF_FFFF
    ensures RootFrom(name, NodeString(n, v) + "/" + rest, depth)
         == if depth == 0 && n.name == name then Some(NodeString(n, v) + "/" + rest) else RootFrom(name, rest, depth + 1)
  {
    hide ModuleString, NodeString, ValidName, NameString, StartsWithUp;
    ModuleOfNode(n, v, rest);
    NameOfNode(n, v);
    NodeStringGoesDown(n, v);
  }

  lemma RootPastUp(rest: string, depth: nat, name: string)
    requires 0 < depth <= 0xFFFF_FFFF
    ensures RootFrom(name, "../" + rest, depth) == RootFrom(name, rest, depth - 1)
  {
    hide ModuleString, NameString;
    UpModule(rest);
    assert (depth + 0xFFFF_FFFF) % 0x1_0000_0000 == depth - 1;
  }

  lemma NoRootInNothing(name: string, depth: nat)
    ensures RootFrom(name, "", depth) == None
  {
    assert ModuleString(MAX_PARAM_NODE_LENGTH, "") == None;
  }

  /** Below its root a walk shows no module at level zero. */
  lemma {:induction false} NoRootBelow(root: Node, p: Path, d: Values, tokens: seq<Token>, name: string)
    requires WellNamed(root) && FitsDepth(root, 8) && IsNode(root, p)
    requires Walks(root, p, tokens) && NodesOf(root, tokens)
    ensures RootFrom(name, TextOf(root, d, tokens), |p| + 1) == None
    decreases |tokens|
  {
    hide NodeString, WellNamed, NodeAt, ValidName, FitsDepth, RootFrom, IsNode;
    if tokens == [] {
      NoRootInNothing(name, |p| + 1);
    } else {
      DepthBound(root, 8, p);
      var t, rest, tail := tokens[0], TextOf(root, d, tokens[1..]), tokens[1..];
      match t {
        case Enter(q) =>
          EnteredNamed(root, q);
          RootPastNode(NodeAt(root, q), ValueAt(d, q), rest, |p| + 1, name);
          NoRootBelow(root, q, d, tail, name);
        case Up =>
          ParentAt(root, p);
          RootPastUp(rest, |p| + 1, name);
          NoRootBelow(root, p[..|p| - 1], d, tail, name);
      }
    }
  }

  /** A dump is taken whole by the handler of the dumped root, and found by no other. */
  lemma DumpFindsItsRoot(root: Node, d: Values, ok: bool, tokens: seq<Token>, name: string)
    requires WellNamed(root) && FitsDepth(root, 8)
    requires Visit(root, [], ok, tokens) && NodesOf(root, tokens)
    ensures RootFrom(name, TextOf(root, d, tokens), 0)
         == if tokens != [] && name == root.name then Some(TextOf(root, d, tokens)) else None
  {
    hide NodeString, WellNamed, ValidName, FitsDepth, Walks, RootFrom;
    if tokens == [] {
      NoRootInNothing(name, 0);
    } else {
      var tail := tokens[1..];
      assert IsNode(root, []) && NodeAt(root, []) == root;
      EnteredNamed(root, []);
      RootPastNode(root, ValueAt(d, []), TextOf(root, d, tail), 0, name);
      NoRootBelow(root, [], d, tail, name);
    }
  }

  // ---------------------------------------------------------------- set messages

  function RootOf(name: string, payload: string): Option<string> {
    if payload == "" || payload[0] != '/' then None else RootFrom(name, payload[1..], 0)
  }

  /** What a set message does to the values of a handler. */
  function SetByMessage(root: Node, values: Values, payload: string): SetResult {
    match RootOf(root.name, payload)
    case None => SetResult(values, false)
    case Some(text) => SetFromRoot(root, values, text)
  }

  /** A message that holds a dump is read in full by handlers of that root and changes nothing
      in any other handler. */
  lemma DumpMessage(root: Node, values: Values, d: Values, ok: bool, tokens: seq<Token>, other: Node, theirs: Values)
    requires WellNamed(root) && FitsDepth(root, 8)
    requires Visit(root, [], ok, tokens) && NodesOf(root, tokens) && tokens != []
    requires other.name != root.name
    ensures SetByMessage(root, values, "/" + TextOf(root, d, tokens)) == SetFromRoot(root, values, TextOf(root, d, tokens))
    ensures SetByMessage(other, theirs, "/" + TextOf(root, d, tokens)) == SetResult(theirs, false)
  {
    hide WellNamed, FitsDepth, Visit, NodesOf, TextOf, RootFrom, SetFromRoot;
    var text := TextOf(root, d, tokens);
    assert ("/" + text)[1..] == text;
    DumpFindsItsRoot(root, d, ok, tokens, root.name);
    DumpFindsItsRoot(root, d, ok, tokens, other.name);
  }

  /** Only texts in which every module is closed by a separator are accepted in full. */
  lemma {:induction false} SetNeedsSeparator(root: Node, p: Path, values: Values, text: string)
    requires IsNode(root, p) && SetLoop(root, p, values, text).ok
    ensures text == "" || text[|text| - 1] == '/'
    decreases |text|
  {
    hide NodeAt, UpdateCurrent, FindNext, StrChr;
    if text != "" {
      var (mod, rest) := ModuleString(MAX_PARAM_NODE_LENGTH, text).value;
      var q := FindNext(root, p, mod).value;
      var v := UpdateCurrent(NodeAt(root, q), ValueAt(values, q), mod).value;
      SetNeedsSeparator(root, q, values[q := v], rest);
    }
  }

  // ---------------------------------------------------------------- the handler

  /** The answer to a get or save request. */
  datatype Reply = Reply(text: string, last: bool, sequence: nat)

  class Handler {
    const root: Node
    var values: Values
    const helper: Helper
    const saveHelper: Helper

    ghost predicate Valid()
      reads this, helper, saveHelper, helper.dumpStart, saveHelper.dumpStart
    {
      && FitsDepth(root, 8) && NamesFit(root)
      && helper != saveHelper && helper.dumpStart != saveHelper.dumpStart
      && Ready(helper) && Ready(saveHelper)
    }

    /** The next dump of this series starts at a position no node before which is missing. */
    ghost predicate Ready(h: Helper)
      reads h, h.dumpStart
    {
      h.dumpStart.Length == 8 && Resumable(root, 0, h.dumpStart[..])
    }

    constructor (root: Node, values: Values)
      requires FitsDepth(root, 8) && NamesFit(root)
      ensures Valid() && this.root == root && this.values == values
      ensures helper.dumpStart[..] == saveHelper.dumpStart[..] == FreshStart()
    {
      this.root := root;
      this.values := values;
      var h := new Helper();
      var s := new Helper();
      helper := h;
      saveHelper := s;
    }

    /** ParamHandler_Dump, into an empty buffer. */
    method Dump(buffer: TextBuffer, h: Helper) returns (ok: bool)
      requires Valid() && h.dumpStart.Length == 8 && buffer.size >= 2
      modifies buffer, h`depth, h.dumpStart
      ensures var r := DumpNode(root, [], values, buffer.size, 1, old(h.dumpStart[..]));
              && ok == r.ok
              && NodesOf(root, r.tokens)
              && buffer.text == "/" + TextOf(root, values, r.tokens)
              && |buffer.text| == r.used
              && h.dumpStart[..] == r.start
    {
      hide DumpNode, TextOf, NodesOf, NamesFit;
      buffer.text := "";
      var fits := buffer.AppendDivider();
      h.depth := 0;
      assert IsNode(root, []) && NodeAt(root, []) == root;
      ok := AppendDumpFromHere(root, [], root, values, buffer, h);
    }

    /** The get and save branch of ParamHandler_HandleParamFcMsg. */
    method HandleGet(save: bool) returns (reply: Reply)
      requires Valid()
      modifies if save then saveHelper else helper
      modifies (if save then saveHelper else helper).dumpStart
      ensures Valid()
      ensures var h := if save then saveHelper else helper;
              var r := DumpNode(root, [], values, PARAM_BUFFER_LEN, 1, old(h.dumpStart[..]));
              && NodesOf(root, r.tokens)
              && reply.text == "/" + TextOf(root, values, r.tokens)
              && |reply.text| < PARAM_BUFFER_LEN
              && reply.last == r.ok
              && reply.sequence == h.sequence == (if r.ok then old(h.sequence) else (old(h.sequence) + 1) % 256)
              && h.dumpStart[..] == (if r.ok then FreshStart() else r.start)
    {
      hide DumpNode, TextOf, NodesOf, NamesFit, FitsDepth, Resumable, Covers;
      var h := if save then saveHelper else helper;
      assert IsNode(root, []) && NodeAt(root, []) == root;
      NodeCovers(root, root, [], values, PARAM_BUFFER_LEN, 1, h.dumpStart[..]);
      DumpFits([], root, values, PARAM_BUFFER_LEN, 1, h.dumpStart[..]);
      var buffer := new TextBuffer(PARAM_BUFFER_LEN);
      var finished := Dump(buffer, h);
      if finished {
        FreshResumable(root);
        h.Clear();
      } else {
        h.sequence := (h.sequence + 1) % 256;
      }
      reply := Reply(buffer.text, finished, h.sequence);
    }

    /** Param_SetFromHere. */
    method SetFromHere(text: string) returns (ok: bool)
      modifies this`values
      ensures var r := SetFromRoot(root, old(values), text);
              ok == r.ok && values == r.values
    {
      hide ModuleString, UpdateCurrent, FindNext, NodeAt;
      var first := ModuleString(MAX_PARAM_NODE_LENGTH, text);
      if first.None? {
        return false;
      }
      var (mod, rest) := first.value;
      var v := UpdateCurrent(root, ValueAt(values, []), mod);
      if v.None? {
        return false;
      }
      values := values[[] := v.value];
      assert IsNode(root, []);
      var p: Path := [];
      while rest != ""
        invariant IsNode(root, p)
        invariant SetFromRoot(root, old(values), text) == SetLoop(root, p, values, rest)
        decreases |rest|
      {
        var next := ModuleString(MAX_PARAM_NODE_LENGTH, rest);
        if next.None? {
          return false;
        }
        ModuleShorter(rest);
        mod := next.value.0;
        var q := FindNext(root, p, mod);
        if q.None? {
          return false;
        }
        v := UpdateCurrent(NodeAt(root, q.value), ValueAt(values, q.value), mod);
        if v.None? {
          return false;
        }
        p, rest := q.value, next.value.1;
        values := values[p := v.value];
      }
      ok := true;
    }

    /** The set branch of ParamHandler_HandleParamFcMsg. */
    method HandleSet(payload: string) returns (ok: bool)
      modifies this`values
      ensures var r := SetByMessage(root, old(values), payload);
              ok == r.ok && values == r.values
    {
      hide RootOf, SetFromRoot;
      var found := FindRoot(root.name, payload);
      ok := false;
      if found.Some? {
        ok := SetFromHere(found.value);
      }
    }
  }

  /** What a dump adds never fills the buffer: there is room for the terminating null. */
  lemma {:induction false} DumpFits(p: Path, n: Node, d: Values, cap: nat, used: nat, s: seq<nat>)
    requires |s| == 8 && |p| < 8 && FitsDepth(n, 8 - |p|) && NamesFit(n) && used < cap
    ensures DumpNode(n, p, d, cap, used, s).used < cap
    decreases n, |n.children| + 1
  {
    hide NodeString, NamesFit;
    NodeStringFits(n, ValueAt(d, p));
    if used + MAX_PARAM_NODE_LENGTH <= cap {
      ChildrenFit(p, n, d, cap, used + |NodeString(n, ValueAt(d, p))| + 1, s, s[|p|]);
    }
  }

  lemma {:induction false} ChildrenFit(p: Path, n: Node, d: Values, cap: nat, used: nat, s: seq<nat>, i: nat)
    requires |s| == 8 && |p| < 8 && FitsDepth(n, 8 - |p|) && NamesFit(n) && used < cap
    ensures DumpChildren(n, p, d, cap, used, s, i).used < cap
    decreases n, if i < |n.children| then |n.children| - i else 0
  {
    if i < |n.children| {
      hide DumpNode, DumpChildren, FitsDepth, NamesFit;
      ChildFits(n, p, i);
      ChildNamesFit(n, i);
      var r := DumpNode(n.children[i], p + [i], d, cap, used, s[|p| := i]);
      LoopTurn(n, p, d, cap, used, s, i, r);
      DumpFits(p + [i], n.children[i], d, cap, used, s[|p| := i]);
      if r.ok && r.used + 4 <= cap {
        ChildrenFit(p, n, d, cap, r.used + 3, r.start, i + 1);
      }
    }
  }
}
