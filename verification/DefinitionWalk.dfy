/** The explicit-stack definition walk of extract_defs.c, against a recursive descent that hands the
    enclosing scope down. A node carries what the walk asks of its grammar kind. */
module DefinitionWalk {
  import opened Basics

  /** What the language-specific tests at the top of the walk decide. */
  datatype Special = Ordinary | HandledWhole | HandledThenChildren

  datatype Node = Node(
    id: nat,
    special: Special,
    isFunction: bool,
    isTemplateClass: bool,
    isRustImpl: bool,
    isNamespace: bool,
    isClass: bool,
    isBody: bool,
    isWrapper: bool,
    name: Option<string>,
    children: seq<Node>)

  /** Qualified name of the enclosing class or namespace; None at file level. */
  type Scope = Option<string>

  datatype Frame = Frame(node: Node, scope: Scope)

  /** Language facts: whether function bodies are searched, and how a top-level name is qualified. */
  datatype Language = Language(searchFunctions: bool, topLevel: string -> string)

  /** `compute_class_qn`. */
  function InnerScope(lang: Language, node: Node, outer: Scope): Scope {
    if node.name.None? || node.name.value == "" then outer
    else if outer.Some? then Some(outer.value + "." + node.name.value)
    else Some(lang.topLevel(node.name.value))
  }

  datatype Descent = Nothing | SameScope | IntoNamespace | IntoClass

  /** Which way the walk goes below a node: the order of the tests matters. */
  function DescentOf(lang: Language, node: Node): Descent {
    if node.special.HandledWhole? then Nothing
    else if node.special.HandledThenChildren? then SameScope
    else if node.isFunction && !node.isTemplateClass && !lang.searchFunctions then Nothing
    else if node.isRustImpl then Nothing
    else if node.isNamespace then IntoNamespace
    else if node.isClass then IntoClass
    else SameScope
  }

  // ---- Sizes ----

  function Size(node: Node): (n: nat)
    ensures n == 1 + SizeAll(node.children)
    decreases node, 1
  {
    1 + SizeAll(node.children)
  }

  function SizeAll(nodes: seq<Node>): nat
    decreases nodes, 0
  {
    if nodes == [] then 0 else Size(nodes[0]) + SizeAll(nodes[1..])
  }

  lemma {:induction false} SizeAllSum(a: seq<Node>, b: seq<Node>)
    ensures SizeAll(a + b) == SizeAll(a) + SizeAll(b)
  {
    if a == [] {
      assert a + b == b;
    } else {
      assert (a + b)[1..] == a[1..] + b;
      SizeAllSum(a[1..], b);
    }
  }

  // ---- The specification ----

  function Direct(nodes: seq<Node>): seq<Node> {
    if nodes == [] then [] else (if nodes[0].isClass then [nodes[0]] else []) + Direct(nodes[1..])
  }

  predicate IsWrapped(node: Node) { !node.isClass && node.isWrapper }

  /** The classes a class body leads to, in the order they are visited: those inside wrapper nodes
      first, last wrapper first, then the body's own in source order. */
  function NestedClasses(node: Node): (r: seq<Node>)
    ensures SizeAll(r) <= SizeAll(node.children)
    decreases node, 1
  {
    SizeAllSum(Wrapped(node.children), Direct(node.children));
    Wrapped(node.children) + Direct(node.children)
  }

  function Wrapped(nodes: seq<Node>): (r: seq<Node>)
    ensures SizeAll(r) + SizeAll(Direct(nodes)) <= SizeAll(nodes)
    decreases nodes, 0
  {
    if nodes == [] then []
    else
      var more := if IsWrapped(nodes[0]) then NestedClasses(nodes[0]) else [];
      SizeAllSum(Wrapped(nodes[1..]), more);
      SizeAllSum(if nodes[0].isClass then [nodes[0]] else [], Direct(nodes[1..]));
      Wrapped(nodes[1..]) + more
  }

  /** Position of the first body container among the children of a class, or their number. */
  function BodyIndex(nodes: seq<Node>): (i: nat)
    ensures i <= |nodes| && (i < |nodes| ==> nodes[i].isBody)
    ensures forall k :: 0 <= k < i ==> !nodes[k].isBody
  {
    if nodes == [] || nodes[0].isBody then 0 else 1 + BodyIndex(nodes[1..])
  }

  lemma {:induction false} SizeOfMember(nodes: seq<Node>, i: nat)
    requires i < |nodes|
    ensures Size(nodes[i]) <= SizeAll(nodes)
  {
    if i > 0 { SizeOfMember(nodes[1..], i - 1); }
  }

  /** The nodes a class leads to. */
  function ClassMembers(node: Node): (r: seq<Node>)
    ensures SizeAll(r) < Size(node)
  {
    var b := BodyIndex(node.children);
    if b < |node.children| then
      SizeOfMember(node.children, b);
      NestedClasses(node.children[b])
    else node.children
  }

  /** Where the walk goes from a node, and under which scope. */
  function Next(lang: Language, node: Node): (r: seq<Node>)
    ensures SizeAll(r) < Size(node)
  {
    match DescentOf(lang, node)
    case Nothing => []
    case SameScope | IntoNamespace => node.children
    case IntoClass => ClassMembers(node)
  }

  function NextScope(lang: Language, node: Node, scope: Scope): Scope {
    match DescentOf(lang, node)
    case Nothing | SameScope => scope
    case IntoNamespace | IntoClass => InnerScope(lang, node, scope)
  }

  /** The recursive descent: every visit with the scope it happens under, in order. */
  ghost function Visits(lang: Language, node: Node, scope: Scope): seq<Frame>
    decreases Size(node), 1
  {
    [Frame(node, scope)] + VisitsAll(lang, Next(lang, node), NextScope(lang, node, scope))
  }

  ghost function VisitsAll(lang: Language, nodes: seq<Node>, scope: Scope): seq<Frame>
    decreases SizeAll(nodes), 2
  {
    if nodes == [] then [] else Visits(lang, nodes[0], scope) + VisitsAll(lang, nodes[1..], scope)
  }

  lemma {:induction false} VisitsAllSum(lang: Language, a: seq<Node>, b: seq<Node>, scope: Scope)
    ensures VisitsAll(lang, a + b, scope) == VisitsAll(lang, a, scope) + VisitsAll(lang, b, scope)
    decreases |a|
  {
    hide Visits;
    if a == [] {
      assert a + b == b;
    } else {
      assert (a + b)[1..] == a[1..] + b;
      VisitsAllSum(lang, a[1..], b, scope);
    }
  }

  // ---- What is still to be visited ----

  /** The visits a stack (top last) still stands for. */
  ghost function Pending(lang: Language, frames: seq<Frame>): seq<Frame> {
    if frames == [] then []
    else
      var top := frames[|frames| - 1];
      Visits(lang, top.node, top.scope) + Pending(lang, frames[..|frames| - 1])
  }

  function Weight(frames: seq<Frame>): (w: nat)
    ensures |frames| <= w
  {
    if frames == [] then 0 else Size(frames[|frames| - 1].node) + Weight(frames[..|frames| - 1])
  }

  lemma PendingPush(lang: Language, frames: seq<Frame>, f: Frame)
    ensures Pending(lang, frames + [f]) == Visits(lang, f.node, f.scope) + Pending(lang, frames)
    ensures Weight(frames + [f]) == Weight(frames) + Size(f.node)
  {
    hide Visits;
    assert (frames + [f])[..|frames|] == frames;
  }

  // ---- How high the stack gets ----

  function Max(a: int, b: int): int { if a < b then b else a }

  /** The largest number of frames on the stack from the moment a node is the only one until all that it
      leads to is done, if nothing is dropped. */
  function Peak(lang: Language, node: Node): (h: int)
    ensures h >= 1
    decreases Size(node), 1
  {
    Max(1, PeakAll(lang, Next(lang, node)))
  }

  /** The same for several nodes, the first on top. */
  function PeakAll(lang: Language, nodes: seq<Node>): (h: int)
    ensures h >= |nodes|
    decreases SizeAll(nodes), 2
  {
    if nodes == [] then 0 else Max(Peak(lang, nodes[0]) + |nodes| - 1, PeakAll(lang, nodes[1..]))
  }

  /** The largest number of frames from now on. */
  ghost function Height(lang: Language, frames: seq<Frame>): int {
    if frames == [] then 0
    else
      var top := frames[|frames| - 1];
      Max(Height(lang, frames[..|frames| - 1]), |frames| - 1 + Peak(lang, top.node))
  }

  lemma HeightPush(lang: Language, frames: seq<Frame>, f: Frame)
    ensures Height(lang, frames + [f]) == Max(Height(lang, frames), |frames| + Peak(lang, f.node))
  {
    hide *;
    LastOfAppend(frames, f);
    HeightTop(lang, frames + [f], frames, f);
  }

  lemma LastOfAppend<T>(s: seq<T>, x: T)
    ensures var all := s + [x];
            |all| == |s| + 1 && all[..|all| - 1] == s && all[|all| - 1] == x
  {}

  lemma HeightTop(lang: Language, frames: seq<Frame>, below: seq<Frame>, top: Frame)
    requires frames != [] && frames[..|frames| - 1] == below && frames[|frames| - 1] == top
    ensures Height(lang, frames) == Max(Height(lang, below), |below| + Peak(lang, top.node))
  {
    hide Peak;
  }

  lemma PeakAllPush(lang: Language, node: Node, nodes: seq<Node>)
    ensures PeakAll(lang, [node] + nodes) == Max(Peak(lang, node) + |nodes|, PeakAll(lang, nodes))
  {
    hide Peak;
    assert ([node] + nodes)[1..] == nodes;
  }

  /** It is never more than the number of nodes. */
  lemma {:induction false} PeakAtMostSize(lang: Language, node: Node)
    ensures Peak(lang, node) <= Size(node)
    decreases Size(node), 1
  {
    hide Next;
    PeakAllAtMostSize(lang, Next(lang, node));
  }

  lemma {:induction false} PeakAllAtMostSize(lang: Language, nodes: seq<Node>)
    ensures PeakAll(lang, nodes) <= SizeAll(nodes)
    decreases SizeAll(nodes), 2
  {
    hide Peak, Size;
    if nodes != [] {
      PeakAtMostSize(lang, nodes[0]);
      PeakAllAtMostSize(lang, nodes[1..]);
      SizeAtLeastLength(nodes[1..]);
    }
  }

  lemma {:induction false} SizeAtLeastLength(nodes: seq<Node>)
    ensures |nodes| <= SizeAll(nodes)
  {
    if nodes != [] { SizeAtLeastLength(nodes[1..]); }
  }

  /** `a` is `b` with some entries left out. */
  ghost predicate PartOf<T(!new)>(a: seq<T>, b: seq<T>) {
    if a == [] then true
    else b != [] && ((a[0] == b[0] && PartOf(a[1..], b[1..])) || PartOf(a, b[1..]))
  }

  lemma {:induction false} PartOfSelf<T(!new)>(a: seq<T>)
    ensures PartOf(a, a)
  {
    if a != [] { PartOfSelf(a[1..]); }
  }

  lemma {:induction false} PartOfBehind<T(!new)>(a: seq<T>, x: seq<T>, b: seq<T>)
    requires PartOf(a, b)
    ensures PartOf(a, x + b)
  {
    if x == [] {
      assert x + b == b;
    } else {
      PartOfBehind(a, x[1..], b);
      assert (x + b)[1..] == x[1..] + b;
    }
  }

  lemma {:induction false} PartOfPrepend<T(!new)>(x: seq<T>, a: seq<T>, b: seq<T>)
    requires PartOf(a, b)
    ensures PartOf(x + a, x + b)
  {
    if x == [] {
      assert x + a == a && x + b == b;
    } else {
      PartOfPrepend(x[1..], a, b);
      assert (x + a)[1..] == x[1..] + a && (x + b)[1..] == x[1..] + b;
    }
  }

  lemma {:induction false} PartOfTrans<T(!new)>(a: seq<T>, b: seq<T>, c: seq<T>)
    requires PartOf(a, b) && PartOf(b, c)
    ensures PartOf(a, c)
    decreases |c|
  {
    if a != [] && b != [] {
      if PartOf(b, c[1..]) {
        PartOfTrans(a, b, c[1..]);
      } else if a[0] == b[0] && PartOf(a[1..], b[1..]) {
        PartOfTrans(a[1..], b[1..], c[1..]);
      } else {
        PartOfTrans(a, b[1..], c[1..]);
      }
    }
  }

  // ---- The stack ----

  const FIRST_CAP: nat := 256

  /** The largest capacity the doubling can reach under the ceiling. */
  function Largest(cap: nat, max: nat): (c: nat)
    requires 0 < cap <= max
    ensures cap <= c <= max < 2 * c
    decreases max - cap
  {
    if 2 * cap > max then cap else Largest(2 * cap, max)
  }

  function MaxFrames(max: nat): (c: nat)
    ensures c <= max
  {
    if max < FIRST_CAP then 0 else Largest(FIRST_CAP, max)
  }

  class WalkStack {
    var data: array<Frame>
    var top: nat
    var warned: bool
    const max: nat

    ghost predicate Valid()
      reads this
    {
      && top <= data.Length <= max
      && (data.Length != 0 ==>
            FIRST_CAP <= data.Length && Largest(FIRST_CAP, max) == Largest(data.Length, max))
    }

    ghost function Frames(): seq<Frame>
      requires Valid()
      reads this, data
    {
      data[..top]
    }

    constructor (max: nat)
      ensures Valid() && Frames() == [] && !warned && this.max == max && fresh(data)
    {
      this.max := max;
      data := new Frame[0];
      top, warned := 0, false;
    }

    /** The buffer is still `before`, or a new one. */
    twostate predicate Kept(before: array<Frame>)
      reads this
    {
      data == before || fresh(data)
    }

    /** `wd_push`: dropped, with a warning, exactly when the stack holds as many frames as the
        doubling can ever make room for. */
    method Push(node: Node, scope: Scope)
      requires Valid()
      modifies this, data
      ensures Valid() && Kept(old(data))
      ensures old(top) < MaxFrames(max) ==> Frames() == old(Frames()) + [Frame(node, scope)] && warned == old(warned)
      ensures old(top) >= MaxFrames(max) ==> Frames() == old(Frames()) && warned
    {
      if top >= data.Length {
        var ncap := if data.Length != 0 then data.Length * 2 else FIRST_CAP;
        if ncap > max {
          warned := true;
          return;
        }
        var before := data;
        data := new Frame[ncap](i requires 0 <= i reads before =>
          if i < before.Length then before[i] else Frame(node, scope));
        assert data[..top] == before[..top];
      }
      data[top] := Frame(node, scope);
      top := top + 1;
    }

    method Pop() returns (f: Frame)
      requires Valid() && top > 0
      modifies this`top
      ensures Valid() && Frames() == old(Frames())[..old(top) - 1] && f == old(Frames())[old(top) - 1]
    {
      top := top - 1;
      f := data[top];
    }
  }

  // ---- Pushing many nodes ----

  /** From `before` to `after` the stack has come to stand for `nodes` as well, ahead of the rest:
      for all of them if nothing was dropped, and in any case for nothing else. */
  ghost predicate Grew(lang: Language, max: nat, nodes: seq<Node>, scope: Scope,
                       before: seq<Frame>, warned0: bool, after: seq<Frame>, warned: bool)
  {
    && PartOf(Pending(lang, after), VisitsAll(lang, nodes, scope) + Pending(lang, before))
    && (!warned ==> Pending(lang, after) == VisitsAll(lang, nodes, scope) + Pending(lang, before))
    && Weight(after) <= Weight(before) + SizeAll(nodes) && (warned0 ==> warned)
    && Rose(lang, max, nodes, before, warned0, after, warned)
  }

  /** From `before` to `after` as many frames have come as there are nodes, unless the ceiling was met,
      and then it would have been met without it too. */
  ghost predicate Rose(lang: Language, max: nat, nodes: seq<Node>, before: seq<Frame>, warned0: bool,
                       after: seq<Frame>, warned: bool)
  {
    && (|before| <= MaxFrames(max) ==> |after| <= MaxFrames(max))
    && (!warned ==> |after| == |before| + |nodes|
                    && Height(lang, after) == Max(Height(lang, before), |before| + PeakAll(lang, nodes)))
    && (warned && !warned0 ==> |before| + PeakAll(lang, nodes) > MaxFrames(max))
  }

  lemma RosePush(lang: Language, max: nat, node: Node, nodes: seq<Node>, before: seq<Frame>, warned0: bool,
                 frames: seq<Frame>, warned1: bool, scope: Scope, after: seq<Frame>, warned: bool)
    requires Rose(lang, max, nodes, before, warned0, frames, warned1) && (warned0 ==> warned1)
    requires |frames| < MaxFrames(max) ==> after == frames + [Frame(node, scope)] && warned == warned1
    requires |frames| >= MaxFrames(max) ==> after == frames && warned
    ensures Rose(lang, max, [node] + nodes, before, warned0, after, warned)
  {
    hide Peak, PeakAll, Height, MaxFrames;
    HeightPush(lang, frames, Frame(node, scope));
    PeakAllPush(lang, node, nodes);
  }

  lemma GrewNothing(lang: Language, max: nat, scope: Scope, frames: seq<Frame>, warned: bool)
    ensures Grew(lang, max, [], scope, frames, warned, frames, warned)
  {
    assert [] + Pending(lang, frames) == Pending(lang, frames);
    PartOfSelf(Pending(lang, frames));
  }

  lemma GrewPush(lang: Language, max: nat, node: Node, nodes: seq<Node>, scope: Scope, before: seq<Frame>,
                 warned0: bool, frames: seq<Frame>, warned1: bool, after: seq<Frame>, warned: bool)
    requires Grew(lang, max, nodes, scope, before, warned0, frames, warned1)
    requires |frames| < MaxFrames(max) ==> after == frames + [Frame(node, scope)] && warned == warned1
    requires |frames| >= MaxFrames(max) ==> after == frames && warned
    ensures Grew(lang, max, [node] + nodes, scope, before, warned0, after, warned)
  {
    hide Visits, PartOf, Pending, Weight, Size, MaxFrames, Rose;
    RosePush(lang, max, node, nodes, before, warned0, frames, warned1, scope, after, warned);
    var rest := VisitsAll(lang, nodes, scope) + Pending(lang, before);
    assert ([node] + nodes)[1..] == nodes;
    assert VisitsAll(lang, [node] + nodes, scope) + Pending(lang, before) == Visits(lang, node, scope) + rest;
    if |frames| < MaxFrames(max) {
      PendingPush(lang, frames, Frame(node, scope));
      PartOfPrepend(Visits(lang, node, scope), Pending(lang, frames), rest);
    } else {
      PartOfBehind(Pending(lang, frames), Visits(lang, node, scope), rest);
    }
  }

  /** Whether malloc answers the request for a node's child buffer. */
  type Memory = Node -> bool

  /** `wd_collect_children`: a cursor pass over wide nodes; None means "use indexed access". */
  method CollectChildren(node: Node, memory: Memory) returns (kids: Option<seq<Node>>)
    ensures kids == if |node.children| >= 64 && memory(node) then Some(node.children) else None
  {
    var cc := |node.children|;
    if cc < CURSOR_MIN_CHILDREN {
      return None;
    }
    if !memory(node) {
      return None;  // malloc failed
    }
    var buf: seq<Node> := [];
    var cursor := 0;
    while |buf| < cc && cursor < |node.children|
      invariant cursor == |buf| <= cc && buf == node.children[..cursor]
    {
      buf := buf + [node.children[cursor]];
      cursor := cursor + 1;
    }
    assert node.children[..cc] == node.children;
    return if |buf| != cc then None else Some(buf);
  }

  const CURSOR_MIN_CHILDREN: nat := 64

  /** A push of `node` ahead of the `nodes` already pushed. */
  method PushAhead(s: WalkStack, node: Node, scope: Scope, ghost lang: Language, ghost nodes: seq<Node>,
                   ghost before: seq<Frame>, ghost warned0: bool)
    requires s.Valid() && Grew(lang, s.max, nodes, scope, before, warned0, s.Frames(), s.warned)
    modifies s, s.data
    ensures s.Valid() && s.Kept(old(s.data))
    ensures Grew(lang, s.max, [node] + nodes, scope, before, warned0, s.Frames(), s.warned)
  {
    hide Grew;
    ghost var frames, warned := s.Frames(), s.warned;
    s.Push(node, scope);
    GrewPush(lang, s.max, node, nodes, scope, before, warned0, frames, warned, s.Frames(), s.warned);
  }

  /** `wd_push_children_reverse`: the same frames whichever way the children are enumerated. */
  method PushChildrenReverse(s: WalkStack, node: Node, scope: Scope, memory: Memory, ghost lang: Language)
    requires s.Valid()
    modifies s, s.data
    ensures s.Valid() && s.Kept(old(s.data))
    ensures Grew(lang, s.max, node.children, scope, old(s.Frames()), old(s.warned), s.Frames(), s.warned)
  {
    hide Grew;
    GrewNothing(lang, s.max, scope, s.Frames(), s.warned);
    var cc := |node.children|;
    var kids := CollectChildren(node, memory);
    assert node.children[cc..] == [];
    for i := cc downto 0
      invariant s.Valid() && s.Kept(old(s.data))
      invariant kids.Some? ==> kids.value == node.children
      invariant Grew(lang, s.max, node.children[i..], scope, old(s.Frames()), old(s.warned), s.Frames(), s.warned)
    {
      PushAhead(s, if kids.Some? then kids.value[i] else node.children[i], scope, lang, node.children[i + 1..],
                old(s.Frames()), old(s.warned));
      assert node.children[i..] == [node.children[i]] + node.children[i + 1..];
    }
    assert node.children[0..] == node.children;
  }

  /** The classes still to be found below a stack (top last) of class bodies and wrappers. */
  ghost function NestedBelow(nodes: seq<Node>): seq<Node> {
    if nodes == [] then [] else NestedBelow(nodes[..|nodes| - 1]) + NestedClasses(nodes[|nodes| - 1])
  }

  lemma NestedBelowNothing()
    ensures NestedBelow([]) == []
  {}

  lemma NestedBelowPush(nodes: seq<Node>, n: Node)
    ensures NestedBelow(nodes + [n]) == NestedBelow(nodes) + NestedClasses(n)
  {
    assert (nodes + [n])[..|nodes|] == nodes;
  }

  lemma SizeAllPush(nodes: seq<Node>, n: Node)
    ensures SizeAll(nodes + [n]) == SizeAll(nodes) + Size(n)
  {
    SizeAllSum(nodes, [n]);
  }

  /** `push_nested_class_nodes`. */
  method PushNestedClassNodes(body: Node, s: WalkStack, scope: Scope, memory: Memory, ghost lang: Language)
    requires s.Valid()
    modifies s, s.data
    ensures s.Valid() && s.Kept(old(s.data))
    ensures Grew(lang, s.max, NestedClasses(body), scope, old(s.Frames()), old(s.warned), s.Frames(), s.warned)
  {
    hide Grew, NestedClasses, SizeAll, NestedBelow;
    var nested: seq<Node> := [body];
    ghost var done: seq<Node> := [];
    StartNested(body);
    GrewNothing(lang, s.max, scope, s.Frames(), s.warned);
    while nested != []
      invariant s.Valid() && s.Kept(old(s.data))
      invariant NestedBelow(nested) + done == NestedClasses(body)
      invariant Grew(lang, s.max, done, scope, old(s.Frames()), old(s.warned), s.Frames(), s.warned)
      decreases SizeAll(nested)
    {
      var cur := nested[|nested| - 1];
      assert nested == nested[..|nested| - 1] + [cur];
      nested := nested[..|nested| - 1];
      NestedBelowPush(nested, cur);
      nested, done := PushBodyChildren(cur, s, scope, memory, nested, done, old(s.Frames()), old(s.warned), lang);
    }
    NestedBelowNothing();
    assert [] + done == done;
  }

  lemma StartNested(body: Node)
    ensures NestedBelow([body]) + [] == NestedClasses(body)
  {
    NestedBelowPush([], body);
    assert [] + [body] == [body];
  }

  lemma NestedParts(node: Node)
    ensures NestedClasses(node) == Wrapped(node.children) + Direct(node.children)
  {}

  lemma ChildSteps(nodes: seq<Node>)
    ensures nodes == [] ==> Direct(nodes) == [] && Wrapped(nodes) == [] && SizeAll(nodes) == 0
    ensures nodes != [] ==>
              && Direct(nodes) == (if nodes[0].isClass then [nodes[0]] + Direct(nodes[1..]) else Direct(nodes[1..]))
              && Wrapped(nodes) == (if IsWrapped(nodes[0]) then Wrapped(nodes[1..]) + NestedClasses(nodes[0])
                                    else Wrapped(nodes[1..]))
              && SizeAll(nodes) == Size(nodes[0]) + SizeAll(nodes[1..])
  {
    hide NestedClasses;
  }

  /** One pass over the children of a body or wrapper, last child first. */
  method PushBodyChildren(cur: Node, s: WalkStack, scope: Scope, memory: Memory, nested0: seq<Node>,
                          ghost done0: seq<Node>, ghost before: seq<Frame>, ghost warned0: bool, ghost lang: Language)
      returns (nested: seq<Node>, ghost done: seq<Node>)
    requires s.Valid() && Grew(lang, s.max, done0, scope, before, warned0, s.Frames(), s.warned)
    modifies s, s.data
    ensures s.Valid() && s.Kept(old(s.data))
    ensures Grew(lang, s.max, done, scope, before, warned0, s.Frames(), s.warned)
    ensures NestedBelow(nested) + done == NestedBelow(nested0) + NestedClasses(cur) + done0
    ensures SizeAll(nested) < SizeAll(nested0 + [cur])
  {
    hide Grew, Pass;
    nested, done := nested0, done0;
    var nc := |cur.children|;
    var kids := CollectChildren(cur, memory);
    PassStart(cur.children, nested0, done0);
    for i := nc downto 0
      invariant s.Valid() && s.Kept(old(s.data))
      invariant kids.Some? ==> kids.value == cur.children
      invariant Grew(lang, s.max, done, scope, before, warned0, s.Frames(), s.warned)
      invariant Pass(cur.children, i, nested0, nested, done0, done)
    {
      var child := if kids.Some? then kids.value[i] else cur.children[i];
      PassStep(cur.children, i, nested0, nested, done0, done);
      if child.isClass {
        PushAhead(s, child, scope, lang, done, before, warned0);
        done := [child] + done;
      } else if child.isWrapper {
        nested := nested + [child];
      }
    }
    PassEnd(cur, nested0, nested, done0, done);
  }

  /** The children from `i` on have been handled: their classes are pushed, their wrappers wait. */
  ghost predicate Pass(children: seq<Node>, i: nat, nested0: seq<Node>, nested: seq<Node>,
                       done0: seq<Node>, done: seq<Node>)
  {
    && i <= |children|
    && NestedBelow(nested) == NestedBelow(nested0) + Wrapped(children[i..])
    && done == Direct(children[i..]) + done0
    && SizeAll(nested) <= SizeAll(nested0) + SizeAll(children[i..])
  }

  lemma PassStart(children: seq<Node>, nested: seq<Node>, done: seq<Node>)
    ensures Pass(children, |children|, nested, nested, done, done)
  {
    ChildSteps([]);
    assert children[|children|..] == [];
    hide Wrapped, Direct, SizeAll;
    assert NestedBelow(nested) + [] == NestedBelow(nested) && [] + done == done;
  }

  lemma PassStep(children: seq<Node>, i: nat, nested0: seq<Node>, nested: seq<Node>,
                 done0: seq<Node>, done: seq<Node>)
    requires i < |children| && Pass(children, i + 1, nested0, nested, done0, done)
    ensures var child := children[i];
            if child.isClass then Pass(children, i, nested0, nested, done0, [child] + done)
            else if child.isWrapper then Pass(children, i, nested0, nested + [child], done0, done)
            else Pass(children, i, nested0, nested, done0, done)
  {
    hide Wrapped, Direct, SizeAll, Size, NestedBelow, NestedClasses;
    var child, rest := children[i], children[i + 1..];
    assert children[i..][1..] == rest;
    ChildSteps(children[i..]);
    if child.isClass {
      assert [child] + done == [child] + Direct(rest) + done0;
    } else if child.isWrapper {
      NestedBelowPush(nested, child);
      SizeAllPush(nested, child);
      assert NestedBelow(nested) + NestedClasses(child)
             == NestedBelow(nested0) + (Wrapped(rest) + NestedClasses(child));
    }
  }

  lemma PassEnd(cur: Node, nested0: seq<Node>, nested: seq<Node>, done0: seq<Node>, done: seq<Node>)
    requires Pass(cur.children, 0, nested0, nested, done0, done)
    ensures NestedBelow(nested) + done == NestedBelow(nested0) + NestedClasses(cur) + done0
    ensures SizeAll(nested) < SizeAll(nested0 + [cur])
  {
    hide Wrapped, Direct, SizeAll, NestedBelow, NestedClasses;
    SizeAllPush(nested0, cur);
    assert cur.children[0..] == cur.children;
    NestedParts(cur);
    Regroup(NestedBelow(nested0), Wrapped(cur.children), Direct(cur.children), done0);
  }

  lemma Regroup(a: seq<Node>, b: seq<Node>, c: seq<Node>, d: seq<Node>)
    ensures a + b + (c + d) == a + (b + c) + d
  {}

  /** `push_class_body_children`: through the first body container, or straight to all children. */
  method PushClassBodyChildren(node: Node, s: WalkStack, scope: Scope, memory: Memory, ghost lang: Language)
    requires s.Valid()
    modifies s, s.data
    ensures s.Valid() && s.Kept(old(s.data))
    ensures Grew(lang, s.max, ClassMembers(node), scope, old(s.Frames()), old(s.warned), s.Frames(), s.warned)
  {
    hide Grew, NestedClasses;
    var nc := |node.children|;
    for ci := 0 to nc
      invariant s.Valid() && s.data == old(s.data) && s.Frames() == old(s.Frames()) && s.warned == old(s.warned)
      invariant forall k :: 0 <= k < ci ==> !node.children[k].isBody
    {
      if node.children[ci].isBody {
        BodyIndexIs(node.children, ci);
        PushNestedClassNodes(node.children[ci], s, scope, memory, lang);
        return;
      }
    }
    BodyIndexIs(node.children, nc);
    GrewNothing(lang, s.max, scope, s.Frames(), s.warned);
    assert node.children[nc..] == [];
    for ci := nc downto 0
      invariant s.Valid() && s.Kept(old(s.data))
      invariant Grew(lang, s.max, node.children[ci..], scope, old(s.Frames()), old(s.warned), s.Frames(), s.warned)
    {
      PushAhead(s, node.children[ci], scope, lang, node.children[ci + 1..], old(s.Frames()), old(s.warned));
      assert node.children[ci..] == [node.children[ci]] + node.children[ci + 1..];
    }
    assert node.children[0..] == node.children;
  }

  lemma BodyIndexIs(nodes: seq<Node>, i: nat)
    requires i <= |nodes| && (i < |nodes| ==> nodes[i].isBody)
    requires forall k :: 0 <= k < i ==> !nodes[k].isBody
    ensures BodyIndex(nodes) == i
  {}

  /** `walk_defs`. However children are enumerated, below the frame ceiling the log is exactly the
      recursive descent; at the ceiling the walk warns, and what it still visits it visits under the right
      scope and in the right order.
      The ceiling is met exactly when the descent piles up more frames than the largest stack holds. */
  method WalkDefs(lang: Language, root: Node, scope: Scope, max: nat, memory: Memory)
      returns (log: seq<Frame>, warned: bool)
    ensures warned <==> Peak(lang, root) > MaxFrames(max)
    ensures !warned ==> log == Visits(lang, root, scope)
    ensures PartOf(log, Visits(lang, root, scope))
    ensures Size(root) <= MaxFrames(max) ==> !warned
  {
    PeakAtMostSize(lang, root);
    hide Grew, Visits, Size, PartOf, Peak, MaxFrames, Walking, Next, NextScope, InnerScope, Weight;
    var s := new WalkStack(max);
    log := [];
    GrewNothing(lang, max, scope, [], false);
    s.Push(root, scope);
    GrewPush(lang, max, root, [], scope, [], false, [], false, s.Frames(), s.warned);
    assert [root] + [] == [root];
    StartWalk(lang, max, root, scope, s.Frames(), s.warned);
    while s.top > 0
      invariant s.Valid() && s.max == max && fresh(s) && fresh(s.data)
      invariant Walking(lang, max, root, scope, log, s.Frames(), s.warned)
      decreases Weight(s.Frames())
    {
      log := VisitTop(s, lang, root, scope, log, memory);
    }
    warned := s.warned;
    EndWalk(lang, max, root, scope, log, s.Frames(), warned);
  }

  /** One turn of the loop. */
  method VisitTop(s: WalkStack, lang: Language, ghost root: Node, ghost scope: Scope, log0: seq<Frame>, memory: Memory)
      returns (log: seq<Frame>)
    requires s.Valid() && s.top > 0 && Walking(lang, s.max, root, scope, log0, s.Frames(), s.warned)
    modifies s, s.data
    ensures s.Valid() && s.Kept(old(s.data)) && Walking(lang, s.max, root, scope, log, s.Frames(), s.warned)
    ensures Weight(s.Frames()) < old(Weight(s.Frames()))
  {
    hide Grew, Walking, Next, NextScope, Weight;
    ghost var frames, warned0 := s.Frames(), s.warned;
    var frame := s.Pop();
    ghost var below := s.Frames();
    assert frames == below + [frame];
    log := log0 + [frame];
    PushBelow(s, frame.node, frame.scope, memory, lang);
    WalkStep(lang, s.max, root, scope, log0, below, warned0, frame, s.Frames(), s.warned);
  }

  /** The branches of the walk: what is pushed for a node. */
  method PushBelow(s: WalkStack, node: Node, scope: Scope, memory: Memory, lang: Language)
    requires s.Valid()
    modifies s, s.data
    ensures s.Valid() && s.Kept(old(s.data))
    ensures Grew(lang, s.max, Next(lang, node), NextScope(lang, node, scope), old(s.Frames()), old(s.warned),
                 s.Frames(), s.warned)
  {
    hide Grew, Next, NextScope, InnerScope;
    NextIs(lang, node, scope);
    if node.special.HandledWhole? {
      GrewNothing(lang, s.max, NextScope(lang, node, scope), s.Frames(), s.warned);
      return;
    }
    if node.special.HandledThenChildren? {
      PushChildrenReverse(s, node, scope, memory, lang);
      return;
    }
    if node.isFunction {
      if !node.isTemplateClass {
        if !lang.searchFunctions {
          GrewNothing(lang, s.max, NextScope(lang, node, scope), s.Frames(), s.warned);
          return;
        }
      }
    }
    if node.isRustImpl {
      GrewNothing(lang, s.max, NextScope(lang, node, scope), s.Frames(), s.warned);
      return;
    }
    if node.isNamespace {
      PushChildrenReverse(s, node, InnerScope(lang, node, scope), memory, lang);
      return;
    }
    if node.isClass {
      PushClassBodyChildren(node, s, InnerScope(lang, node, scope), memory, lang);
      return;
    }
    PushChildrenReverse(s, node, scope, memory, lang);
  }

  lemma NextIs(lang: Language, node: Node, scope: Scope)
    ensures match DescentOf(lang, node)
            case Nothing => Next(lang, node) == []
            case SameScope => Next(lang, node) == node.children && NextScope(lang, node, scope) == scope
            case IntoNamespace =>
              Next(lang, node) == node.children && NextScope(lang, node, scope) == InnerScope(lang, node, scope)
            case IntoClass =>
              Next(lang, node) == ClassMembers(node) && NextScope(lang, node, scope) == InnerScope(lang, node, scope)
  {
    hide InnerScope, ClassMembers;
  }

  /** The log so far and the stack together make up the descent. */
  ghost predicate Walking(lang: Language, max: nat, root: Node, scope: Scope,
                          log: seq<Frame>, frames: seq<Frame>, warned: bool)
  {
    && PartOf(log + Pending(lang, frames), Visits(lang, root, scope))
    && (!warned ==> log + Pending(lang, frames) == Visits(lang, root, scope))
    && HeightSoFar(lang, max, root, frames, warned)
  }

  /** Whether the ceiling has been met, or is still to be met, is known from the start. */
  ghost predicate HeightSoFar(lang: Language, max: nat, root: Node, frames: seq<Frame>, warned: bool) {
    if warned then Peak(lang, root) > MaxFrames(max)
    else
      && |frames| <= MaxFrames(max)
      && (Height(lang, frames) > MaxFrames(max) <==> Peak(lang, root) > MaxFrames(max))
  }

  lemma HeightStart(lang: Language, max: nat, root: Node, frames: seq<Frame>, warned: bool)
    requires Rose(lang, max, [root], [], false, frames, warned)
    ensures HeightSoFar(lang, max, root, frames, warned)
  {
    hide Peak, MaxFrames;
    PeakAllPush(lang, root, []);
    assert [root] + [] == [root];
  }

  lemma HeightStep(lang: Language, max: nat, root: Node, below: seq<Frame>, warned0: bool, frame: Frame,
                   frames: seq<Frame>, warned: bool)
    requires HeightSoFar(lang, max, root, below + [frame], warned0)
    requires Rose(lang, max, Next(lang, frame.node), below, warned0, frames, warned) && (warned0 ==> warned)
    ensures HeightSoFar(lang, max, root, frames, warned)
  {
    hide Height, PeakAll, MaxFrames, Next;
    HeightPush(lang, below, frame);
    PeakIs(lang, frame.node);
    hide Peak;
  }

  lemma PeakIs(lang: Language, node: Node)
    ensures Peak(lang, node) == Max(1, PeakAll(lang, Next(lang, node)))
  {
    hide Next;
  }

  lemma StartWalk(lang: Language, max: nat, root: Node, scope: Scope, frames: seq<Frame>, warned: bool)
    requires Grew(lang, max, [root], scope, [], false, frames, warned)
    ensures Walking(lang, max, root, scope, [], frames, warned)
  {
    hide Visits, PartOf, Size, Rose, HeightSoFar;
    HeightStart(lang, max, root, frames, warned);
    assert VisitsAll(lang, [root], scope) + Pending(lang, []) == Visits(lang, root, scope);
    assert [] + Pending(lang, frames) == Pending(lang, frames);
  }

  lemma WalkStep(lang: Language, max: nat, root: Node, scope: Scope, log: seq<Frame>, below: seq<Frame>, warned0: bool,
                 frame: Frame, frames: seq<Frame>, warned: bool)
    requires Walking(lang, max, root, scope, log, below + [frame], warned0)
    requires Grew(lang, max, Next(lang, frame.node), NextScope(lang, frame.node, frame.scope),
                  below, warned0, frames, warned)
    ensures Walking(lang, max, root, scope, log + [frame], frames, warned)
    ensures Weight(frames) < Weight(below + [frame])
  {
    hide PartOf, Next, NextScope, Size, Visits, VisitsAll, Pending, Weight, MaxFrames, Rose, HeightSoFar;
    HeightStep(lang, max, root, below, warned0, frame, frames, warned);
    var more := VisitsAll(lang, Next(lang, frame.node), NextScope(lang, frame.node, frame.scope))
                + Pending(lang, below);
    PendingTop(lang, below, frame);
    PartStep(log, frame, more, Pending(lang, frames), Visits(lang, root, scope));
  }

  lemma PendingTop(lang: Language, below: seq<Frame>, frame: Frame)
    ensures Pending(lang, below + [frame])
            == [frame] + (VisitsAll(lang, Next(lang, frame.node), NextScope(lang, frame.node, frame.scope))
                          + Pending(lang, below))
    ensures Weight(below + [frame]) == Weight(below) + Size(frame.node)
    ensures SizeAll(Next(lang, frame.node)) < Size(frame.node)
  {
    hide Next, NextScope, Visits, VisitsAll, Pending, Weight, Size;
    PendingPush(lang, below, frame);
    VisitsStep(lang, frame);
  }

  lemma PartStep<T(!new)>(log: seq<T>, next: T, more: seq<T>, pending: seq<T>, full: seq<T>)
    requires PartOf(log + ([next] + more), full) && PartOf(pending, more)
    ensures PartOf(log + [next] + pending, full)
    ensures pending == more ==> log + [next] + pending == log + ([next] + more)
  {
    hide PartOf;
    assert log + ([next] + more) == log + [next] + more;
    PartOfPrepend(log + [next], pending, more);
    PartOfTrans(log + [next] + pending, log + [next] + more, full);
  }

  lemma VisitsStep(lang: Language, frame: Frame)
    ensures Visits(lang, frame.node, frame.scope)
            == [frame] + VisitsAll(lang, Next(lang, frame.node), NextScope(lang, frame.node, frame.scope))
    ensures SizeAll(Next(lang, frame.node)) < Size(frame.node)
  {
    hide Next, NextScope;
  }

  lemma EndWalk(lang: Language, max: nat, root: Node, scope: Scope, log: seq<Frame>, frames: seq<Frame>, warned: bool)
    requires Walking(lang, max, root, scope, log, frames, warned) && frames == []
    ensures warned <==> Peak(lang, root) > MaxFrames(max)
    ensures !warned ==> log == Visits(lang, root, scope)
    ensures PartOf(log, Visits(lang, root, scope))
  {
    hide Visits, PartOf, Peak, MaxFrames;
    assert log + [] == log;
  }

  // ---- What is visited below a node, and under which scope ----

  /** The walk gets past the tests for specially handled nodes, functions and Rust impl blocks. */
  predicate WalkedInto(lang: Language, node: Node) {
    node.special.Ordinary? && (!node.isFunction || node.isTemplateClass || lang.searchFunctions) && !node.isRustImpl
  }

  predicate Named(node: Node) { node.name.Some? && node.name.value != "" }

  /** Below a named namespace or class the scope is its own with a dot and the name, or what the language
      makes of a top-level name; below an unnamed one it stays. */
  lemma ScopeBelow(lang: Language, node: Node, scope: Scope)
    requires WalkedInto(lang, node) && (node.isNamespace || node.isClass)
    ensures var below := if node.isNamespace then node.children else ClassMembers(node);
            var inner := if node.name.None? || node.name == Some("") then scope
                         else match scope
                           case None => Some(lang.topLevel(node.name.value))
                           case Some(o) => Some(o + "." + node.name.value);
            Visits(lang, node, scope) == [Frame(node, scope)] + VisitsAll(lang, below, inner)
  {
    hide ClassMembers;
  }

  /** Everything else the walk does with a node. */
  lemma BelowOthers(lang: Language, node: Node, scope: Scope)
    ensures node.special.HandledWhole? ==> Visits(lang, node, scope) == [Frame(node, scope)]
    ensures node.special.HandledThenChildren? ==>
              Visits(lang, node, scope) == [Frame(node, scope)] + VisitsAll(lang, node.children, scope)
    ensures node.special.Ordinary? && node.isFunction && !node.isTemplateClass && !lang.searchFunctions ==>
              Visits(lang, node, scope) == [Frame(node, scope)]
    ensures node.special.Ordinary? && node.isRustImpl ==> Visits(lang, node, scope) == [Frame(node, scope)]
    ensures WalkedInto(lang, node) && !node.isNamespace && !node.isClass ==>
              Visits(lang, node, scope) == [Frame(node, scope)] + VisitsAll(lang, node.children, scope)
  {}

  lemma {:induction false} VisitsAllHas(lang: Language, nodes: seq<Node>, node: Node, scope: Scope, f: Frame)
    requires node in nodes && f in Visits(lang, node, scope)
    ensures f in VisitsAll(lang, nodes, scope)
  {
    hide Visits;
    if nodes[0] != node { VisitsAllHas(lang, nodes[1..], node, scope, f); }
  }

  function Dotted(outer: string, names: seq<string>): string
    decreases |names|
  {
    if names == [] then outer else Dotted(outer + "." + names[0], names[1..])
  }

  /** Named namespaces and classes, each directly below the one before it, and a last node below them. */
  ghost predicate Chain(lang: Language, nodes: seq<Node>) {
    && nodes != []
    && forall i :: 0 <= i < |nodes| - 1 ==>
         && WalkedInto(lang, nodes[i]) && Named(nodes[i])
         && (nodes[i].isNamespace || nodes[i].isClass)
         && nodes[i + 1] in (if nodes[i].isNamespace then nodes[i].children else ClassMembers(nodes[i]))
  }

  function NamesOf(nodes: seq<Node>): seq<string> {
    seq(|nodes|, i requires 0 <= i < |nodes| => if nodes[i].name.Some? then nodes[i].name.value else "")
  }

  /** At the end of such a chain the scope is the names joined by dots. */
  lemma {:induction false} ChainScope(lang: Language, nodes: seq<Node>, outer: string)
    requires Chain(lang, nodes)
    ensures Frame(nodes[|nodes| - 1], Some(Dotted(outer, NamesOf(nodes[..|nodes| - 1]))))
            in Visits(lang, nodes[0], Some(outer))
    decreases |nodes|
  {
    var last := |nodes| - 1;
    if last > 0 {
      var inner := outer + "." + nodes[0].name.value;
      assert NamesOf(nodes[..last])[0] == nodes[0].name.value;
      assert NamesOf(nodes[..last])[1..] == NamesOf(nodes[1..][..last - 1]);
      hide ClassMembers, Visits;
      ChainScope(lang, nodes[1..], inner);
      ScopeBelow(lang, nodes[0], Some(outer));
      ChainStep(lang, nodes, Some(outer), Some(inner),
                Frame(nodes[last], Some(Dotted(outer, NamesOf(nodes[..last])))));
    }
  }

  lemma ChainStep(lang: Language, nodes: seq<Node>, scope: Scope, inner: Scope, f: Frame)
    requires Chain(lang, nodes) && |nodes| > 1 && f in Visits(lang, nodes[1], inner)
    requires var below := if nodes[0].isNamespace then nodes[0].children else ClassMembers(nodes[0]);
             Visits(lang, nodes[0], scope) == [Frame(nodes[0], scope)] + VisitsAll(lang, below, inner)
    ensures f in Visits(lang, nodes[0], scope)
  {
    hide ClassMembers, Visits, VisitsAll;
    VisitsAllHas(lang, if nodes[0].isNamespace then nodes[0].children else ClassMembers(nodes[0]), nodes[1], inner, f);
  }

  /** At file level the first name is qualified as a top-level one. */
  lemma TopChainScope(lang: Language, nodes: seq<Node>)
    requires Chain(lang, nodes) && |nodes| > 1
    ensures Frame(nodes[|nodes| - 1],
                  Some(Dotted(lang.topLevel(nodes[0].name.value), NamesOf(nodes[1..|nodes| - 1]))))
            in Visits(lang, nodes[0], None)
  {
    var last, top := |nodes| - 1, lang.topLevel(nodes[0].name.value);
    hide ClassMembers, Visits;
    ChainScope(lang, nodes[1..], top);
    assert nodes[1..][..last - 1] == nodes[1..last];
    ScopeBelow(lang, nodes[0], None);
    ChainStep(lang, nodes, None, Some(top), Frame(nodes[last], Some(Dotted(top, NamesOf(nodes[1..last])))));
  }

  /** Two classes, a declaration around another, and a wrapper around a fourth: the wrapped classes come
      first, the last wrapper's before the others'. */
  lemma WrappedFirst(body: Node, a: Node, b: Node, c: Node, d: Node, v: Node, w: Node)
    requires a.isClass && b.isClass && c.isClass && d.isClass
    requires !v.isClass && v.isWrapper && v.children == [b] && !w.isClass && w.isWrapper && w.children == [d]
    requires body.children == [a, v, c, w]
    ensures NestedClasses(body) == [d, b, a, c]
  {
    NestedOne(v, b);
    NestedOne(w, d);
    hide NestedClasses, Wrapped, Direct;
    NestedParts(body);
    assert body.children == [a, v] + [c, w];
    ChildSteps([]);
    assert [c, w] + [] == [c, w];
    TwoChildren(c, w, []);
    hide SizeAll;
    TwoChildren(a, v, [c, w]);
    FourInOrder(a, b, c, d);
  }

  lemma FourInOrder<T>(a: T, b: T, c: T, d: T)
    ensures [] + [d] + [b] + ([a] + ([c] + [])) == [d, b, a, c]
  {}

  /** A class and a wrapper in front of other children. */
  lemma TwoChildren(c: Node, w: Node, rest: seq<Node>)
    requires c.isClass && IsWrapped(w)
    ensures Direct([c, w] + rest) == [c] + Direct(rest)
    ensures Wrapped([c, w] + rest) == Wrapped(rest) + NestedClasses(w)
  {
    hide NestedClasses, Wrapped, Direct;
    assert [c, w] + rest == [c] + ([w] + rest);
    ChildAhead(c, [w] + rest);
    ChildAhead(w, rest);
  }

  lemma ChildAhead(child: Node, rest: seq<Node>)
    ensures Direct([child] + rest) == if child.isClass then [child] + Direct(rest) else Direct(rest)
    ensures Wrapped([child] + rest) == if IsWrapped(child) then Wrapped(rest) + NestedClasses(child) else Wrapped(rest)
  {
    hide NestedClasses, Wrapped, Direct;
    ChildSteps([child] + rest);
    assert ([child] + rest)[1..] == rest;
  }

  lemma NestedOne(node: Node, child: Node)
    requires node.children == [child] && child.isClass
    ensures NestedClasses(node) == [child]
  {
    hide NestedClasses;
    NestedParts(node);
    ChildSteps([child]);
    ChildSteps([]);
    assert [child][1..] == [];
  }

  /** A class leads to the nested classes of its first body container. */
  lemma BodyLeads(node: Node, before: seq<Node>, body: Node, more: seq<Node>)
    requires node.children == before + [body] + more && body.isBody
    requires forall k :: 0 <= k < |before| ==> !before[k].isBody
    ensures ClassMembers(node) == NestedClasses(body)
  {
    hide NestedClasses;
    BodyIndexIs(node.children, |before|);
  }

  /** With the default ceiling of 8 M frames the stack can use all of them. */
  lemma DefaultCeiling()
    ensures MaxFrames(8 * 1024 * 1024) == 8 * 1024 * 1024
    ensures forall max :: 0 <= max < 256 ==> MaxFrames(max) == 0
  {
    assert PowerOfTwo(5) == 32;
    assert PowerOfTwo(10) == 1024;
    assert PowerOfTwo(15) == 32768;
    LargestReached(256, 15, 8 * 1024 * 1024);
  }

  function PowerOfTwo(k: nat): (n: nat)
    ensures n > 0
  {
    if k == 0 then 1 else 2 * PowerOfTwo(k - 1)
  }

  lemma {:induction false} LargestReached(cap: nat, k: nat, max: nat)
    requires 0 < cap && max == cap * PowerOfTwo(k)
    ensures cap <= max && Largest(cap, max) == max
    decreases k
  {
    if k > 0 {
      assert max == 2 * cap * PowerOfTwo(k - 1);
      LargestReached(2 * cap, k - 1, max);
    }
  }

  // ---- Nothing twice; plain trees in pre-order ----

  /** Every node of a tree, as often as it occurs. */
  ghost function Occurrences(node: Node): multiset<Node>
    decreases node, 1
  {
    multiset{node} + OccurrencesAll(node.children)
  }

  ghost function OccurrencesAll(nodes: seq<Node>): multiset<Node>
    decreases nodes, 0
  {
    if nodes == [] then multiset{} else Occurrences(nodes[0]) + OccurrencesAll(nodes[1..])
  }

  ghost function Visited(log: seq<Frame>): multiset<Node> {
    if log == [] then multiset{} else multiset{log[0].node} + Visited(log[1..])
  }

  lemma {:induction false} OccurrencesSum(a: seq<Node>, b: seq<Node>)
    ensures OccurrencesAll(a + b) == OccurrencesAll(a) + OccurrencesAll(b)
  {
    if a == [] {
      assert a + b == b;
    } else {
      assert (a + b)[1..] == a[1..] + b;
      OccurrencesSum(a[1..], b);
    }
  }

  lemma {:induction false} VisitedSum(a: seq<Frame>, b: seq<Frame>)
    ensures Visited(a + b) == Visited(a) + Visited(b)
  {
    if a == [] {
      assert a + b == b;
    } else {
      assert (a + b)[1..] == a[1..] + b;
      VisitedSum(a[1..], b);
    }
  }

  lemma {:induction false} NestedOccur(node: Node)
    ensures OccurrencesAll(NestedClasses(node)) <= OccurrencesAll(node.children)
    decreases node, 1
  {
    NestedParts(node);
    OccurrencesSum(Wrapped(node.children), Direct(node.children));
    WrappedOccur(node.children);
  }

  lemma OneOccurs(node: Node)
    ensures OccurrencesAll([node]) == Occurrences(node)
  {
    assert [node][1..] == [];
  }

  lemma OccurrencesStep(nodes: seq<Node>)
    requires nodes != []
    ensures OccurrencesAll(nodes) == Occurrences(nodes[0]) + OccurrencesAll(nodes[1..])
  {}

  lemma {:induction false} WrappedOccur(nodes: seq<Node>)
    ensures OccurrencesAll(Wrapped(nodes)) + OccurrencesAll(Direct(nodes)) <= OccurrencesAll(nodes)
    decreases nodes, 0
  {
    hide NestedClasses, Direct, Wrapped, OccurrencesAll, Occurrences;
    ChildSteps(nodes);
    NothingOccurs();
    if nodes != [] {
      WrappedOccur(nodes[1..]);
      OneOccurs(nodes[0]);
      OccurrencesStep(nodes);
      OccurrencesBelow(nodes[0]);
      if nodes[0].isClass {
        OccurrencesSum([nodes[0]], Direct(nodes[1..]));
      } else if nodes[0].isWrapper {
        NestedOccur(nodes[0]);
        OccurrencesSum(Wrapped(nodes[1..]), NestedClasses(nodes[0]));
      }
    }
  }

  lemma {:induction false} MemberOccurs(nodes: seq<Node>, i: nat)
    requires i < |nodes|
    ensures Occurrences(nodes[i]) <= OccurrencesAll(nodes)
  {
    if i > 0 { MemberOccurs(nodes[1..], i - 1); }
  }

  lemma NothingOccurs()
    ensures OccurrencesAll([]) == multiset{}
  {}

  lemma OccurrencesBelow(node: Node)
    ensures OccurrencesAll(node.children) <= Occurrences(node)
  {}

  lemma NextOccur(lang: Language, node: Node)
    ensures OccurrencesAll(Next(lang, node)) <= OccurrencesAll(node.children)
  {
    hide NestedClasses, DescentOf, OccurrencesAll;
    var b := BodyIndex(node.children);
    if b < |node.children| {
      NestedOccur(node.children[b]);
      MemberOccurs(node.children, b);
      OccurrencesBelow(node.children[b]);
    }
    NothingOccurs();
  }

  /** The descent visits no node more often than it occurs in the tree. */
  lemma {:induction false} NothingTwice(lang: Language, node: Node, scope: Scope)
    ensures Visited(Visits(lang, node, scope)) <= Occurrences(node)
    decreases Size(node), 1
  {
    var next, inner := Next(lang, node), NextScope(lang, node, scope);
    NextOccur(lang, node);
    NothingTwiceAll(lang, next, inner);
    VisitsStep(lang, Frame(node, scope));
    hide Visits, VisitsAll, Next, NextScope;
    VisitedSum([Frame(node, scope)], VisitsAll(lang, next, inner));
    assert Visited([Frame(node, scope)]) == multiset{node};
  }

  lemma {:induction false} NothingTwiceAll(lang: Language, nodes: seq<Node>, scope: Scope)
    ensures Visited(VisitsAll(lang, nodes, scope)) <= OccurrencesAll(nodes)
    decreases SizeAll(nodes), 2
  {
    hide Visits;
    if nodes != [] {
      NothingTwice(lang, nodes[0], scope);
      NothingTwiceAll(lang, nodes[1..], scope);
      VisitedSum(Visits(lang, nodes[0], scope), VisitsAll(lang, nodes[1..], scope));
    }
  }

  ghost function PreOrder(node: Node): seq<Node>
    decreases node, 1
  {
    [node] + PreOrderAll(node.children)
  }

  ghost function PreOrderAll(nodes: seq<Node>): seq<Node>
    decreases nodes, 0
  {
    if nodes == [] then [] else PreOrder(nodes[0]) + PreOrderAll(nodes[1..])
  }

  /** No function, class or specially handled node below: only plain nodes and namespaces. */
  ghost predicate PlainTree(lang: Language, node: Node)
    decreases node
  {
    && DescentOf(lang, node) in {SameScope, IntoNamespace}
    && forall i :: 0 <= i < |node.children| ==> PlainTree(lang, node.children[i])
  }

  function NodesOf(log: seq<Frame>): seq<Node> {
    seq(|log|, i requires 0 <= i < |log| => log[i].node)
  }

  /** Such a tree is visited completely, in source pre-order. */
  lemma {:induction false} PlainInPreOrder(lang: Language, node: Node, scope: Scope)
    requires PlainTree(lang, node)
    ensures NodesOf(Visits(lang, node, scope)) == PreOrder(node)
    decreases node, 1
  {
    PlainGoesDown(lang, node);
    hide Visits, VisitsAll, PreOrderAll, Next, NextScope, PlainTree, NodesOf;
    var inner := NextScope(lang, node, scope);
    PlainAllInPreOrder(lang, node.children, inner);
    VisitsStep(lang, Frame(node, scope));
    NodesOfSum([Frame(node, scope)], VisitsAll(lang, node.children, inner));
    NodesOfOne(Frame(node, scope));
  }

  lemma PlainGoesDown(lang: Language, node: Node)
    requires PlainTree(lang, node)
    ensures Next(lang, node) == node.children
    ensures forall i :: 0 <= i < |node.children| ==> PlainTree(lang, node.children[i])
  {}

  lemma NodesOfSum(a: seq<Frame>, b: seq<Frame>)
    ensures NodesOf(a + b) == NodesOf(a) + NodesOf(b)
  {}

  lemma NodesOfOne(f: Frame)
    ensures NodesOf([f]) == [f.node]
  {}

  lemma {:induction false} PlainAllInPreOrder(lang: Language, nodes: seq<Node>, scope: Scope)
    requires forall i :: 0 <= i < |nodes| ==> PlainTree(lang, nodes[i])
    ensures NodesOf(VisitsAll(lang, nodes, scope)) == PreOrderAll(nodes)
    decreases nodes, 0
  {
    hide Visits, PreOrder, PlainTree, NodesOf;
    if nodes == [] {
      NodesOfNothing();
    } else {
      PlainInPreOrder(lang, nodes[0], scope);
      PlainAllInPreOrder(lang, nodes[1..], scope);
      NodesOfSum(Visits(lang, nodes[0], scope), VisitsAll(lang, nodes[1..], scope));
    }
  }

  lemma NodesOfNothing()
    ensures NodesOf([]) == []
  {
  }
}
