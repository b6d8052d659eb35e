/** Call attribution in cbm.c: every call is charged to the innermost function or method around it,
    and recursion and loop facts are derived from the calls charged. */
module CallAttribution {
  import opened Basics

  datatype Definition = Definition(
    name: Option<string>,
    kind: Option<string>,
    startLine: int,
    endLine: int,
    receiver: Option<string>,
    isRecursive: bool,
    recursionInLoop: bool,
    unguardedRecursion: bool,
    linearScanInLoop: int,
    allocInLoop: int)

  datatype Call = Call(callee: Option<string>, startLine: int, loopDepth: int, branchDepth: int)

  const LINEAR_SCAN_NAMES: seq<string> := [
    "find", "indexof", "contains", "includes", "search", "lookup", "strstr", "strchr", "strrchr", "memchr",
    "find_if", "findindex", "count", "index"]
  const ALLOC_NAMES: seq<string> := [
    "malloc", "calloc", "realloc", "strdup", "strndup", "append", "push_back", "emplace_back", "concat",
    "strcat", "strncat", "push", "pushback"]
  const SELF_RECEIVERS: seq<string> := ["self", "this", "cls", "@self"]

  // ---- Names and receivers ----

  predicate NameIn(name: string, names: seq<string>) {
    exists i :: 0 <= i < |names| && SameIgnoringCase(name, names[i])
  }

  /** Position of the last dot, or -1. */
  function LastDot(s: string): (d: int)
    ensures -1 <= d < |s| && (d >= 0 ==> s[d] == '.')
    ensures forall i :: d < i < |s| ==> s[i] != '.'
  {
    if s == [] then -1 else if s[|s| - 1] == '.' then |s| - 1 else LastDot(s[..|s| - 1])
  }

  function ShortName(callee: string): string { callee[LastDot(callee) + 1..] }

  predicate IsIdentChar(c: char) {
    'a' <= c <= 'z' || 'A' <= c <= 'Z' || '0' <= c <= '9' || c == '_'
  }

  function IdentLength(s: string): (n: nat)
    ensures n <= |s| && forall i :: 0 <= i < n ==> IsIdentChar(s[i])
  {
    if s != [] && IsIdentChar(s[0]) then 1 + IdentLength(s[1..]) else 0
  }

  /** `receiver_ident`: the variable in "(s *Store)", or "" where the receiver is unnamed. */
  function ReceiverIdent(text: string): string {
    var p := SkipBlanks(if text != [] && text[0] == '(' then text[1..] else text);
    var n := IdentLength(p);
    var rest := SkipBlanks(p[n..]);
    if rest == [] || rest[0] == ')' then "" else p[..n]
  }

  /** `is_self_receiver`: a bare name, or a receiver chain that as a whole names the same object. */
  predicate IsSelfReceiver(callee: string, receiver: Option<string>) {
    callee != "" &&
    var d := LastDot(callee);
    || d < 0
    || callee[..d] in SELF_RECEIVERS
    || (receiver.Some? && ReceiverIdent(receiver.value) != "" && callee[..d] == ReceiverIdent(receiver.value))
  }

  // ---- Attribution ----

  predicate IsCallable(d: Definition) {
    d.name.Some? && d.kind.Some? && (d.kind.value == "Function" || d.kind.value == "Method")
  }

  predicate Contains(d: Definition, line: int) {
    IsCallable(d) && d.startLine <= line <= d.endLine
  }

  function Span(d: Definition): int { d.endLine - d.startLine }

  /** The definition a line belongs to among the first `n`, or -1. */
  function Innermost(defs: seq<Definition>, n: nat, line: int): (b: int)
    requires n <= |defs|
    ensures -1 <= b < n
  {
    if n == 0 then -1
    else
      var b := Innermost(defs, n - 1, line);
      if Contains(defs[n - 1], line) && (b < 0 || Span(defs[n - 1]) < Span(defs[b])) then n - 1 else b
  }

  /** It is the smallest range that contains the line, the first one on ties, and -1 only if none does. */
  lemma {:induction false} InnermostIsInnermost(defs: seq<Definition>, n: nat, line: int)
    requires n <= |defs|
    ensures var b := Innermost(defs, n, line);
            if b < 0 then forall d :: 0 <= d < n ==> !Contains(defs[d], line)
            else
              && Contains(defs[b], line)
              && (forall d :: 0 <= d < n && Contains(defs[d], line) ==> Span(defs[b]) <= Span(defs[d]))
              && (forall d :: 0 <= d < b && Contains(defs[d], line) ==> Span(defs[b]) < Span(defs[d]))
  {
    if n > 0 { InnermostIsInnermost(defs, n - 1, line); }
  }

  /** The call counts, and `di` is what it is charged to. */
  predicate ChargedTo(defs: seq<Definition>, c: Call, di: nat)
    requires di < |defs|
  {
    c.callee.Some? && c.startLine > 0 && Innermost(defs, |defs|, c.startLine) == di
  }

  /** A call charged to `di` that targets the same object by the same name. */
  predicate SelfCall(defs: seq<Definition>, c: Call, di: nat)
    requires di < |defs|
  {
    ChargedTo(defs, c, di) && defs[di].name == Some(ShortName(c.callee.value))
    && IsSelfReceiver(c.callee.value, defs[di].receiver)
  }

  predicate InLoopNamed(defs: seq<Definition>, c: Call, di: nat, names: seq<string>)
    requires di < |defs|
  {
    ChargedTo(defs, c, di) && c.loopDepth > 0 && NameIn(ShortName(c.callee.value), names)
  }

  ghost predicate SomeSelfCall(defs: seq<Definition>, calls: seq<Call>, n: nat, di: nat)
    requires n <= |calls| && di < |defs|
  {
    exists ci :: 0 <= ci < n && SelfCall(defs, calls[ci], di)
  }

  ghost predicate SomeLoopedSelfCall(defs: seq<Definition>, calls: seq<Call>, n: nat, di: nat)
    requires n <= |calls| && di < |defs|
  {
    exists ci :: 0 <= ci < n && SelfCall(defs, calls[ci], di) && calls[ci].loopDepth > 0
  }

  ghost predicate SomeGuardedSelfCall(defs: seq<Definition>, calls: seq<Call>, n: nat, di: nat)
    requires n <= |calls| && di < |defs|
  {
    exists ci :: 0 <= ci < n && SelfCall(defs, calls[ci], di) && calls[ci].branchDepth > 0
  }

  /** The calls in loops that `di` is charged with and whose short name is listed. */
  ghost function LoopCalls(defs: seq<Definition>, calls: seq<Call>, n: nat, di: nat, names: seq<string>): set<int>
    requires n <= |calls| && di < |defs|
  {
    set ci | 0 <= ci < n && InLoopNamed(defs, calls[ci], di, names)
  }

  lemma LoopCallsStep(defs: seq<Definition>, calls: seq<Call>, n: nat, di: nat, names: seq<string>)
    requires n < |calls| && di < |defs|
    ensures |LoopCalls(defs, calls, n + 1, di, names)|
            == |LoopCalls(defs, calls, n, di, names)| + if InLoopNamed(defs, calls[n], di, names) then 1 else 0
  {
    hide InLoopNamed;
    var a, b := LoopCalls(defs, calls, n, di, names), LoopCalls(defs, calls, n + 1, di, names);
    if InLoopNamed(defs, calls[n], di, names) {
      assert b == a + {n as int};
    } else {
      assert b == a;
    }
  }

  /** What the first `n` calls make of definition `di`, before the unguarded flag is derived. */
  ghost function After(defs: seq<Definition>, calls: seq<Call>, n: nat, di: nat): Definition
    requires n <= |calls| && di < |defs|
  {
    defs[di].(
      isRecursive := defs[di].isRecursive || SomeSelfCall(defs, calls, n, di),
      recursionInLoop := defs[di].recursionInLoop || SomeLoopedSelfCall(defs, calls, n, di),
      linearScanInLoop := defs[di].linearScanInLoop + |LoopCalls(defs, calls, n, di, LINEAR_SCAN_NAMES)|,
      allocInLoop := defs[di].allocInLoop + |LoopCalls(defs, calls, n, di, ALLOC_NAMES)|)
  }

  /** The change one call makes to the definition it is charged to. */
  function Charge(d: Definition, c: Call): Definition
    requires c.callee.Some?
  {
    var short := ShortName(c.callee.value);
    var looped := c.loopDepth > 0;
    var self := d.name == Some(short) && IsSelfReceiver(c.callee.value, d.receiver);
    d.(
      isRecursive := d.isRecursive || self,
      recursionInLoop := d.recursionInLoop || (self && looped),
      linearScanInLoop := d.linearScanInLoop + (if looped && NameIn(short, LINEAR_SCAN_NAMES) then 1 else 0),
      allocInLoop := d.allocInLoop + (if looped && NameIn(short, ALLOC_NAMES) then 1 else 0))
  }

  lemma AfterStart(defs: seq<Definition>, calls: seq<Call>, di: nat)
    requires di < |defs|
    ensures After(defs, calls, 0, di) == defs[di]
    ensures !SomeSelfCall(defs, calls, 0, di) && !SomeGuardedSelfCall(defs, calls, 0, di)
  {
    assert LoopCalls(defs, calls, 0, di, LINEAR_SCAN_NAMES) == {};
    assert LoopCalls(defs, calls, 0, di, ALLOC_NAMES) == {};
  }

  lemma AfterStep(defs: seq<Definition>, calls: seq<Call>, n: nat, di: nat)
    requires n < |calls| && di < |defs|
    ensures After(defs, calls, n + 1, di)
            == if ChargedTo(defs, calls[n], di) then Charge(After(defs, calls, n, di), calls[n])
               else After(defs, calls, n, di)
  {
    hide LINEAR_SCAN_NAMES, ALLOC_NAMES, NameIn, IsSelfReceiver, ShortName, Innermost, LoopCalls;
    LoopCallsStep(defs, calls, n, di, LINEAR_SCAN_NAMES);
    LoopCallsStep(defs, calls, n, di, ALLOC_NAMES);
  }

  /** The inner loop of the attribution. */
  method FindInnermost(defs: array<Definition>, line: int) returns (best: int)
    ensures best == Innermost(defs[..], defs.Length, line)
  {
    best := -1;
    var bestSpan := -1;
    for di := 0 to defs.Length
      invariant best == Innermost(defs[..], di, line)
      invariant best >= 0 ==> bestSpan == Span(defs[best])
    {
      var d := defs[di];
      if !d.name.Some? || !d.kind.Some? || (d.kind.value != "Function" && d.kind.value != "Method") {
        continue;
      }
      if d.startLine <= line && line <= d.endLine {
        var span := d.endLine - d.startLine;
        if best < 0 || span < bestSpan {
          bestSpan := span;
          best := di;
        }
      }
    }
  }

  /** What attribution reads of a definition never changes. */
  ghost predicate SameText(a: Definition, b: Definition) {
    a.name == b.name && a.kind == b.kind && a.startLine == b.startLine && a.endLine == b.endLine
    && a.receiver == b.receiver
  }

  lemma {:induction false} InnermostSameText(a: seq<Definition>, b: seq<Definition>, n: nat, line: int)
    requires |a| == |b| && n <= |a| && forall i :: 0 <= i < |a| ==> SameText(a[i], b[i])
    ensures Innermost(a, n, line) == Innermost(b, n, line)
  {
    if n > 0 {
      InnermostSameText(a, b, n - 1, line);
      var m := Innermost(a, n - 1, line);
      assert SameText(a[n - 1], b[n - 1]);
      assert m >= 0 ==> SameText(a[m], b[m]);
    }
  }

  /** The state after `n` calls. */
  ghost predicate Charged(defs: seq<Definition>, calls: seq<Call>, n: nat, now: seq<Definition>,
                          hasSelf: seq<bool>, hasGuarded: seq<bool>)
  {
    && n <= |calls| && |now| == |hasSelf| == |hasGuarded| == |defs|
    && (forall di :: 0 <= di < |defs| ==> now[di] == After(defs, calls, n, di))
    && (forall di :: 0 <= di < |defs| ==>
          (hasSelf[di] <==> SomeSelfCall(defs, calls, n, di))
          && (hasGuarded[di] <==> SomeGuardedSelfCall(defs, calls, n, di)))
  }

  lemma ChargedSkip(defs: seq<Definition>, calls: seq<Call>, n: nat, now: seq<Definition>,
                    hasSelf: seq<bool>, hasGuarded: seq<bool>)
    requires n < |calls| && Charged(defs, calls, n, now, hasSelf, hasGuarded)
    requires forall di :: 0 <= di < |defs| ==> !ChargedTo(defs, calls[n], di)
    ensures Charged(defs, calls, n + 1, now, hasSelf, hasGuarded)
  {
    hide ChargedTo, After, IsSelfReceiver, ShortName;
    forall di | 0 <= di < |defs|
      ensures now[di] == After(defs, calls, n + 1, di)
      ensures SomeSelfCall(defs, calls, n + 1, di) == SomeSelfCall(defs, calls, n, di)
      ensures SomeGuardedSelfCall(defs, calls, n + 1, di) == SomeGuardedSelfCall(defs, calls, n, di)
    {
      AfterStep(defs, calls, n, di);
    }
  }

  lemma ChargedStep(defs: seq<Definition>, calls: seq<Call>, n: nat, now: seq<Definition>,
                    hasSelf: seq<bool>, hasGuarded: seq<bool>, best: nat)
    requires n < |calls| && Charged(defs, calls, n, now, hasSelf, hasGuarded)
    requires best < |defs| && ChargedTo(defs, calls[n], best)
    ensures var c := calls[n];
            var self := SelfCall(defs, c, best);
            Charged(defs, calls, n + 1, now[best := Charge(now[best], c)],
                    hasSelf[best := hasSelf[best] || self],
                    hasGuarded[best := hasGuarded[best] || (self && c.branchDepth > 0)])
  {
    hide After, IsSelfReceiver, ShortName, Charge;
    forall di | 0 <= di < |defs|
      ensures After(defs, calls, n + 1, di)
              == if di == best then Charge(now[best], calls[n]) else now[di]
      ensures SomeSelfCall(defs, calls, n + 1, di)
              == (SomeSelfCall(defs, calls, n, di) || (di == best && SelfCall(defs, calls[n], best)))
      ensures SomeGuardedSelfCall(defs, calls, n + 1, di)
              == (SomeGuardedSelfCall(defs, calls, n, di)
                  || (di == best && SelfCall(defs, calls[n], best) && calls[n].branchDepth > 0))
    {
      AfterStep(defs, calls, n, di);
    }
  }

  /** What the whole pass makes of a definition: nothing but the flags and counters changes; the flags
      say that some call charged to it is a self-call, one in a loop, or that there are some and none of
      them is under a conditional; the counters have grown by the charged calls in loops with a listed
      name. */
  ghost predicate Attributed(defs: seq<Definition>, calls: seq<Call>, di: nat, d: Definition)
    requires di < |defs|
  {
    var d0 := defs[di];
    && d.(isRecursive := d0.isRecursive, recursionInLoop := d0.recursionInLoop,
          unguardedRecursion := d0.unguardedRecursion, linearScanInLoop := d0.linearScanInLoop,
          allocInLoop := d0.allocInLoop) == d0
    && (d.isRecursive <==>
          d0.isRecursive || exists ci :: 0 <= ci < |calls| && SelfCall(defs, calls[ci], di))
    && (d.recursionInLoop <==>
          d0.recursionInLoop
          || exists ci :: 0 <= ci < |calls| && SelfCall(defs, calls[ci], di) && calls[ci].loopDepth > 0)
    && (d.unguardedRecursion <==>
          d0.unguardedRecursion
          || ((exists ci :: 0 <= ci < |calls| && SelfCall(defs, calls[ci], di))
              && forall ci :: 0 <= ci < |calls| && SelfCall(defs, calls[ci], di) ==> calls[ci].branchDepth <= 0))
    && d.linearScanInLoop
       == d0.linearScanInLoop
          + |set ci | 0 <= ci < |calls| && InLoopNamed(defs, calls[ci], di, LINEAR_SCAN_NAMES)|
    && d.allocInLoop
       == d0.allocInLoop + |set ci | 0 <= ci < |calls| && InLoopNamed(defs, calls[ci], di, ALLOC_NAMES)|
  }

  lemma FinalIsAttributed(defs: seq<Definition>, calls: seq<Call>, di: nat)
    requires di < |defs|
    ensures Attributed(defs, calls, di, Final(defs, calls, di))
  {
    hide SelfCall, InLoopNamed, LINEAR_SCAN_NAMES, ALLOC_NAMES;
  }

  ghost function Final(defs: seq<Definition>, calls: seq<Call>, di: nat): Definition
    requires di < |defs|
  {
    After(defs, calls, |calls|, di).(
      unguardedRecursion := defs[di].unguardedRecursion
                            || (SomeSelfCall(defs, calls, |calls|, di)
                                && !SomeGuardedSelfCall(defs, calls, |calls|, di)))
  }

  /** The bottleneck pass over the calls of a file, updating the definitions in place. */
  method AttributeCalls(defs: array<Definition>, calls: seq<Call>)
    modifies defs
    ensures forall di :: 0 <= di < defs.Length ==> Attributed(old(defs[..]), calls, di, defs[di])
  {
    hide Attributed, After, Innermost, ShortName, IsSelfReceiver, NameIn, LINEAR_SCAN_NAMES, ALLOC_NAMES;
    ghost var defs0 := defs[..];
    var hasSelf := new bool[defs.Length](_ => false);
    var hasGuarded := new bool[defs.Length](_ => false);
    forall di | 0 <= di < |defs0|
      ensures After(defs0, calls, 0, di) == defs0[di]
      ensures !SomeSelfCall(defs0, calls, 0, di) && !SomeGuardedSelfCall(defs0, calls, 0, di)
    {
      AfterStart(defs0, calls, di);
    }
    for ci := 0 to |calls|
      invariant Charged(defs0, calls, ci, defs[..], hasSelf[..], hasGuarded[..])
    {
      AttributeCall(defs, calls, ci, hasSelf, hasGuarded, defs0);
    }
    UnguardedKept(defs0, calls, defs[..], hasSelf[..], hasGuarded[..]);
    MarkUnguarded(defs, hasSelf, hasGuarded);
    forall di | 0 <= di < defs.Length ensures Attributed(defs0, calls, di, defs[di]) {
      FinalIsAttributed(defs0, calls, di);
    }
  }

  /** The closing loop: a self-call and no guarded one. */
  method MarkUnguarded(defs: array<Definition>, hasSelf: array<bool>, hasGuarded: array<bool>)
    requires defs.Length == hasSelf.Length == hasGuarded.Length
    requires defs as object != hasSelf && defs as object != hasGuarded
    modifies defs
    ensures forall di :: 0 <= di < defs.Length ==>
              defs[di] == old(defs[di]).(unguardedRecursion := old(defs[di]).unguardedRecursion
                                                               || (hasSelf[di] && !hasGuarded[di]))
  {
    for di := 0 to defs.Length
      invariant forall k :: 0 <= k < di ==>
                  defs[k] == old(defs[k]).(unguardedRecursion := old(defs[k]).unguardedRecursion
                                                                 || (hasSelf[k] && !hasGuarded[k]))
      invariant forall k :: di <= k < defs.Length ==> defs[k] == old(defs[k])
    {
      if hasSelf[di] && !hasGuarded[di] {
        defs[di] := defs[di].(unguardedRecursion := true);
      }
    }
  }

  lemma UnguardedKept(defs: seq<Definition>, calls: seq<Call>, now: seq<Definition>,
                      hasSelf: seq<bool>, hasGuarded: seq<bool>)
    requires Charged(defs, calls, |calls|, now, hasSelf, hasGuarded)
    ensures |now| == |defs| == |hasSelf| == |hasGuarded|
    ensures forall di :: 0 <= di < |defs| ==>
              Final(defs, calls, di)
              == now[di].(unguardedRecursion := now[di].unguardedRecursion || (hasSelf[di] && !hasGuarded[di]))
  {
    hide SomeSelfCall, SomeGuardedSelfCall;
    forall di | 0 <= di < |defs|
      ensures Final(defs, calls, di)
              == now[di].(unguardedRecursion := now[di].unguardedRecursion || (hasSelf[di] && !hasGuarded[di]))
    {
      assert now[di] == After(defs, calls, |calls|, di);
      assert hasSelf[di] <==> SomeSelfCall(defs, calls, |calls|, di);
      assert hasGuarded[di] <==> SomeGuardedSelfCall(defs, calls, |calls|, di);
    }
  }

  /** One call. */
  method AttributeCall(defs: array<Definition>, calls: seq<Call>, ci: nat, hasSelf: array<bool>,
                       hasGuarded: array<bool>, ghost defs0: seq<Definition>)
    requires ci < |calls| && hasSelf != hasGuarded
    requires defs.Length == hasSelf.Length == hasGuarded.Length
    requires defs as object != hasSelf && defs as object != hasGuarded
    requires Charged(defs0, calls, ci, defs[..], hasSelf[..], hasGuarded[..])
    modifies defs, hasSelf, hasGuarded
    ensures Charged(defs0, calls, ci + 1, defs[..], hasSelf[..], hasGuarded[..])
  {
    hide Charged, Innermost, ShortName, IsSelfReceiver, NameIn, LINEAR_SCAN_NAMES, ALLOC_NAMES;
    var c := calls[ci];
    if c.callee.None? || c.startLine <= 0 {
      ChargedSkip(defs0, calls, ci, defs[..], hasSelf[..], hasGuarded[..]);
      return;
    }
    var best := FindInnermost(defs, c.startLine);
    ChargedText(defs0, calls, ci, defs[..], hasSelf[..], hasGuarded[..]);
    InnermostSameText(defs0, defs[..], defs.Length, c.startLine);
    if best < 0 {
      ChargedSkip(defs0, calls, ci, defs[..], hasSelf[..], hasGuarded[..]);
      return;
    }
    ChargedStep(defs0, calls, ci, defs[..], hasSelf[..], hasGuarded[..], best);
    ghost var now, self0, guarded0 := defs[..], hasSelf[..], hasGuarded[..];
    ghost var self := SelfCall(defs0, c, best);
    ApplyCall(defs, best, c, hasSelf, hasGuarded);
    assert defs[..] == now[best := Charge(now[best], c)];
    assert hasSelf[..] == self0[best := self0[best] || self];
    assert hasGuarded[..] == guarded0[best := guarded0[best] || (self && c.branchDepth > 0)];
  }

  lemma ChargedText(defs: seq<Definition>, calls: seq<Call>, n: nat, now: seq<Definition>,
                    hasSelf: seq<bool>, hasGuarded: seq<bool>)
    requires Charged(defs, calls, n, now, hasSelf, hasGuarded)
    ensures |now| == |defs| == |hasSelf| == |hasGuarded|
    ensures forall i :: 0 <= i < |defs| ==> SameText(defs[i], now[i])
  {
    forall i | 0 <= i < |defs| ensures SameText(defs[i], now[i]) {
      assert now[i] == After(defs, calls, n, i);
    }
  }

  /** The updates to the definition a call is charged to. */
  method ApplyCall(defs: array<Definition>, best: nat, c: Call, hasSelf: array<bool>, hasGuarded: array<bool>)
    requires best < defs.Length == hasSelf.Length == hasGuarded.Length && c.callee.Some? && hasSelf != hasGuarded
    requires defs as object != hasSelf && defs as object != hasGuarded
    modifies defs, hasSelf, hasGuarded
    ensures var d := old(defs[best]);
            var self := d.name == Some(ShortName(c.callee.value)) && IsSelfReceiver(c.callee.value, d.receiver);
            && defs[..] == old(defs[..])[best := Charge(d, c)]
            && hasSelf[..] == old(hasSelf[..])[best := old(hasSelf[best]) || self]
            && hasGuarded[..] == old(hasGuarded[..])[best := old(hasGuarded[best]) || (self && c.branchDepth > 0)]
  {
    hide ShortName, IsSelfReceiver, NameIn, LINEAR_SCAN_NAMES, ALLOC_NAMES;
    var short := ShortName(c.callee.value);
    var inLoop := c.loopDepth > 0;
    var d := defs[best];
    if Some(short) == d.name && IsSelfReceiver(c.callee.value, d.receiver) {
      d := d.(isRecursive := true);
      hasSelf[best] := true;
      if inLoop {
        d := d.(recursionInLoop := true);
      }
      if c.branchDepth > 0 {
        hasGuarded[best] := true;
      }
    }
    if inLoop && NameIn(short, LINEAR_SCAN_NAMES) {
      d := d.(linearScanInLoop := d.linearScanInLoop + 1);
    }
    if inLoop && NameIn(short, ALLOC_NAMES) {
      d := d.(allocInLoop := d.allocInLoop + 1);
    }
    defs[best] := d;
  }

  /** A receiver chain counts as a whole: a call through a field, of self or of anything else, is never
      a self-call. */
  lemma ThroughFieldIsOther(chain: string, name: string, receiver: Option<string>)
    requires '.' in chain && '.' !in name
    ensures !IsSelfReceiver(chain + "." + name, receiver)
  {
    LastDotAt(chain, name);
    NoDotInSelf(chain);
    assert (chain + "." + name)[..|chain|] == chain;
    hide LastDot, ReceiverIdent, SELF_RECEIVERS;
    if receiver.Some? { NoDotInReceiver(receiver.value); }
  }

  // ---- When a call is a self-call ----

  /** A call by a bare name: exactly when it is the definition's own. */
  lemma BareSelfCall(defs: seq<Definition>, c: Call, di: nat, name: string)
    requires di < |defs| && ChargedTo(defs, c, di) && c.callee == Some(name) && name != "" && '.' !in name
    ensures SelfCall(defs, c, di) <==> defs[di].name == Some(name)
  {
    NoDot(name);
    assert name[0..] == name;
    hide Innermost, LastDot;
  }

  lemma NoDot(s: string)
    requires '.' !in s
    ensures LastDot(s) == -1
  {}

  /** The receivers that always name the same object. */
  predicate NamesSelf(head: string) { head == "self" || head == "this" || head == "cls" || head == "@self" }

  lemma SelfReceivers(head: string)
    ensures head in SELF_RECEIVERS <==> NamesSelf(head)
  {
    assert SELF_RECEIVERS[0] == "self" && SELF_RECEIVERS[1] == "this";
    assert SELF_RECEIVERS[2] == "cls" && SELF_RECEIVERS[3] == "@self";
  }

  lemma HeadAndName(head: string, name: string)
    requires '.' !in name
    ensures var s := head + "." + name;
            LastDot(s) == |head| && s[..|head|] == head && s != "" && ShortName(s) == name
  {
    LastDotAt(head, name);
    hide LastDot;
    assert (head + "." + name)[..|head|] == head && (head + "." + name)[|head| + 1..] == name;
  }

  /** A call through a receiver, charged to a definition that has none: exactly when it is the definition's
      name and the receiver is one of the four names for the same object. */
  lemma QualifiedSelfCall(defs: seq<Definition>, c: Call, di: nat, head: string, name: string)
    requires di < |defs| && ChargedTo(defs, c, di) && c.callee == Some(head + "." + name) && '.' !in name
    requires defs[di].receiver.None?
    ensures SelfCall(defs, c, di)
            <==> defs[di].name == Some(name) && (head == "self" || head == "this" || head == "cls" || head == "@self")
  {
    HeadAndName(head, name);
    SelfReceivers(head);
    hide Innermost, LastDot, ShortName, SELF_RECEIVERS;
  }

  /** Letters, digits and underscores. */
  ghost predicate IsVariable(v: string) {
    v != "" && forall i :: 0 <= i < |v| ==>
      'a' <= v[i] <= 'z' || 'A' <= v[i] <= 'Z' || '0' <= v[i] <= '9' || v[i] == '_'
  }

  /** A call charged to a method with receiver `(v T)`: exactly when it is the method's name, through one of
      the four names or `v`. */
  lemma ReceiverSelfCall(defs: seq<Definition>, c: Call, di: nat, head: string, name: string, v: string, type_: string)
    requires di < |defs| && ChargedTo(defs, c, di) && c.callee == Some(head + "." + name) && '.' !in name
    requires IsVariable(v) && type_ != "" && type_[0] != ' ' && type_[0] != '\t' && type_[0] != ')'
    requires defs[di].receiver == Some("(" + v + " " + type_ + ")")
    ensures SelfCall(defs, c, di)
            <==> && defs[di].name == Some(name)
                 && (head == "self" || head == "this" || head == "cls" || head == "@self" || head == v)
  {
    HeadAndName(head, name);
    SelfReceivers(head);
    ReceiverIs(v, type_);
    hide Innermost, LastDot, ShortName, SELF_RECEIVERS, ReceiverIdent;
  }

  /** A receiver `(T)` has no name: the four names only. */
  lemma UnnamedSelfCall(defs: seq<Definition>, c: Call, di: nat, head: string, name: string, type_: string)
    requires di < |defs| && ChargedTo(defs, c, di) && c.callee == Some(head + "." + name) && '.' !in name
    requires IsVariable(type_) && defs[di].receiver == Some("(" + type_ + ")")
    ensures SelfCall(defs, c, di)
            <==> defs[di].name == Some(name) && (head == "self" || head == "this" || head == "cls" || head == "@self")
  {
    HeadAndName(head, name);
    SelfReceivers(head);
    ReceiverHasNoName(type_);
    hide Innermost, LastDot, ShortName, SELF_RECEIVERS, ReceiverIdent;
  }

  lemma ReceiverHasNoName(type_: string)
    requires IsVariable(type_)
    ensures ReceiverIdent("(" + type_ + ")") == ""
  {
    var text := "(" + type_ + ")";
    assert text[1..] == type_ + ")";
    IdentAhead(type_, ")");
    assert !IsBlank(type_[0]) && Blanks(type_ + ")") == 0;
    assert (type_ + ")")[0..] == type_ + ")" && (type_ + ")")[|type_|..] == ")";
    assert Blanks(")") == 0 && ")"[0..] == ")";
  }

  lemma {:induction false} IdentAhead(v: string, rest: string)
    requires (forall i :: 0 <= i < |v| ==> IsIdentChar(v[i])) && (rest != "" ==> !IsIdentChar(rest[0]))
    ensures IdentLength(v + rest) == |v|
  {
    if v == "" {
      assert v + rest == rest;
    } else {
      assert (v + rest)[1..] == v[1..] + rest && (v + rest)[0] == v[0];
      IdentAhead(v[1..], rest);
    }
  }

  lemma ReceiverIs(v: string, type_: string)
    requires IsVariable(v) && type_ != "" && type_[0] != ' ' && type_[0] != '\t' && type_[0] != ')'
    ensures ReceiverIdent("(" + v + " " + type_ + ")") == v
  {
    var text, rest := "(" + v + " " + type_ + ")", type_ + ")";
    assert text[1..] == v + (" " + rest);
    IdentAhead(v, " " + rest);
    assert !IsBlank(v[0]) && Blanks(v + (" " + rest)) == 0;
    assert (v + (" " + rest))[|v|..] == " " + rest && (v + (" " + rest))[..|v|] == v;
    assert (" " + rest)[1..] == rest && Blanks(rest) == 0;
    assert SkipBlanks(" " + rest) == rest;
  }

  /** A name is listed if it differs from a listed one at most in the case of its letters. */
  lemma ListedInAnyCase(name: string, names: seq<string>)
    ensures NameIn(name, names) <==> exists i :: 0 <= i < |names| && DifferInCase(name, names[i])
  {
    forall i | 0 <= i < |names| ensures SameIgnoringCase(name, names[i]) <==> DifferInCase(name, names[i]) {
      SameMeansCase(name, names[i]);
    }
    hide SameIgnoringCase, DifferInCase;
  }

  lemma NoDotInSelf(chain: string)
    requires '.' in chain
    ensures chain !in SELF_RECEIVERS
  {
    assert forall i :: 0 <= i < |SELF_RECEIVERS| ==> '.' !in SELF_RECEIVERS[i];
  }

  lemma NoDotInReceiver(text: string)
    ensures '.' !in ReceiverIdent(text)
  {}

  lemma {:induction false} LastDotAt(head: string, tail: string)
    requires '.' !in tail
    ensures LastDot(head + "." + tail) == |head|
  {
    var s := head + "." + tail;
    assert s[|head|] == '.';
    assert forall i :: |head| < i < |s| ==> s[i] == tail[i - |head| - 1];
  }
}
