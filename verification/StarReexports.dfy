/** Star re-exports of scripts/gen-py-stdlib.py: the capped in-place fixpoint that copies names along
    `from X import *`. */
module StarReexports {
  import opened Basics

  datatype StubClass = StubClass(qualifiedName: string, shortName: string, methods: seq<string>, bases: seq<string>)
  datatype StubFunction = StubFunction(qualifiedName: string, shortName: string, moduleQn: string)
  datatype Stubs = Stubs(classes: seq<StubClass>, functions: seq<StubFunction>)

  /** One entry of `star_imports`: a module and what it star-imports, in order. */
  datatype Imports = Imports(moduleQn: string, targets: seq<string>)

  type Table = map<string, Stubs>

  const MAX_ROUNDS: nat := 8

  datatype Name = ClassName(name: string) | FunctionName(name: string)

  ghost predicate ClassNamed(classes: seq<StubClass>, name: string) {
    exists i :: 0 <= i < |classes| && classes[i].shortName == name
  }

  ghost predicate FunctionNamed(functions: seq<StubFunction>, name: string) {
    exists j :: 0 <= j < |functions| && functions[j].shortName == name
  }

  ghost predicate HasName(s: Stubs, n: Name) {
    match n
    case ClassName(name) => ClassNamed(s.classes, name)
    case FunctionName(name) => FunctionNamed(s.functions, name)
  }

  // ---- Routes ----

  /** A star import: an item of an entry of the import table. */
  datatype Place = Place(entry: nat, item: nat)

  /** The order in which a round handles star imports. */
  predicate Before(p: Place, q: Place) {
    p.entry < q.entry || (p.entry == q.entry && p.item < q.item)
  }

  predicate IsImport(imports: seq<Imports>, p: Place) {
    p.entry < |imports| && p.item < |imports[p.entry].targets|
  }

  function Into(imports: seq<Imports>, p: Place): string
    requires IsImport(imports, p)
  {
    imports[p.entry].moduleQn
  }

  function From(imports: seq<Imports>, p: Place): string
    requires IsImport(imports, p)
  {
    imports[p.entry].targets[p.item]
  }

  type Route = seq<Place>

  /** The star imports of `route`, one after the other, lead from `m` to `t` inside the table. */
  ghost predicate Leads(imports: seq<Imports>, table: Table, m: string, route: Route, t: string)
    decreases |route|
  {
    if route == [] then m == t
    else
      && IsImport(imports, route[0]) && Into(imports, route[0]) == m && From(imports, route[0]) in table
      && Leads(imports, table, From(imports, route[0]), route[1..], t)
  }

  /** The rounds a name takes to come back along a route: the last star import is handled first, and a
      new round is needed wherever the import before it is not handled later in the same round. */
  function Rounds(route: Route): nat {
    if |route| <= 1 then |route|
    else Rounds(route[1..]) + if Before(route[1], route[0]) then 0 else 1
  }

  /** `r` rounds are over, and in the next one the star imports before `next`: that is long enough. */
  predicate InTime(route: Route, r: nat, next: Place) {
    Rounds(route) <= r || (Rounds(route) == r + 1 && Before(route[0], next))
  }

  ghost predicate Brings(imports: seq<Imports>, start: Table, m: string, n: Name, route: Route, t: string) {
    t in start && HasName(start[t], n) && Leads(imports, start, m, route, t)
  }

  /** The name has come to `m` by then. */
  ghost predicate Arrived(imports: seq<Imports>, start: Table, m: string, n: Name, r: nat, next: Place) {
    exists t, route :: Brings(imports, start, m, n, route, t) && InTime(route, r, next)
  }

  const START := Place(0, 0)

  /** What `resolve_reexports` gives module `m`: a name of some module from which it takes at most `r`
      rounds. */
  ghost predicate Arrives(imports: seq<Imports>, start: Table, m: string, n: Name, r: nat) {
    exists t, route :: Brings(imports, start, m, n, route, t) && Rounds(route) <= r
  }

  /** What the re-exports mean: a name of any module that star imports lead to. */
  ghost predicate Reachable(imports: seq<Imports>, start: Table, m: string, n: Name) {
    exists t, route :: Brings(imports, start, m, n, route, t)
  }

  lemma ArrivedAtStart(imports: seq<Imports>, start: Table, m: string, n: Name, r: nat)
    ensures Arrived(imports, start, m, n, r, START) <==> Arrives(imports, start, m, n, r)
  {
    hide Brings, Rounds;
    if Arrives(imports, start, m, n, r) {
      var t, route :| Brings(imports, start, m, n, route, t) && Rounds(route) <= r;
      assert InTime(route, r, START);
    }
    if Arrived(imports, start, m, n, r, START) {
      var t, route :| Brings(imports, start, m, n, route, t) && InTime(route, r, START);
      RoundsAtMostSteps(route);
      assert route != [] ==> !Before(route[0], START);
    }
  }

  /** One more star import handled: a route is in time if it was, or if it begins with this import and
      the rest of it was. */
  lemma InTimeStep(imports: seq<Imports>, route: Route, r: nat, p: Place)
    requires route != [] ==> IsImport(imports, route[0])
    ensures InTime(route, r, Place(p.entry, p.item + 1))
            <==> InTime(route, r, p) || (route != [] && route[0] == p && InTime(route[1..], r, p))
  {}

  lemma {:induction false} RoundsAtMostSteps(route: Route)
    ensures Rounds(route) <= |route|
    ensures route != [] ==> Rounds(route) > 0
  {
    if |route| > 1 { RoundsAtMostSteps(route[1..]); }
  }

  lemma BringsStep(imports: seq<Imports>, start: Table, p: Place, n: Name, route: Route, t: string)
    requires IsImport(imports, p) && From(imports, p) in start
    ensures Brings(imports, start, Into(imports, p), n, [p] + route, t)
            <==> Brings(imports, start, From(imports, p), n, route, t)
  {
    assert ([p] + route)[1..] == route;
  }

  // ---- What is copied ----

  ghost predicate SameClass(a: StubClass, b: StubClass) {
    a.shortName == b.shortName && a.methods == b.methods && a.bases == b.bases
  }

  /** `c` is, but for its qualified name, the first of these classes with its short name. */
  ghost predicate FirstCopied(classes: seq<StubClass>, c: StubClass) {
    exists k :: 0 <= k < |classes| && SameClass(classes[k], c) && FirstNamed(classes, k)
  }

  ghost predicate FirstNamed(classes: seq<StubClass>, k: nat)
    requires k < |classes|
  {
    forall l :: 0 <= l < k ==> classes[l].shortName != classes[k].shortName
  }

  /** Where `a` first occurs is before where `b` first occurs. */
  ghost predicate Precedes(names: seq<string>, a: string, b: string) {
    exists k, l :: 0 <= k < l < |names| && FirstAt(names, k, a) && FirstAt(names, l, b)
  }

  ghost predicate FirstAt(names: seq<string>, k: nat, a: string)
    requires k < |names|
  {
    names[k] == a && a !in names[..k]
  }

  /** From position `n` on the names are some of the target's, each once, in the order of the target. */
  ghost predicate InOrderOf(target: seq<string>, names: seq<string>, n: nat) {
    && (forall i :: n <= i < |names| ==> names[i] in target)
    && (forall i, j :: n <= i < j < |names| ==> Precedes(target, names[i], names[j]))
  }

  datatype Kind = Classes | Functions

  function ClassList(classes: seq<StubClass>): seq<string> {
    seq(|classes|, i requires 0 <= i < |classes| => classes[i].shortName)
  }

  function FunctionList(functions: seq<StubFunction>): seq<string> {
    seq(|functions|, i requires 0 <= i < |functions| => functions[i].shortName)
  }

  /** The short names of one kind, in order. */
  function NamesOf(s: Stubs, kind: Kind): seq<string> {
    if kind.Classes? then ClassList(s.classes) else FunctionList(s.functions)
  }

  function NameOf(kind: Kind, name: string): Name {
    if kind.Classes? then ClassName(name) else FunctionName(name)
  }

  lemma NameIsListed(s: Stubs, kind: Kind, name: string)
    ensures HasName(s, NameOf(kind, name)) <==> name in NamesOf(s, kind)
  {
    if kind.Classes? && ClassNamed(s.classes, name) {
      var i :| 0 <= i < |s.classes| && s.classes[i].shortName == name;
      assert ClassList(s.classes)[i] == name;
    }
    if kind.Functions? && FunctionNamed(s.functions, name) {
      var i :| 0 <= i < |s.functions| && s.functions[i].shortName == name;
      assert FunctionList(s.functions)[i] == name;
    }
  }

  /** From position `n` on every class has a name that no class before it has. */
  ghost predicate NewClassNames(classes: seq<StubClass>, n: nat) {
    forall i, j :: 0 <= i < j < |classes| && n <= j ==> classes[i].shortName != classes[j].shortName
  }

  ghost predicate NewFunctionNames(functions: seq<StubFunction>, n: nat) {
    forall i, j :: 0 <= i < j < |functions| && n <= j ==> functions[i].shortName != functions[j].shortName
  }

  /** Nothing was removed or changed; what was added has a new name, so a module's own entry wins, and
      carries the module's own qualified name. */
  ghost predicate Extends(m: string, a: Stubs, b: Stubs) {
    && a.classes <= b.classes && a.functions <= b.functions
    && NewClassNames(b.classes, |a.classes|) && NewFunctionNames(b.functions, |a.functions|)
    && (forall i :: |a.classes| <= i < |b.classes| ==>
          b.classes[i].qualifiedName == m + "." + b.classes[i].shortName)
    && (forall i :: |a.functions| <= i < |b.functions| ==>
          b.functions[i].qualifiedName == m + "." + b.functions[i].shortName && b.functions[i].moduleQn == m)
  }

  ghost predicate Grown(a: Table, b: Table) {
    a.Keys == b.Keys && forall m :: m in a ==> Extends(m, a[m], b[m])
  }

  lemma ExtendsKeeps(m: string, a: Stubs, b: Stubs, n: Name)
    requires Extends(m, a, b) && HasName(a, n)
    ensures HasName(b, n)
  {
    match n
    case ClassName(name) =>
      var i :| 0 <= i < |a.classes| && a.classes[i].shortName == name;
      assert b.classes[i] == a.classes[i];
    case FunctionName(name) =>
      var i :| 0 <= i < |a.functions| && a.functions[i].shortName == name;
      assert b.functions[i] == a.functions[i];
  }

  lemma ExtendsTrans(m: string, a: Stubs, b: Stubs, c: Stubs)
    requires Extends(m, a, b) && Extends(m, b, c)
    ensures Extends(m, a, c)
  {
    forall i, j | 0 <= i < j < |c.classes| && |a.classes| <= j
      ensures c.classes[i].shortName != c.classes[j].shortName
    {
      if j < |b.classes| { assert c.classes[i] == b.classes[i] && c.classes[j] == b.classes[j]; }
    }
    forall i, j | 0 <= i < j < |c.functions| && |a.functions| <= j
      ensures c.functions[i].shortName != c.functions[j].shortName
    {
      if j < |b.functions| { assert c.functions[i] == b.functions[i] && c.functions[j] == b.functions[j]; }
    }
    forall i | |a.classes| <= i < |c.classes|
      ensures c.classes[i].qualifiedName == m + "." + c.classes[i].shortName
    {
      if i < |b.classes| { assert c.classes[i] == b.classes[i]; }
    }
    forall i | |a.functions| <= i < |c.functions|
      ensures c.functions[i].qualifiedName == m + "." + c.functions[i].shortName && c.functions[i].moduleQn == m
    {
      if i < |b.functions| { assert c.functions[i] == b.functions[i]; }
    }
  }

  // ---- One star import ----

  lemma NewClass(classes: seq<StubClass>, c: StubClass, n: nat)
    requires NewClassNames(classes, n) && !ClassNamed(classes, c.shortName)
    ensures NewClassNames(classes + [c], n)
  {}

  lemma NoNewClass(classes: seq<StubClass>)
    ensures NewClassNames(classes, |classes|)
  {}

  lemma CopyFirst(target: seq<StubClass>, k: nat, copy: StubClass)
    requires k < |target| && copy.shortName == target[k].shortName && FirstNamed(target, k)
    requires copy.methods == target[k].methods && copy.bases == target[k].bases
    ensures FirstCopied(target, copy)
  {
    assert SameClass(target[k], copy);
  }

  /** From position `n` on the names are those at the positions `at` of the target, all below `k`, each
      where the name first occurs. */
  ghost predicate Picked(target: seq<string>, names: seq<string>, n: nat, at: seq<nat>, k: nat) {
    && n + |at| == |names| && k <= |target|
    && (forall i :: 0 <= i < |at| ==> at[i] < k && FirstAt(target, at[i], names[n + i]))
    && (forall i, j :: 0 <= i < j < |at| ==> at[i] < at[j])
  }

  lemma PickNext(target: seq<string>, names: seq<string>, n: nat, at: seq<nat>, k: nat)
    requires Picked(target, names, n, at, k) && k < |target| && target[k] !in target[..k]
    ensures Picked(target, names + [target[k]], n, at + [k], k + 1)
  {
    var more, at' := names + [target[k]], at + [k];
    forall i | 0 <= i < |at'| ensures at'[i] < k + 1 && FirstAt(target, at'[i], more[n + i]) {
      assert i < |at| ==> at'[i] == at[i] && more[n + i] == names[n + i];
    }
  }

  lemma PickedInOrder(target: seq<string>, names: seq<string>, n: nat, at: seq<nat>, k: nat)
    requires Picked(target, names, n, at, k)
    ensures InOrderOf(target, names, n)
  {
    forall i | n <= i < |names| ensures names[i] in target {
      assert FirstAt(target, at[i - n], names[n + (i - n)]);
    }
    forall i, j | n <= i < j < |names| ensures Precedes(target, names[i], names[j]) {
      assert FirstAt(target, at[i - n], names[n + (i - n)]) && FirstAt(target, at[j - n], names[n + (j - n)]);
    }
  }

  lemma NothingPicked(target: seq<string>, names: seq<string>)
    ensures Picked(target, names, |names|, [], 0)
  {}

  lemma PickMore(target: seq<string>, names: seq<string>, n: nat, at: seq<nat>, k: nat)
    requires Picked(target, names, n, at, k) && k < |target|
    ensures Picked(target, names, n, at, k + 1)
  {}

  lemma ClassListAppend(classes: seq<StubClass>, c: StubClass)
    ensures ClassList(classes + [c]) == ClassList(classes) + [c.shortName]
  {}

  lemma FunctionListAppend(functions: seq<StubFunction>, f: StubFunction)
    ensures FunctionList(functions + [f]) == FunctionList(functions) + [f.shortName]
  {}

  lemma ClassNames(classes: seq<StubClass>)
    ensures forall n :: n in (set i | 0 <= i < |classes| :: classes[i].shortName) <==> ClassNamed(classes, n)
  {}

  lemma ClassNamedAppend(classes: seq<StubClass>, c: StubClass, name: string)
    ensures ClassNamed(classes + [c], name) <==> ClassNamed(classes, name) || c.shortName == name
  {
    var more := classes + [c];
    assert more[|classes|] == c && forall i :: 0 <= i < |classes| ==> more[i] == classes[i];
  }

  /** Copies the target's classes that are not there yet: of several with one name the first. */
  method CopyClasses(m: string, classes0: seq<StubClass>, target: seq<StubClass>)
      returns (classes: seq<StubClass>, changed: bool)
    ensures classes0 <= classes && (changed <==> classes != classes0)
    ensures NewClassNames(classes, |classes0|)
    ensures forall i :: |classes0| <= i < |classes| ==>
              classes[i].qualifiedName == m + "." + classes[i].shortName && FirstCopied(target, classes[i])
    ensures InOrderOf(ClassList(target), ClassList(classes), |classes0|)
    ensures forall j :: 0 <= j < |target| ==> ClassNamed(classes, target[j].shortName)
  {
    hide ClassNamed, FirstCopied, FirstNamed, SameClass, NewClassNames, Picked;
    NoNewClass(classes0);
    classes, changed := classes0, false;
    ClassNames(classes);
    var existing := set i | 0 <= i < |classes| :: classes[i].shortName;
    ghost var at: seq<nat> := [];
    NothingPicked(ClassList(target), ClassList(classes0));
    for k := 0 to |target|
      invariant classes0 <= classes && (changed <==> |classes| > |classes0|)
      invariant NewClassNames(classes, |classes0|)
      invariant forall n :: n in existing <==> ClassNamed(classes, n)
      invariant forall i :: |classes0| <= i < |classes| ==>
                  classes[i].qualifiedName == m + "." + classes[i].shortName && FirstCopied(target, classes[i])
      invariant Picked(ClassList(target), ClassList(classes), |classes0|, at, k)
      invariant forall j :: 0 <= j < k ==> target[j].shortName in existing
    {
      var c := target[k];
      if c.shortName !in existing {
        var copy := StubClass(m + "." + c.shortName, c.shortName, c.methods, c.bases);
        NotBefore(target, k, existing);
        CopyFirst(target, k, copy);
        forall n ensures ClassNamed(classes + [copy], n) <==> ClassNamed(classes, n) || n == c.shortName {
          ClassNamedAppend(classes, copy, n);
        }
        NewClass(classes, copy, |classes0|);
        ClassListAppend(classes, copy);
        PickNext(ClassList(target), ClassList(classes), |classes0|, at, k);
        classes := classes + [copy];
        at := at + [k];
        existing := existing + {c.shortName};
        changed := true;
      } else {
        PickMore(ClassList(target), ClassList(classes), |classes0|, at, k);
      }
    }
    PickedInOrder(ClassList(target), ClassList(classes), |classes0|, at, |target|);
  }

  lemma NotBefore(target: seq<StubClass>, k: nat, existing: set<string>)
    requires k < |target| && target[k].shortName !in existing
    requires forall j :: 0 <= j < k ==> target[j].shortName in existing
    ensures FirstNamed(target, k) && ClassList(target)[k] !in ClassList(target)[..k]
  {}

  method CopyFunctions(m: string, functions0: seq<StubFunction>, target: seq<StubFunction>)
      returns (functions: seq<StubFunction>, changed: bool)
    ensures functions0 <= functions && (changed <==> functions != functions0)
    ensures NewFunctionNames(functions, |functions0|)
    ensures forall i :: |functions0| <= i < |functions| ==>
              && functions[i].qualifiedName == m + "." + functions[i].shortName && functions[i].moduleQn == m
              && FunctionNamed(target, functions[i].shortName)
    ensures InOrderOf(FunctionList(target), FunctionList(functions), |functions0|)
    ensures forall j :: 0 <= j < |target| ==> FunctionNamed(functions, target[j].shortName)
  {
    hide Picked;
    functions, changed := functions0, false;
    var existing := set i | 0 <= i < |functions| :: functions[i].shortName;
    ghost var at: seq<nat> := [];
    NothingPicked(FunctionList(target), FunctionList(functions0));
    for k := 0 to |target|
      invariant functions0 <= functions && (changed <==> |functions| > |functions0|)
      invariant NewFunctionNames(functions, |functions0|)
      invariant forall n :: n in existing <==> FunctionNamed(functions, n)
      invariant forall i :: |functions0| <= i < |functions| ==>
                  && functions[i].qualifiedName == m + "." + functions[i].shortName && functions[i].moduleQn == m
                  && FunctionNamed(target, functions[i].shortName)
      invariant Picked(FunctionList(target), FunctionList(functions), |functions0|, at, k)
      invariant forall j :: 0 <= j < k ==> target[j].shortName in existing
    {
      var f := target[k];
      if f.shortName !in existing {
        var copy := StubFunction(m + "." + f.shortName, f.shortName, m);
        FunctionListAppend(functions, copy);
        PickNext(FunctionList(target), FunctionList(functions), |functions0|, at, k);
        ghost var before := functions;
        functions := functions + [copy];
        at := at + [k];
        assert functions[|before|] == copy && forall i :: 0 <= i < |before| ==> functions[i] == before[i];
        existing := existing + {f.shortName};
        changed := true;
      } else {
        PickMore(FunctionList(target), FunctionList(functions), |functions0|, at, k);
      }
    }
    PickedInOrder(FunctionList(target), FunctionList(functions), |functions0|, at, |target|);
  }

  /** After the copy `m` has its own names and the target's; a new class is the target's first of its
      name, and the new ones of each kind stand in the order in which the target first has them. */
  ghost predicate Copied(m: string, before: Stubs, target: Stubs, after: Stubs) {
    && Extends(m, before, after)
    && (forall n :: HasName(after, n) <==> HasName(before, n) || HasName(target, n))
    && (forall i :: |before.classes| <= i < |after.classes| ==> FirstCopied(target.classes, after.classes[i]))
    && (forall kind :: InOrderOf(NamesOf(target, kind), NamesOf(after, kind), |NamesOf(before, kind)|))
  }

  lemma ClassOfName(classes: seq<StubClass>, c: StubClass)
    requires FirstCopied(classes, c)
    ensures ClassNamed(classes, c.shortName)
  {}

  /** One `from target import *` inside module `m`. */
  method CopyStar(m: string, before: Stubs, target: Stubs) returns (after: Stubs, changed: bool)
    ensures Copied(m, before, target, after) && (changed <==> after != before)
  {
    hide FirstCopied, InOrderOf, NewClassNames, NewFunctionNames;
    var classes, c1 := CopyClasses(m, before.classes, target.classes);
    var functions, c2 := CopyFunctions(m, before.functions, target.functions);
    after := Stubs(classes, functions);
    changed := c1 || c2;
    CopiedNames(before, target, after);
  }

  lemma CopiedNames(before: Stubs, target: Stubs, after: Stubs)
    requires before.classes <= after.classes && before.functions <= after.functions
    requires forall i :: |before.classes| <= i < |after.classes| ==> FirstCopied(target.classes, after.classes[i])
    requires forall i :: |before.functions| <= i < |after.functions| ==>
               FunctionNamed(target.functions, after.functions[i].shortName)
    requires forall j :: 0 <= j < |target.classes| ==> ClassNamed(after.classes, target.classes[j].shortName)
    requires forall j :: 0 <= j < |target.functions| ==> FunctionNamed(after.functions, target.functions[j].shortName)
    ensures forall n :: HasName(after, n) <==> HasName(before, n) || HasName(target, n)
  {
    forall n ensures HasName(after, n) <==> HasName(before, n) || HasName(target, n) {
      match n
      case ClassName(name) => CopiedClassNames(before.classes, target.classes, after.classes, name);
      case FunctionName(name) => CopiedFunctionNames(before.functions, target.functions, after.functions, name);
    }
  }

  lemma CopiedClassNames(before: seq<StubClass>, target: seq<StubClass>, after: seq<StubClass>, name: string)
    requires before <= after
    requires forall i :: |before| <= i < |after| ==> FirstCopied(target, after[i])
    requires forall j :: 0 <= j < |target| ==> ClassNamed(after, target[j].shortName)
    ensures ClassNamed(after, name) <==> ClassNamed(before, name) || ClassNamed(target, name)
  {
    hide FirstCopied;
    if ClassNamed(after, name) {
      var i :| 0 <= i < |after| && after[i].shortName == name;
      if i < |before| { assert before[i] == after[i]; } else { ClassOfName(target, after[i]); }
    }
    if ClassNamed(before, name) {
      var i :| 0 <= i < |before| && before[i].shortName == name;
      assert after[i] == before[i];
    }
  }

  lemma CopiedFunctionNames(before: seq<StubFunction>, target: seq<StubFunction>, after: seq<StubFunction>,
                            name: string)
    requires before <= after
    requires forall i :: |before| <= i < |after| ==> FunctionNamed(target, after[i].shortName)
    requires forall j :: 0 <= j < |target| ==> FunctionNamed(after, target[j].shortName)
    ensures FunctionNamed(after, name) <==> FunctionNamed(before, name) || FunctionNamed(target, name)
  {
    if FunctionNamed(after, name) {
      var i :| 0 <= i < |after| && after[i].shortName == name;
      if i < |before| { assert before[i] == after[i]; }
    }
    if FunctionNamed(before, name) {
      var i :| 0 <= i < |before| && before[i].shortName == name;
      assert after[i] == before[i];
    }
  }

  // ---- The state between star imports ----

  /** After `r` rounds, and in the next one all star imports before `next`, every module has exactly the
      names that have arrived. */
  ghost predicate Exact(imports: seq<Imports>, start: Table, now: Table, r: nat, next: Place) {
    now.Keys == start.Keys
    && forall m, n :: m in now ==> (HasName(now[m], n) <==> Arrived(imports, start, m, n, r, next))
  }

  lemma ExactAtStart(imports: seq<Imports>, start: Table)
    ensures Exact(imports, start, start, 0, START)
  {
    hide HasName;
    forall m, n | m in start ensures HasName(start[m], n) <==> Arrived(imports, start, m, n, 0, START) {
      if HasName(start[m], n) {
        assert Brings(imports, start, m, n, [], m) && InTime([], 0, START);
      }
      if Arrived(imports, start, m, n, 0, START) {
        var t, route :| Brings(imports, start, m, n, route, t) && InTime(route, 0, START);
        RoundsAtMostSteps(route);
      }
    }
  }

  /** A star import of a module that is not in the table is on no route. */
  lemma ExactSkip(imports: seq<Imports>, start: Table, now: Table, r: nat, p: Place)
    requires Exact(imports, start, now, r, p) && IsImport(imports, p) && From(imports, p) !in start
    ensures Exact(imports, start, now, r, Place(p.entry, p.item + 1))
  {
    hide HasName;
    var next := Place(p.entry, p.item + 1);
    forall m, n ensures Arrived(imports, start, m, n, r, next) <==> Arrived(imports, start, m, n, r, p) {
      forall t, route | Brings(imports, start, m, n, route, t)
        ensures InTime(route, r, next) <==> InTime(route, r, p)
      {
        InTimeStep(imports, route, r, p);
      }
    }
  }

  /** A handled star import brings in exactly what has arrived at the other module. */
  lemma ArrivedStep(imports: seq<Imports>, start: Table, m: string, n: Name, r: nat, p: Place)
    requires IsImport(imports, p) && From(imports, p) in start
    ensures Arrived(imports, start, m, n, r, Place(p.entry, p.item + 1))
            <==> Arrived(imports, start, m, n, r, p)
                 || (m == Into(imports, p) && Arrived(imports, start, From(imports, p), n, r, p))
  {
    hide HasName, InTime, Rounds;
    var u, next := From(imports, p), Place(p.entry, p.item + 1);
    if Arrived(imports, start, m, n, r, next) {
      var t, route :| Brings(imports, start, m, n, route, t) && InTime(route, r, next);
      InTimeStep(imports, route, r, p);
      if !InTime(route, r, p) {
        assert Brings(imports, start, u, n, route[1..], t);
      }
    }
    if Arrived(imports, start, m, n, r, p) {
      var t, route :| Brings(imports, start, m, n, route, t) && InTime(route, r, p);
      InTimeStep(imports, route, r, p);
    }
    if m == Into(imports, p) && Arrived(imports, start, u, n, r, p) {
      var t, route :| Brings(imports, start, u, n, route, t) && InTime(route, r, p);
      BringsStep(imports, start, p, n, route, t);
      InTimeStep(imports, [p] + route, r, p);
      assert ([p] + route)[1..] == route;
    }
  }

  lemma ExactCopy(imports: seq<Imports>, start: Table, now: Table, r: nat, p: Place, after: Stubs)
    requires Exact(imports, start, now, r, p) && IsImport(imports, p)
    requires Into(imports, p) in now && From(imports, p) in now
    requires Copied(Into(imports, p), now[Into(imports, p)], now[From(imports, p)], after)
    ensures Exact(imports, start, now[Into(imports, p) := after], r, Place(p.entry, p.item + 1))
  {
    hide HasName, Extends, FirstCopied, InOrderOf, Arrived;
    var now' := now[Into(imports, p) := after];
    forall m, n | m in now'
      ensures HasName(now'[m], n) <==> Arrived(imports, start, m, n, r, Place(p.entry, p.item + 1))
    {
      ArrivedStep(imports, start, m, n, r, p);
    }
  }

  /** All star imports of an entry are handled: on to the next entry. */
  lemma ExactNextEntry(imports: seq<Imports>, start: Table, now: Table, r: nat, i: nat)
    requires i < |imports| && Exact(imports, start, now, r, Place(i, |imports[i].targets|))
    ensures Exact(imports, start, now, r, Place(i + 1, 0))
  {
    hide HasName, Rounds;
    forall m, n
      ensures Arrived(imports, start, m, n, r, Place(i, |imports[i].targets|))
              <==> Arrived(imports, start, m, n, r, Place(i + 1, 0))
    {
      forall t, route | Brings(imports, start, m, n, route, t)
        ensures InTime(route, r, Place(i, |imports[i].targets|)) <==> InTime(route, r, Place(i + 1, 0))
      {
        RoundsAtMostSteps(route);
      }
    }
  }

  /** All entries are handled: the round is over. */
  lemma ExactNextRound(imports: seq<Imports>, start: Table, now: Table, r: nat)
    requires Exact(imports, start, now, r, Place(|imports|, 0))
    ensures Exact(imports, start, now, r + 1, START)
  {
    hide HasName, Rounds;
    forall m, n
      ensures Arrived(imports, start, m, n, r, Place(|imports|, 0)) <==> Arrived(imports, start, m, n, r + 1, START)
    {
      forall t, route | Brings(imports, start, m, n, route, t)
        ensures InTime(route, r, Place(|imports|, 0)) <==> InTime(route, r + 1, START)
      {
        RoundsAtMostSteps(route);
      }
    }
  }

  // ---- Which route supplies a name ----

  /** `a` takes less time: fewer rounds, or in the last of them an earlier star import. */
  ghost predicate Earlier(a: Route, b: Route) {
    Rounds(a) < Rounds(b) || (a != [] && b != [] && Rounds(a) == Rounds(b) && Before(a[0], b[0]))
  }

  ghost predicate Earliest(imports: seq<Imports>, start: Table, m: string, n: Name, route: Route, t: string) {
    && Brings(imports, start, m, n, route, t)
    && forall u, other :: Brings(imports, start, m, n, other, u) ==> !Earlier(other, route)
  }

  /** The name comes to `m` first along this route, and so it does to every module on the way. */
  ghost predicate Supplies(imports: seq<Imports>, start: Table, m: string, n: Name, route: Route, t: string)
    decreases |route|
  {
    && Earliest(imports, start, m, n, route, t)
    && (route != [] ==> Supplies(imports, start, From(imports, route[0]), n, route[1..], t))
  }

  lemma SuppliesIsEarliest(imports: seq<Imports>, start: Table, m: string, n: Name, route: Route, t: string)
    requires Supplies(imports, start, m, n, route, t)
    ensures Earliest(imports, start, m, n, route, t) && Brings(imports, start, m, n, route, t)
  {
    hide Brings, Earlier;
  }

  lemma SameTime(a: Route, b: Route)
    requires !Earlier(a, b) && !Earlier(b, a)
    ensures a == [] <==> b == []
    ensures a != [] ==> Rounds(a) == Rounds(b) && a[0] == b[0]
  {
    RoundsAtMostSteps(a);
    RoundsAtMostSteps(b);
  }

  /** There is only one such route. */
  lemma {:induction false} SuppliedOnce(imports: seq<Imports>, start: Table, m: string, n: Name, a: Route, t: string,
                                        b: Route, u: string)
    requires Supplies(imports, start, m, n, a, t) && Supplies(imports, start, m, n, b, u)
    ensures a == b && t == u
    decreases |a|
  {
    SuppliesIsEarliest(imports, start, m, n, a, t);
    SuppliesIsEarliest(imports, start, m, n, b, u);
    SameTime(a, b);
    hide HasName, Earlier, Rounds, Earliest;
    if a != [] {
      SuppliedOnce(imports, start, From(imports, a[0]), n, a[1..], t, b[1..], u);
      assert a == [a[0]] + a[1..] && b == [b[0]] + b[1..];
    }
  }

  /** A star import of a module with the name supplies it, if the importing module does not have it and
      no star import handled earlier leads to it. */
  lemma FirstStarSupplies(imports: seq<Imports>, start: Table, p: Place, n: Name)
    requires IsImport(imports, p) && From(imports, p) in start && HasName(start[From(imports, p)], n)
    requires Into(imports, p) in start ==> !HasName(start[Into(imports, p)], n)
    requires forall q :: IsImport(imports, q) && Before(q, p) && Into(imports, q) == Into(imports, p)
                         && From(imports, q) in start ==>
               !Reachable(imports, start, From(imports, q), n)
    ensures Supplies(imports, start, Into(imports, p), n, [p], From(imports, p))
    ensures forall route, t :: Supplies(imports, start, Into(imports, p), n, route, t) ==> t == From(imports, p)
  {
    hide HasName;
    var m, u := Into(imports, p), From(imports, p);
    OwnSupplied(imports, start, u, n);
    BringsStep(imports, start, p, n, [], u);
    assert [p] + [] == [p] && [p][1..] == [];
    forall t, other | Brings(imports, start, m, n, other, t) ensures !Earlier(other, [p]) {
      RoundsAtMostSteps(other);
      if other != [] { assert Brings(imports, start, From(imports, other[0]), n, other[1..], t); }
    }
    hide Earlier, Brings, Reachable;
    assert Supplies(imports, start, m, n, [p], u);
    forall route, t | Supplies(imports, start, m, n, route, t) ensures t == u {
      SuppliedOnce(imports, start, m, n, route, t, [p], u);
    }
  }

  /** What takes no longer is in time as well. */
  lemma InTimeToo(a: Route, b: Route, r: nat, p: Place)
    requires InTime(a, r, p) && !Earlier(a, b)
    ensures InTime(b, r, p)
  {
    RoundsAtMostSteps(a);
    RoundsAtMostSteps(b);
    hide Rounds;
  }

  ghost predicate NameSupplied(imports: seq<Imports>, start: Table, m: string, n: Name) {
    exists t, route :: Supplies(imports, start, m, n, route, t)
  }

  /** A class of module `m` is, but for its qualified name, the first of its name in the module that
      supplies the name. */
  ghost predicate ClassSupplied(imports: seq<Imports>, start: Table, m: string, c: StubClass) {
    exists t, route ::
      && Supplies(imports, start, m, ClassName(c.shortName), route, t) && t in start
      && FirstCopied(start[t].classes, c)
  }

  /** The supplying route of `a` takes less time than that of `b`, or both come with the same star import
      and the module it imports has `a` before `b`. */
  ghost predicate ArrivedBefore(imports: seq<Imports>, start: Table, now: Table, m: string, kind: Kind, a: string,
                                b: string)
  {
    exists t, route, u, other ::
      && Supplies(imports, start, m, NameOf(kind, a), route, t)
      && Supplies(imports, start, m, NameOf(kind, b), other, u)
      && (Earlier(route, other) || TogetherBefore(imports, now, route, other, kind, a, b))
  }

  ghost predicate TogetherBefore(imports: seq<Imports>, now: Table, route: Route, other: Route, kind: Kind, a: string,
                                 b: string)
  {
    && route != [] && other != [] && route[0] == other[0] && Rounds(route) == Rounds(other)
    && IsImport(imports, route[0]) && From(imports, route[0]) in now
    && Precedes(NamesOf(now[From(imports, route[0])], kind), a, b)
  }

  ghost predicate AllNamesSupplied(imports: seq<Imports>, start: Table, now: Table) {
    forall m, n :: m in now && HasName(now[m], n) ==> NameSupplied(imports, start, m, n)
  }

  ghost predicate AllClassesSupplied(imports: seq<Imports>, start: Table, now: Table) {
    forall m, i :: m in now && 0 <= i < |now[m].classes| && FirstNamed(now[m].classes, i) ==>
      ClassSupplied(imports, start, m, now[m].classes[i])
  }

  /** What a module has been given stands in the order of arrival. */
  ghost predicate OrderOfArrival(imports: seq<Imports>, start: Table, now: Table) {
    forall m, kind :: m in now && m in start ==> ModuleInOrder(imports, start, now, m, kind)
  }

  ghost predicate ModuleInOrder(imports: seq<Imports>, start: Table, now: Table, m: string, kind: Kind)
    requires m in now && m in start
  {
    forall i, j :: |NamesOf(start[m], kind)| <= i < j < |NamesOf(now[m], kind)| ==>
      ArrivedBefore(imports, start, now, m, kind, NamesOf(now[m], kind)[i], NamesOf(now[m], kind)[j])
  }

  /** Everything a module has comes from where the supplying route says, in the order of arrival. */
  ghost predicate Sound(imports: seq<Imports>, start: Table, now: Table) {
    && now.Keys == start.Keys && AllNamesSupplied(imports, start, now) && AllClassesSupplied(imports, start, now)
    && OrderOfArrival(imports, start, now)
  }

  lemma OwnSupplied(imports: seq<Imports>, start: Table, m: string, n: Name)
    requires m in start && HasName(start[m], n)
    ensures Supplies(imports, start, m, n, [], m) && NameSupplied(imports, start, m, n)
  {
    hide HasName;
  }

  lemma SoundAtStart(imports: seq<Imports>, start: Table)
    ensures Sound(imports, start, start)
  {
    hide Supplies;
    forall m, n | m in start && HasName(start[m], n) ensures NameSupplied(imports, start, m, n) {
      OwnSupplied(imports, start, m, n);
    }
    forall m, i | m in start && 0 <= i < |start[m].classes| && FirstNamed(start[m].classes, i)
      ensures ClassSupplied(imports, start, m, start[m].classes[i])
    {
      var c := start[m].classes[i];
      assert HasName(start[m], ClassName(c.shortName)) && SameClass(c, c);
      OwnSupplied(imports, start, m, ClassName(c.shortName));
      assert FirstCopied(start[m].classes, c);
    }
  }

  /** A name that a star import brings for the first time is supplied along it. */
  lemma SupplyStep(imports: seq<Imports>, start: Table, now: Table, r: nat, p: Place, n: Name, route: Route, t: string)
    requires Exact(imports, start, now, r, p) && IsImport(imports, p)
    requires Into(imports, p) in now && From(imports, p) in now
    requires HasName(now[From(imports, p)], n) && !HasName(now[Into(imports, p)], n)
    requires Supplies(imports, start, From(imports, p), n, route, t)
    ensures Supplies(imports, start, Into(imports, p), n, [p] + route, t)
    ensures !InTime([p] + route, r, p) && Rounds([p] + route) == r + 1
  {
    var m, longer := Into(imports, p), [p] + route;
    assert longer[1..] == route;
    assert From(imports, p) in start;
    SuppliedInTime(imports, start, now, r, p, From(imports, p), n, route, t);
    SuppliesIsEarliest(imports, start, From(imports, p), n, route, t);
    BringsStep(imports, start, p, n, route, t);
    hide HasName, Brings, Rounds;
    InTimeStep(imports, longer, r, p);
    NotArrived(imports, start, now, r, p, m, n, longer, t);
    forall u, other | Brings(imports, start, m, n, other, u) ensures !Earlier(other, longer) {
      NotArrived(imports, start, now, r, p, m, n, other, u);
      NotEarlier(other, longer, r, p);
    }
  }

  lemma NotArrived(imports: seq<Imports>, start: Table, now: Table, r: nat, p: Place, m: string, n: Name, route: Route,
                   t: string)
    requires Exact(imports, start, now, r, p) && m in now && !HasName(now[m], n)
    requires Brings(imports, start, m, n, route, t)
    ensures !InTime(route, r, p)
  {
    hide HasName, Brings, InTime;
  }

  /** Of the routes not in time, none takes less time than one that begins with the next star import and
      is in time after it. */
  lemma NotEarlier(a: Route, b: Route, r: nat, p: Place)
    requires !InTime(a, r, p) && !InTime(b, r, p) && InTime(b, r, Place(p.entry, p.item + 1)) && b != [] && b[0] == p
    ensures !Earlier(a, b)
  {
    RoundsAtMostSteps(a);
    hide Rounds;
  }

  /** The route that supplies a name already there is in time. */
  lemma SuppliedInTime(imports: seq<Imports>, start: Table, now: Table, r: nat, p: Place, m: string, n: Name,
                       route: Route, t: string)
    requires Exact(imports, start, now, r, p) && m in now && HasName(now[m], n)
    requires Supplies(imports, start, m, n, route, t)
    ensures InTime(route, r, p)
  {
    hide HasName, Brings, InTime, Earlier;
    SuppliesIsEarliest(imports, start, m, n, route, t);
    var u, other :| Brings(imports, start, m, n, other, u) && InTime(other, r, p);
    InTimeToo(other, route, r, p);
  }

  lemma SupplyNew(imports: seq<Imports>, start: Table, now: Table, r: nat, p: Place, n: Name)
      returns (rest: Route, t: string)
    requires Exact(imports, start, now, r, p) && IsImport(imports, p)
    requires Into(imports, p) in now && From(imports, p) in now
    requires HasName(now[From(imports, p)], n) && !HasName(now[Into(imports, p)], n)
    requires NameSupplied(imports, start, From(imports, p), n)
    ensures Supplies(imports, start, Into(imports, p), n, [p] + rest, t)
    ensures !InTime([p] + rest, r, p) && Rounds([p] + rest) == r + 1
    ensures NameSupplied(imports, start, Into(imports, p), n)
  {
    hide HasName, Exact, Supplies, InTime, Rounds;
    t, rest :| Supplies(imports, start, From(imports, p), n, rest, t);
    SupplyStep(imports, start, now, r, p, n, rest, t);
  }

  lemma FirstCopiedTrans(a: seq<StubClass>, b: StubClass, c: StubClass)
    requires FirstCopied(a, b) && SameClass(b, c)
    ensures FirstCopied(a, c)
  {
    var j :| 0 <= j < |a| && SameClass(a[j], b) && FirstNamed(a, j);
    assert SameClass(a[j], c);
  }

  /** A copied class comes from where the copied one came from. */
  lemma SupplyClass(imports: seq<Imports>, start: Table, now: Table, r: nat, p: Place, c: StubClass)
    requires Exact(imports, start, now, r, p) && IsImport(imports, p) && AllClassesSupplied(imports, start, now)
    requires Into(imports, p) in now && From(imports, p) in now
    requires FirstCopied(now[From(imports, p)].classes, c) && !ClassNamed(now[Into(imports, p)].classes, c.shortName)
    ensures ClassSupplied(imports, start, Into(imports, p), c)
  {
    var u := From(imports, p);
    ClassOfName(now[u].classes, c);
    var k :| 0 <= k < |now[u].classes| && SameClass(now[u].classes[k], c) && FirstNamed(now[u].classes, k);
    var b := now[u].classes[k];
    assert ClassSupplied(imports, start, u, b);
    hide FirstCopied, FirstNamed, Exact, Supplies;
    var t, route :| Supplies(imports, start, u, ClassName(b.shortName), route, t) && t in start
                    && FirstCopied(start[t].classes, b);
    SupplyStep(imports, start, now, r, p, ClassName(c.shortName), route, t);
    FirstCopiedTrans(start[t].classes, b, c);
  }

  lemma NamesCopied(imports: seq<Imports>, start: Table, now: Table, r: nat, p: Place, after: Stubs)
    requires Exact(imports, start, now, r, p) && AllNamesSupplied(imports, start, now) && IsImport(imports, p)
    requires Into(imports, p) in now && From(imports, p) in now
    requires Copied(Into(imports, p), now[Into(imports, p)], now[From(imports, p)], after)
    ensures AllNamesSupplied(imports, start, now[Into(imports, p) := after])
  {
    hide HasName, Exact, NameSupplied, Extends, FirstCopied, InOrderOf;
    var m := Into(imports, p);
    forall n | HasName(after, n) ensures NameSupplied(imports, start, m, n) {
      if !HasName(now[m], n) { var rest, t := SupplyNew(imports, start, now, r, p, n); }
    }
  }

  lemma ClassesCopied(imports: seq<Imports>, start: Table, now: Table, r: nat, p: Place, after: Stubs)
    requires Exact(imports, start, now, r, p) && AllClassesSupplied(imports, start, now) && IsImport(imports, p)
    requires Into(imports, p) in now && From(imports, p) in now
    requires Copied(Into(imports, p), now[Into(imports, p)], now[From(imports, p)], after)
    ensures AllClassesSupplied(imports, start, now[Into(imports, p) := after])
  {
    hide HasName, Exact, ClassSupplied, FirstCopied, InOrderOf;
    var m, before := Into(imports, p), now[Into(imports, p)].classes;
    forall i | 0 <= i < |after.classes| && FirstNamed(after.classes, i)
      ensures ClassSupplied(imports, start, m, after.classes[i])
    {
      if i < |before| {
        assert after.classes[i] == before[i];
        assert forall l :: 0 <= l < i ==> after.classes[l] == before[l];
        assert FirstNamed(before, i);
      } else {
        assert !ClassNamed(before, after.classes[i].shortName) by {
          assert forall l :: 0 <= l < |before| ==> after.classes[l] == before[l];
        }
        SupplyClass(imports, start, now, r, p, after.classes[i]);
      }
    }
  }

  lemma PrecedesMore(names: seq<string>, more: seq<string>, a: string, b: string)
    requires Precedes(names, a, b) && names <= more
    ensures Precedes(more, a, b)
  {
    var k, l :| 0 <= k < l < |names| && FirstAt(names, k, a) && FirstAt(names, l, b);
    assert more[..k] == names[..k] && more[..l] == names[..l];
    assert FirstAt(more, k, a) && FirstAt(more, l, b);
  }

  lemma NamesExtend(m: string, a: Stubs, b: Stubs, kind: Kind)
    requires Extends(m, a, b)
    ensures NamesOf(a, kind) <= NamesOf(b, kind)
    ensures forall i, j :: 0 <= i < j < |NamesOf(b, kind)| && |NamesOf(a, kind)| <= j ==>
              NamesOf(b, kind)[i] != NamesOf(b, kind)[j]
  {}

  /** Names that came before still stand in order when other lists have grown. */
  lemma StillBefore(imports: seq<Imports>, start: Table, now: Table, m0: string, after: Stubs, m: string, kind: Kind,
                    a: string, b: string)
    requires m0 in now && Extends(m0, now[m0], after) && ArrivedBefore(imports, start, now, m, kind, a, b)
    ensures ArrivedBefore(imports, start, now[m0 := after], m, kind, a, b)
  {
    hide Supplies, Earlier, Precedes, NamesOf, Rounds;
    NamesExtend(m0, now[m0], after, kind);
    hide Extends;
    var t, route, u, other :|
      && Supplies(imports, start, m, NameOf(kind, a), route, t)
      && Supplies(imports, start, m, NameOf(kind, b), other, u)
      && (Earlier(route, other) || TogetherBefore(imports, now, route, other, kind, a, b));
    if !Earlier(route, other) && From(imports, route[0]) == m0 {
      PrecedesMore(NamesOf(now[m0], kind), NamesOf(after, kind), a, b);
    }
    assert Earlier(route, other) || TogetherBefore(imports, now[m0 := after], route, other, kind, a, b);
  }

  /** A new name comes after one that was there. */
  lemma NewAfterOld(imports: seq<Imports>, start: Table, now: Table, r: nat, p: Place, after: Stubs, kind: Kind,
                    a: string, b: string)
    requires Exact(imports, start, now, r, p) && AllNamesSupplied(imports, start, now) && IsImport(imports, p)
    requires Into(imports, p) in now && From(imports, p) in now
    requires HasName(now[Into(imports, p)], NameOf(kind, a)) && !HasName(now[Into(imports, p)], NameOf(kind, b))
    requires HasName(now[From(imports, p)], NameOf(kind, b))
    ensures ArrivedBefore(imports, start, now[Into(imports, p) := after], Into(imports, p), kind, a, b)
  {
    var m := Into(imports, p);
    assert NameSupplied(imports, start, m, NameOf(kind, a));
    hide HasName, Exact, Supplies, InTime, Earlier, TogetherBefore;
    var t, route :| Supplies(imports, start, m, NameOf(kind, a), route, t);
    SuppliedInTime(imports, start, now, r, p, m, NameOf(kind, a), route, t);
    var rest, u := SupplyNew(imports, start, now, r, p, NameOf(kind, b));
    if !Earlier(route, [p] + rest) { InTimeToo(route, [p] + rest, r, p); }
  }

  /** Two new names come in the order of the module they are copied from. */
  lemma NewTogether(imports: seq<Imports>, start: Table, now: Table, r: nat, p: Place, after: Stubs, kind: Kind,
                    a: string, b: string)
    requires Exact(imports, start, now, r, p) && AllNamesSupplied(imports, start, now) && IsImport(imports, p)
    requires Into(imports, p) in now && From(imports, p) in now && From(imports, p) != Into(imports, p)
    requires !HasName(now[Into(imports, p)], NameOf(kind, a)) && !HasName(now[Into(imports, p)], NameOf(kind, b))
    requires HasName(now[From(imports, p)], NameOf(kind, a)) && HasName(now[From(imports, p)], NameOf(kind, b))
    requires Precedes(NamesOf(now[From(imports, p)], kind), a, b)
    ensures ArrivedBefore(imports, start, now[Into(imports, p) := after], Into(imports, p), kind, a, b)
  {
    var m := Into(imports, p);
    hide HasName, Exact, Supplies, InTime, Precedes, Earlier, NamesOf, Rounds;
    assert NameSupplied(imports, start, From(imports, p), NameOf(kind, a));
    assert NameSupplied(imports, start, From(imports, p), NameOf(kind, b));
    hide AllNamesSupplied, NameSupplied, NameOf;
    var rest, t := SupplyNew(imports, start, now, r, p, NameOf(kind, a));
    var more, u := SupplyNew(imports, start, now, r, p, NameOf(kind, b));
    assert TogetherBefore(imports, now[m := after], [p] + rest, [p] + more, kind, a, b);
  }

  lemma OrderCopied(imports: seq<Imports>, start: Table, now: Table, r: nat, p: Place, after: Stubs, kind: Kind)
    requires Exact(imports, start, now, r, p) && AllNamesSupplied(imports, start, now) && IsImport(imports, p)
    requires Into(imports, p) in now && From(imports, p) in now && Into(imports, p) in start
    requires Copied(Into(imports, p), now[Into(imports, p)], now[From(imports, p)], after)
    requires ModuleInOrder(imports, start, now, Into(imports, p), kind)
    ensures ModuleInOrder(imports, start, now[Into(imports, p) := after], Into(imports, p), kind)
  {
    var m, u := Into(imports, p), From(imports, p);
    var names, before, n0 := NamesOf(after, kind), NamesOf(now[m], kind), |NamesOf(start[m], kind)|;
    NamesExtend(m, now[m], after, kind);
    assert InOrderOf(NamesOf(now[u], kind), names, |before|);
    forall name
      ensures HasName(now[m], NameOf(kind, name)) <==> name in before
      ensures HasName(now[u], NameOf(kind, name)) <==> name in NamesOf(now[u], kind)
    {
      NameIsListed(now[m], kind, name);
      NameIsListed(now[u], kind, name);
    }
    hide HasName, Exact, AllNamesSupplied, ArrivedBefore, Precedes, Extends, FirstCopied, NamesOf, NameOf;
    forall i | |before| <= i < |names| ensures names[i] !in before && names[i] in NamesOf(now[u], kind) {
      assert forall l :: 0 <= l < |before| ==> names[l] == before[l];
    }
    forall i, j | n0 <= i < j < |names|
      ensures ArrivedBefore(imports, start, now[m := after], m, kind, names[i], names[j])
    {
      if j < |before| {
        assert names[i] == before[i] && names[j] == before[j];
        StillBefore(imports, start, now, m, after, m, kind, names[i], names[j]);
      } else if i < |before| {
        assert names[i] == before[i];
        NewAfterOld(imports, start, now, r, p, after, kind, names[i], names[j]);
      } else {
        NewTogether(imports, start, now, r, p, after, kind, names[i], names[j]);
      }
    }
  }

  lemma OthersInOrder(imports: seq<Imports>, start: Table, now: Table, m0: string, after: Stubs, m: string, kind: Kind)
    requires m0 in now && Extends(m0, now[m0], after) && m in now && m in start && m != m0
    requires ModuleInOrder(imports, start, now, m, kind)
    ensures ModuleInOrder(imports, start, now[m0 := after], m, kind)
  {
    hide Extends, ArrivedBefore, NamesOf;
    var names := NamesOf(now[m], kind);
    forall i, j | |NamesOf(start[m], kind)| <= i < j < |names|
      ensures ArrivedBefore(imports, start, now[m0 := after], m, kind, names[i], names[j])
    {
      StillBefore(imports, start, now, m0, after, m, kind, names[i], names[j]);
    }
  }

  lemma SoundCopy(imports: seq<Imports>, start: Table, now: Table, r: nat, p: Place, after: Stubs)
    requires Exact(imports, start, now, r, p) && Sound(imports, start, now) && IsImport(imports, p)
    requires Into(imports, p) in now && From(imports, p) in now
    requires Copied(Into(imports, p), now[Into(imports, p)], now[From(imports, p)], after)
    ensures Sound(imports, start, now[Into(imports, p) := after])
  {
    var m0 := Into(imports, p);
    assert Extends(m0, now[m0], after);
    hide Exact, AllNamesSupplied, AllClassesSupplied, ModuleInOrder, Copied, Extends;
    NamesCopied(imports, start, now, r, p, after);
    ClassesCopied(imports, start, now, r, p, after);
    var now' := now[m0 := after];
    assert now'.Keys == now.Keys;
    forall m, kind | m in now' && m in start ensures ModuleInOrder(imports, start, now', m, kind) {
      if m == m0 {
        OrderCopied(imports, start, now, r, p, after, kind);
      } else {
        OthersInOrder(imports, start, now, m0, after, m, kind);
      }
    }
  }

  lemma GrownTrans(a: Table, b: Table, c: Table)
    requires Grown(a, b) && Grown(b, c)
    ensures Grown(a, c)
  {
    hide Extends;
    forall m | m in a ensures Extends(m, a[m], c[m]) { ExtendsTrans(m, a[m], b[m], c[m]); }
  }

  lemma GrownCopy(before: Table, now: Table, m: string, after: Stubs)
    requires Grown(before, now) && m in now && Extends(m, now[m], after)
    ensures Grown(before, now[m := after])
  {
    hide Extends;
    assert now[m := after].Keys == now.Keys;
    ExtendsTrans(m, before[m], now[m], after);
  }

  /** A round in progress. */
  ghost predicate RoundSoFar(imports: seq<Imports>, start: Table, before: Table, now: Table, r: nat, next: Place,
                             changed: bool)
  {
    && Exact(imports, start, now, r, next) && Sound(imports, start, now) && Grown(before, now)
    && (!changed ==> now == before)
  }

  lemma CopyStep(imports: seq<Imports>, start: Table, before: Table, now: Table, r: nat, p: Place, changed: bool,
                 after: Stubs)
    requires RoundSoFar(imports, start, before, now, r, p, changed) && IsImport(imports, p)
    requires Into(imports, p) in now && From(imports, p) in now
    requires Copied(Into(imports, p), now[Into(imports, p)], now[From(imports, p)], after)
    ensures RoundSoFar(imports, start, before, now[Into(imports, p) := after], r, Place(p.entry, p.item + 1),
                       changed || after != now[Into(imports, p)])
  {
    hide Exact, Sound, Grown, HasName, Extends, FirstCopied, InOrderOf;
    ExactCopy(imports, start, now, r, p, after);
    SoundCopy(imports, start, now, r, p, after);
    GrownCopy(before, now, Into(imports, p), after);
    assert after == now[Into(imports, p)] ==> now[Into(imports, p) := after] == now;
  }

  lemma SkipStep(imports: seq<Imports>, start: Table, before: Table, now: Table, r: nat, p: Place, changed: bool)
    requires RoundSoFar(imports, start, before, now, r, p, changed) && IsImport(imports, p)
    requires From(imports, p) !in now
    ensures RoundSoFar(imports, start, before, now, r, Place(p.entry, p.item + 1), changed)
  {
    assert now.Keys == start.Keys;
    hide Exact, Sound, Grown;
    ExactSkip(imports, start, now, r, p);
  }

  // ---- A round that changes nothing ----

  /** Every module has the names of the modules it star-imports. */
  ghost predicate Closed(imports: seq<Imports>, now: Table) {
    forall p, n :: (IsImport(imports, p) && Into(imports, p) in now && From(imports, p) in now
                    && HasName(now[From(imports, p)], n)) ==> HasName(now[Into(imports, p)], n)
  }

  lemma UnchangedIsClosed(imports: seq<Imports>, start: Table, now: Table, r: nat)
    requires Exact(imports, start, now, r, START) && Exact(imports, start, now, r + 1, START)
    ensures Closed(imports, now)
  {
    hide HasName;
    forall p, n | IsImport(imports, p) && Into(imports, p) in now && From(imports, p) in now
                  && HasName(now[From(imports, p)], n)
      ensures HasName(now[Into(imports, p)], n)
    {
      var t, route :| Brings(imports, start, From(imports, p), n, route, t) && InTime(route, r, START);
      BringsStep(imports, start, p, n, route, t);
      assert ([p] + route)[1..] == route;
      assert InTime([p] + route, r + 1, START);
    }
  }

  /** In a closed table a name has come along every route. */
  lemma {:induction false} ClosedAlong(imports: seq<Imports>, start: Table, now: Table, m: string, n: Name,
                                       route: Route, t: string)
    requires Closed(imports, now) && now.Keys == start.Keys && m in now && Brings(imports, start, m, n, route, t)
    requires forall u :: u in now && HasName(start[u], n) ==> HasName(now[u], n)
    ensures HasName(now[m], n)
    decreases |route|
  {
    hide HasName;
    if route != [] {
      ClosedAlong(imports, start, now, From(imports, route[0]), n, route[1..], t);
    }
  }

  // ---- The whole loop ----

  lemma ExtendsKeepsNames(start: Table, now: Table, n: Name)
    requires Grown(start, now)
    ensures forall u :: u in now && HasName(start[u], n) ==> HasName(now[u], n)
  {
    hide HasName, Extends;
    forall u | u in now && HasName(start[u], n) ensures HasName(now[u], n) {
      ExtendsKeeps(u, start[u], now[u], n);
    }
  }

  /** After `r` rounds, the last of which changed nothing unless `changed`. */
  ghost predicate Resolved(imports: seq<Imports>, start: Table, now: Table, r: nat, changed: bool) {
    && Exact(imports, start, now, r, START) && Sound(imports, start, now) && Grown(start, now)
    && (!changed ==> Closed(imports, now))
  }

  lemma StartResolved(imports: seq<Imports>, start: Table)
    ensures Resolved(imports, start, start, 0, true)
  {
    ExactAtStart(imports, start);
    SoundAtStart(imports, start);
  }

  lemma RoundResolved(imports: seq<Imports>, start: Table, before: Table, now: Table, r: nat, changed: bool)
    requires Resolved(imports, start, before, r, true)
    requires RoundSoFar(imports, start, before, now, r, Place(|imports|, 0), changed)
    ensures Resolved(imports, start, now, r + 1, changed)
  {
    hide Exact, Sound, Grown, Closed;
    ExactNextRound(imports, start, now, r);
    GrownTrans(start, before, now);
    if !changed { UnchangedIsClosed(imports, start, now, r); }
  }

  /** Whenever the loop ends, the names are those that eight rounds can bring; when it ended because
      nothing changed, they are all that are reachable. */
  lemma FinalNames(imports: seq<Imports>, start: Table, now: Table, r: nat, changed: bool, m: string, n: Name)
    requires Resolved(imports, start, now, r, changed) && m in now
    requires r <= MAX_ROUNDS && (changed ==> r == MAX_ROUNDS)
    ensures HasName(now[m], n) <==> Arrives(imports, start, m, n, MAX_ROUNDS)
    ensures !changed ==> (HasName(now[m], n) <==> Reachable(imports, start, m, n))
  {
    hide HasName, Brings, Extends, Rounds;
    ArrivedAtStart(imports, start, m, n, r);
    if !changed && Reachable(imports, start, m, n) {
      var t, route :| Brings(imports, start, m, n, route, t);
      ExtendsKeepsNames(start, now, n);
      ClosedAlong(imports, start, now, m, n, route, t);
    }
    if Arrives(imports, start, m, n, r) {
      var t, route :| Brings(imports, start, m, n, route, t) && Rounds(route) <= r;
    }
    if Arrives(imports, start, m, n, MAX_ROUNDS) {
      var t, route :| Brings(imports, start, m, n, route, t) && Rounds(route) <= MAX_ROUNDS;
    }
  }

  class Resolver {
    var modules: Table
    const imports: seq<Imports>

    /** Every entry of the import table belongs to a gathered module. */
    ghost predicate Valid()
      reads this
    {
      forall i :: 0 <= i < |imports| ==> imports[i].moduleQn in modules
    }

    constructor (modules: Table, imports: seq<Imports>)
      requires forall i :: 0 <= i < |imports| ==> imports[i].moduleQn in modules
      ensures Valid() && this.modules == modules && this.imports == imports
    {
      this.modules, this.imports := modules, imports;
    }

    /** One pass over all star imports, in place. */
    method RunRound(ghost start: Table, ghost r: nat) returns (changed: bool)
      requires Valid() && Resolved(imports, start, modules, r, true)
      modifies this`modules
      ensures Valid() && RoundSoFar(imports, start, old(modules), modules, r, Place(|imports|, 0), changed)
    {
      hide Exact, Sound, Grown;
      NothingGrown(modules);
      changed := false;
      for i := 0 to |imports|
        invariant Valid() && RoundSoFar(imports, start, old(modules), modules, r, Place(i, 0), changed)
      {
        for j := 0 to |imports[i].targets|
          invariant Valid() && RoundSoFar(imports, start, old(modules), modules, r, Place(i, j), changed)
        {
          changed := HandleStar(i, j, changed, start, old(modules), r);
        }
        ExactNextEntry(imports, start, modules, r, i);
      }
    }

    /** The body of the loop over the star imports of one module. */
    method HandleStar(i: nat, j: nat, changed0: bool, ghost start: Table, ghost before: Table, ghost r: nat)
        returns (changed: bool)
      requires Valid() && i < |imports| && j < |imports[i].targets|
      requires RoundSoFar(imports, start, before, modules, r, Place(i, j), changed0)
      modifies this`modules
      ensures Valid() && RoundSoFar(imports, start, before, modules, r, Place(i, j + 1), changed)
    {
      hide RoundSoFar, Copied;
      var m, t := imports[i].moduleQn, imports[i].targets[j];
      changed := changed0;
      if t !in modules {
        SkipStep(imports, start, before, modules, r, Place(i, j), changed);
        return;
      }
      var after, added := CopyStar(m, modules[m], modules[t]);
      CopyStep(imports, start, before, modules, r, Place(i, j), changed, after);
      modules := modules[m := after];
      changed := changed || added;
    }

    /** `resolve_reexports`. For every order of the import table each module ends up with exactly the
        names that take at most eight rounds to reach it; its own entries stay first and unchanged, and
        what it was given stands in the order of arrival, every class being that of the module which
        supplies its name. If the loop ended because a round changed nothing, the names are all the
        reachable ones. */
    method ResolveReexports() returns (settled: bool)
      requires Valid()
      modifies this`modules
      ensures Valid() && Grown(old(modules), modules) && OrderOfArrival(imports, old(modules), modules)
      ensures forall m, i :: m in modules && |old(modules)[m].classes| <= i < |modules[m].classes| ==>
                ClassSupplied(imports, old(modules), m, modules[m].classes[i])
      ensures forall m, n :: m in modules ==>
                (HasName(modules[m], n) <==> Arrives(imports, old(modules), m, n, 8))
      ensures settled ==> forall m, n :: m in modules ==>
                (HasName(modules[m], n) <==> Reachable(imports, old(modules), m, n))
    {
      hide Resolved, Sound, Arrives, Reachable, HasName, Grown, RoundSoFar, ClassSupplied, OrderOfArrival;
      ghost var start := modules;
      var changed := true;
      var iterCount := 0;
      StartResolved(imports, start);
      while changed && iterCount < MAX_ROUNDS
        invariant Valid() && iterCount <= MAX_ROUNDS
        invariant Resolved(imports, start, modules, iterCount, changed)
        decreases MAX_ROUNDS - iterCount
      {
        ghost var before := modules;
        changed := RunRound(start, iterCount);
        RoundResolved(imports, start, before, modules, iterCount, changed);
        iterCount := iterCount + 1;
      }
      settled := !changed;
      ResolvedFacts(imports, start, modules, iterCount, changed);
      forall m, n | m in modules
        ensures HasName(modules[m], n) <==> Arrives(imports, start, m, n, MAX_ROUNDS)
        ensures settled ==> (HasName(modules[m], n) <==> Reachable(imports, start, m, n))
      {
        FinalNames(imports, start, modules, iterCount, changed, m, n);
      }
    }
  }

  lemma NothingGrown(table: Table)
    ensures Grown(table, table)
  {}

  lemma ResolvedFacts(imports: seq<Imports>, start: Table, now: Table, r: nat, changed: bool)
    requires Resolved(imports, start, now, r, changed)
    ensures Grown(start, now) && OrderOfArrival(imports, start, now)
    ensures forall m, i :: m in now && |start[m].classes| <= i < |now[m].classes| ==>
              ClassSupplied(imports, start, m, now[m].classes[i])
  {
    hide ClassSupplied, OrderOfArrival, HasName, Exact, Closed;
    forall m, i | m in now && |start[m].classes| <= i < |now[m].classes|
      ensures ClassSupplied(imports, start, m, now[m].classes[i])
    {
      assert Extends(m, start[m], now[m]);
      assert FirstNamed(now[m].classes, i);
    }
  }

  // ---- When the fixed point is reached ----

  /** The promised fixed point, for a table the loop can end with. */
  ghost predicate IsClosure(imports: seq<Imports>, start: Table, now: Table) {
    forall m, n :: m in now ==> (HasName(now[m], n) <==> Reachable(imports, start, m, n))
  }

  /** The promise is kept exactly when every reachable name is at most eight rounds away. */
  lemma FixedPointExactly(imports: seq<Imports>, start: Table, now: Table, r: nat, changed: bool)
    requires Resolved(imports, start, now, r, changed)
    requires r <= MAX_ROUNDS && (changed ==> r == MAX_ROUNDS)
    ensures IsClosure(imports, start, now)
            <==> forall m, n :: m in start && Reachable(imports, start, m, n) ==>
                   Arrives(imports, start, m, n, MAX_ROUNDS)
  {
    assert now.Keys == start.Keys;
    hide Resolved, HasName, Arrives, Reachable;
    forall m, n | m in now
      ensures HasName(now[m], n) <==> Arrives(imports, start, m, n, MAX_ROUNDS)
      ensures Arrives(imports, start, m, n, MAX_ROUNDS) ==> Reachable(imports, start, m, n)
    {
      FinalNames(imports, start, now, r, changed, m, n);
      ArrivesIsReachable(imports, start, m, n, MAX_ROUNDS);
    }
  }

  lemma ArrivesIsReachable(imports: seq<Imports>, start: Table, m: string, n: Name, r: nat)
    ensures Arrives(imports, start, m, n, r) ==> Reachable(imports, start, m, n)
  {
    hide Brings, Rounds;
  }

  /** Reachable by at most `k` star imports. */
  ghost predicate Near(imports: seq<Imports>, start: Table, m: string, n: Name, k: nat) {
    exists t, route :: Brings(imports, start, m, n, route, t) && |route| <= k
  }

  /** Whatever the order, eight star imports are not too many. */
  lemma NearArrives(imports: seq<Imports>, start: Table, m: string, n: Name, k: nat)
    requires Near(imports, start, m, n, k)
    ensures Arrives(imports, start, m, n, k)
  {
    hide Brings, Rounds;
    var t, route :| Brings(imports, start, m, n, route, t) && |route| <= k;
    RoundsAtMostSteps(route);
  }

  /** Each module is handled once, and only star-imported by modules handled before it. */
  ghost predicate ForwardOnly(imports: seq<Imports>) {
    forall i, j :: 0 <= i <= j < |imports| ==>
      imports[i].moduleQn !in imports[j].targets && (i < j ==> imports[i].moduleQn != imports[j].moduleQn)
  }

  /** Each module is handled once, and only star-imports modules handled before it. */
  ghost predicate BackwardOnly(imports: seq<Imports>) {
    forall i, j :: 0 <= i <= j < |imports| ==>
      imports[j].moduleQn !in imports[i].targets && (i < j ==> imports[i].moduleQn != imports[j].moduleQn)
  }

  lemma {:induction false} ForwardRounds(imports: seq<Imports>, start: Table, m: string, route: Route, t: string)
    requires ForwardOnly(imports) && Leads(imports, start, m, route, t)
    ensures Rounds(route) == |route|
    decreases |route|
  {
    if |route| > 1 {
      ForwardRounds(imports, start, From(imports, route[0]), route[1..], t);
      var p, q := route[0], route[1];
      assert Into(imports, q) == From(imports, p) == imports[p.entry].targets[p.item];
      assert imports[q.entry].moduleQn in imports[p.entry].targets;
    }
  }

  lemma {:induction false} BackwardRounds(imports: seq<Imports>, start: Table, m: string, route: Route, t: string)
    requires BackwardOnly(imports) && Leads(imports, start, m, route, t)
    ensures Rounds(route) <= 1
    decreases |route|
  {
    if |route| > 1 {
      BackwardRounds(imports, start, From(imports, route[0]), route[1..], t);
      var p, q := route[0], route[1];
      assert Into(imports, q) == From(imports, p) == imports[p.entry].targets[p.item];
      assert imports[q.entry].moduleQn in imports[p.entry].targets;
    }
  }

  /** In forward order each star import costs a round. */
  lemma ForwardExactly(imports: seq<Imports>, start: Table, m: string, n: Name, k: nat)
    requires ForwardOnly(imports)
    ensures Arrives(imports, start, m, n, k) <==> Near(imports, start, m, n, k)
  {
    hide HasName, Rounds, Leads, ForwardOnly;
    if Near(imports, start, m, n, k) { NearArrives(imports, start, m, n, k); }
    if Arrives(imports, start, m, n, k) {
      var t, route :| Brings(imports, start, m, n, route, t) && Rounds(route) <= k;
      ForwardRounds(imports, start, m, route, t);
    }
  }

  /** In backward order one round does everything, however long the chains. */
  lemma BackwardExactly(imports: seq<Imports>, start: Table, m: string, n: Name)
    requires BackwardOnly(imports)
    ensures Reachable(imports, start, m, n) <==> Arrives(imports, start, m, n, 1)
  {
    hide HasName, Rounds, Leads, BackwardOnly;
    ArrivesIsReachable(imports, start, m, n, 1);
    if Reachable(imports, start, m, n) {
      var t, route :| Brings(imports, start, m, n, route, t);
      BackwardRounds(imports, start, m, route, t);
    }
  }

  // ---- A chain longer than the cap ----

  /** The i-th module of the chain. */
  function Link(i: nat): (m: string)
    ensures |m| == i && forall k :: 0 <= k < i ==> m[k] == 'x'
  {
    seq(i, _ => 'x')
  }

  /** Module i star-imports module i + 1; only the last of the n + 1 modules defines anything. */
  function ChainImports(n: nat): seq<Imports> {
    seq(n, i requires 0 <= i < n => Imports(Link(i), [Link(i + 1)]))
  }

  ghost function ChainTable(n: nat): Table {
    map m | m in (set i | 0 <= i <= n :: Link(i)) ::
      Stubs([], if |m| == n then [StubFunction("far", "far", Link(n))] else [])
  }

  /** The only way from one module of the chain to another. */
  lemma {:induction false} ChainSteps(n: nat, m: string, route: Route, t: string)
    requires Leads(ChainImports(n), ChainTable(n), m, route, t)
    ensures |t| == |m| + |route|
    decreases |route|
  {
    if route != [] {
      assert |From(ChainImports(n), route[0])| == |m| + 1;
      ChainSteps(n, From(ChainImports(n), route[0]), route[1..], t);
    }
  }

  lemma {:induction false} ChainReaches(n: nat, i: nat) returns (route: Route)
    requires i <= n
    ensures Leads(ChainImports(n), ChainTable(n), Link(i), route, Link(n))
    decreases n - i
  {
    route := [];
    if i < n {
      var rest := ChainReaches(n, i + 1);
      assert ChainImports(n)[i] == Imports(Link(i), [Link(i + 1)]);
      route := [Place(i, 0)] + rest;
      assert route[1..] == rest;
    }
  }

  lemma ChainForward(n: nat)
    ensures ForwardOnly(ChainImports(n))
  {
    var imports := ChainImports(n);
    forall i, j | 0 <= i <= j < n
      ensures imports[i].moduleQn !in imports[j].targets && (i < j ==> imports[i].moduleQn != imports[j].moduleQn)
    {
      assert |imports[i].moduleQn| == i && |imports[j].moduleQn| == j && imports[j].targets == [Link(j + 1)];
      assert |Link(j + 1)| == j + 1;
    }
  }

  /** Only the last module has the name. */
  lemma FarIsLast(n: nat, t: string)
    requires t in ChainTable(n)
    ensures HasName(ChainTable(n)[t], FunctionName("far")) <==> |t| == n
  {
    if |t| == n { assert ChainTable(n)[t].functions[0].shortName == "far"; }
  }

  /** In the chain the last module's name reaches the first exactly if the chain is no longer than the
      cap, so with nine or more star imports the promised fixed point is missed. */
  lemma ChainExactly(n: nat)
    ensures Link(0) in ChainTable(n)
    ensures Reachable(ChainImports(n), ChainTable(n), Link(0), FunctionName("far"))
    ensures Arrives(ChainImports(n), ChainTable(n), Link(0), FunctionName("far"), 8) <==> n <= 8
  {
    var imports, table, far := ChainImports(n), ChainTable(n), FunctionName("far");
    var route := ChainReaches(n, 0);
    assert Link(0) in table && Link(n) in table;
    FarIsLast(n, Link(n));
    ChainForward(n);
    hide ChainImports, ChainTable, ForwardOnly, HasName, Rounds;
    ChainSteps(n, Link(0), route, Link(n));
    assert Brings(imports, table, Link(0), far, route, Link(n));
    ForwardExactly(imports, table, Link(0), far, MAX_ROUNDS);
    if Near(imports, table, Link(0), far, MAX_ROUNDS) {
      var t, other :| Brings(imports, table, Link(0), far, other, t) && |other| <= MAX_ROUNDS;
      FarIsLast(n, t);
      ChainSteps(n, Link(0), other, t);
    }
  }
}
