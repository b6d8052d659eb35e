/** The worklist of scripts/gen-py-stdlib.py that gathers the modules star imports lead to. It is a stack:
    the modules listed first at the bottom, what star imports call for above them. */
module StubWorklist {
  import opened Basics
  import opened StarReexports

  type File = string

  /** What `parse_module` returns for a file under a module name. */
  datatype Parsed = Parsed(stubs: Stubs, stars: seq<string>)

  type Parser = (File, string) -> Parsed

  type Queue = seq<(File, string)>

  ghost predicate Waiting(queue: Queue, m: string) {
    exists i :: 0 <= i < |queue| && queue[i].1 == m
  }

  // ---- Why and when a module is parsed ----

  /** A module with a file that one of `parsed` star-imports. */
  ghost predicate StarCalled(m: string, files: map<string, File>, parsed: seq<string>, modules: map<string, Parsed>) {
    m in files && exists u :: u in parsed && u in modules && m in modules[u].stars
  }

  /** Whatever has a file and is star-imported by one of `parsed` is one of them. */
  ghost predicate AllReached(files: map<string, File>, parsed: seq<string>, modules: map<string, Parsed>) {
    forall u, t :: u in parsed && u in modules && t in modules[u].stars && t in files ==> t in parsed
  }

  /** It is the turn of item `i` of the first: all listed after it are done, and all they lead to. */
  ghost predicate TurnOf(first: Queue, i: nat, files: map<string, File>, parsed: seq<string>,
                         modules: map<string, Parsed>)
  {
    i < |first| && (forall j :: i < j < |first| ==> first[j].1 in parsed) && AllReached(files, parsed, modules)
  }

  /** After `parsed`, module `m` is parsed with result `p`: called for by a star import, from the file found
      for it, or in its turn among the first, from the file listed with it. */
  ghost predicate Called(m: string, p: Parsed, first: Queue, parse: Parser, files: map<string, File>,
                         parsed: seq<string>, modules: map<string, Parsed>)
  {
    || (StarCalled(m, files, parsed, modules) && p == parse(files[m], m))
    || exists i: nat :: TurnOf(first, i, files, parsed, modules) && first[i].1 == m && p == parse(first[i].0, m)
  }

  ghost predicate EachCalled(first: Queue, parse: Parser, files: map<string, File>, parsed: seq<string>,
                             modules: map<string, Parsed>)
  {
    forall k :: 0 <= k < |parsed| ==>
      parsed[k] in modules && Called(parsed[k], modules[parsed[k]], first, parse, files, parsed[..k], modules)
  }

  lemma CalledMore(m: string, p: Parsed, first: Queue, parse: Parser, files: map<string, File>, parsed: seq<string>,
                   modules: map<string, Parsed>, u: string, q: Parsed)
    requires Called(m, p, first, parse, files, parsed, modules) && u !in modules
    requires forall x :: x in parsed ==> x in modules
    ensures Called(m, p, first, parse, files, parsed, modules[u := q])
  {
    var more := modules[u := q];
    assert forall x :: x in parsed ==> more[x] == modules[x];
    if !(StarCalled(m, files, parsed, modules) && p == parse(files[m], m)) {
      var i: nat :| TurnOf(first, i, files, parsed, modules) && first[i].1 == m && p == parse(first[i].0, m);
      assert TurnOf(first, i, files, parsed, more);
    }
  }

  lemma EachCalledMore(first: Queue, parse: Parser, files: map<string, File>, parsed: seq<string>,
                       modules: map<string, Parsed>, u: string, p: Parsed)
    requires EachCalled(first, parse, files, parsed, modules) && u !in modules
    requires Called(u, p, first, parse, files, parsed, modules)
    ensures EachCalled(first, parse, files, parsed + [u], modules[u := p])
  {
    hide Called;
    var more := parsed + [u];
    forall k | 0 <= k < |more|
      ensures more[k] in modules[u := p]
      ensures Called(more[k], modules[u := p][more[k]], first, parse, files, more[..k], modules[u := p])
    {
      assert more[..k] == parsed[..k];
      assert k == |parsed| ==> parsed[..k] == parsed;
      CalledMore(more[k], modules[u := p][more[k]], first, parse, files, parsed[..k], modules, u, p);
    }
  }

  /** A module that no gathered module star-imports is parsed from the file listed last for it, after all
      modules listed behind it. */
  lemma ParsedInTurn(first: Queue, parse: Parser, files: map<string, File>, parsed: seq<string>,
                     modules: map<string, Parsed>, k: nat)
    requires EachCalled(first, parse, files, parsed, modules) && Distinct(parsed) && k < |parsed|
    requires forall u :: u in modules ==> parsed[k] !in modules[u].stars
    ensures exists i :: 0 <= i < |first| && first[i].1 == parsed[k]
                        && modules[parsed[k]] == parse(first[i].0, parsed[k])
                        && forall j :: i < j < |first| ==> first[j].1 != parsed[k] && first[j].1 in parsed[..k]
  {
    var m := parsed[k];
    assert Called(m, modules[m], first, parse, files, parsed[..k], modules);
    var i: nat :| TurnOf(first, i, files, parsed[..k], modules) && first[i].1 == m
                  && modules[m] == parse(first[i].0, m);
    assert m !in parsed[..k];
  }

  lemma CalledBy(first: Queue, parse: Parser, files: map<string, File>, parsed: seq<string>,
                 modules: map<string, Parsed>, k: nat) returns (j: nat)
    requires EachCalled(first, parse, files, parsed, modules) && k < |parsed| && !Waiting(first, parsed[k])
    ensures j < k && parsed[j] in modules && parsed[k] in modules[parsed[j]].stars && parsed[k] in files
  {
    assert Called(parsed[k], modules[parsed[k]], first, parse, files, parsed[..k], modules);
    assert forall i :: 0 <= i < |first| ==> first[i].1 != parsed[k];
    assert StarCalled(parsed[k], files, parsed[..k], modules);
    hide EachCalled, Waiting;
    var u :| u in parsed[..k] && u in modules && parsed[k] in modules[u].stars;
    j :| 0 <= j < k && parsed[..k][j] == u;
  }

  /** So nothing is gathered that is not needed: any set with the first modules that is closed under the
      star imports of what was gathered holds all of it. */
  lemma {:induction false} GatheredIsLeast(first: Queue, parse: Parser, files: map<string, File>, parsed: seq<string>,
                                           modules: map<string, Parsed>, closed: set<string>, k: nat)
    requires EachCalled(first, parse, files, parsed, modules) && k < |parsed|
    requires forall m :: Waiting(first, m) ==> m in closed
    requires forall u, t :: u in closed && u in modules && t in modules[u].stars && t in files ==> t in closed
    ensures parsed[k] in closed
  {
    if !Waiting(first, parsed[k]) {
      var j := CalledBy(first, parse, files, parsed, modules, k);
      hide EachCalled, Waiting;
      GatheredIsLeast(first, parse, files, parsed, modules, closed, j);
    }
  }

  // ---- The worklist between two steps ----

  /** The first `n` targets with a file have been gathered or are waiting above the first modules. */
  ghost predicate TargetsKept(stars: seq<string>, n: nat, files: map<string, File>, modules: map<string, Parsed>,
                              extra: Queue)
    requires n <= |stars|
  {
    forall i :: 0 <= i < n && stars[i] in files ==> stars[i] in modules || Waiting(extra, stars[i])
  }

  /** The first `q` of the first modules wait, and above them `extra`. Every gathered module has its targets
      gathered or waiting, except perhaps the one that is being worked on. */
  ghost predicate Gathering(except: Option<string>, first: Queue, q: nat, parse: Parser, files: map<string, File>,
                            modules: map<string, Parsed>, parsed: seq<string>, extra: Queue, seen: set<string>)
  {
    && q <= |first| && (forall j :: q <= j < |first| ==> first[j].1 in modules)
    && ExtraCalled(files, modules, parsed, extra) && NoneLost(files, modules, extra, seen)
    && OthersKept(except, files, modules, extra)
    && Distinct(parsed) && (forall u :: u in parsed <==> u in modules)
    && EachCalled(first, parse, files, parsed, modules)
  }

  ghost predicate ExtraCalled(files: map<string, File>, modules: map<string, Parsed>, parsed: seq<string>, extra: Queue)
  {
    forall i :: 0 <= i < |extra| ==> CalledItem(extra[i], files, modules, parsed)
  }

  ghost predicate CalledItem(item: (File, string), files: map<string, File>, modules: map<string, Parsed>,
                             parsed: seq<string>)
  {
    StarCalled(item.1, files, parsed, modules) && files[item.1] == item.0
  }

  ghost predicate NoneLost(files: map<string, File>, modules: map<string, Parsed>, extra: Queue, seen: set<string>) {
    forall t :: t in seen && t in files ==> t in modules || Waiting(extra, t)
  }

  ghost predicate OthersKept(except: Option<string>, files: map<string, File>, modules: map<string, Parsed>,
                             extra: Queue)
  {
    forall u :: u in modules && except != Some(u) ==>
      TargetsKept(modules[u].stars, |modules[u].stars|, files, modules, extra)
  }

  lemma WaitingMore(queue: Queue, item: (File, string), m: string)
    ensures Waiting(queue + [item], m) <==> Waiting(queue, m) || m == item.1
  {
    var more := queue + [item];
    assert more[|queue|] == item && forall i :: 0 <= i < |queue| ==> more[i] == queue[i];
  }

  lemma StartGathering(first: Queue, parse: Parser, files: map<string, File>)
    ensures Gathering(None, first, |first|, parse, files, map[], [], [], {})
  {}

  /** An item of a module gathered before is dropped. */
  lemma DropExtra(first: Queue, q: nat, parse: Parser, files: map<string, File>, modules: map<string, Parsed>,
                  parsed: seq<string>, extra: Queue, seen: set<string>, item: (File, string))
    requires Gathering(None, first, q, parse, files, modules, parsed, extra + [item], seen) && item.1 in modules
    ensures Gathering(None, first, q, parse, files, modules, parsed, extra, seen)
  {
    hide Waiting, CalledItem, EachCalled;
    forall m ensures Waiting(extra + [item], m) <==> Waiting(extra, m) || m == item.1 {
      WaitingMore(extra, item, m);
    }
    forall i | 0 <= i < |extra| ensures CalledItem(extra[i], files, modules, parsed) {
      assert (extra + [item])[i] == extra[i];
    }
  }

  lemma DropFirst(first: Queue, q: nat, parse: Parser, files: map<string, File>, modules: map<string, Parsed>,
                  parsed: seq<string>, seen: set<string>)
    requires Gathering(None, first, q, parse, files, modules, parsed, [], seen) && q > 0 && first[q - 1].1 in modules
    ensures Gathering(None, first, q - 1, parse, files, modules, parsed, [], seen)
  {
    hide ExtraCalled, NoneLost, OthersKept, EachCalled;
  }

  lemma CalledItemMore(item: (File, string), files: map<string, File>, parsed: seq<string>,
                       modules: map<string, Parsed>, u: string, p: Parsed)
    requires CalledItem(item, files, modules, parsed) && u !in modules
    ensures CalledItem(item, files, modules[u := p], parsed + [u])
  {
    var x :| x in parsed && x in modules && item.1 in modules[x].stars;
    assert x in parsed + [u] && modules[u := p][x] == modules[x];
  }

  /** A new module is parsed; `popped` is what was waiting before, `extra` what still is. */
  lemma ParseNew(first: Queue, q: nat, parse: Parser, files: map<string, File>, modules: map<string, Parsed>,
                 parsed: seq<string>, popped: Queue, extra: Queue, seen: set<string>, m: string, p: Parsed, q': nat)
    requires Gathering(None, first, q, parse, files, modules, parsed, popped, seen) && m !in modules
    requires extra <= popped && forall u :: Waiting(popped, u) ==> Waiting(extra, u) || u == m
    requires q' <= q && forall j :: q' <= j < q ==> first[j].1 == m
    requires Called(m, p, first, parse, files, parsed, modules)
    ensures Gathering(Some(m), first, q', parse, files, modules[m := p], parsed + [m], extra, seen)
  {
    EachCalledMore(first, parse, files, parsed, modules, m, p);
    hide Waiting, CalledItem, Called, EachCalled;
    forall i | 0 <= i < |extra| ensures CalledItem(extra[i], files, modules[m := p], parsed + [m]) {
      assert popped[i] == extra[i];
      CalledItemMore(extra[i], files, parsed, modules, m, p);
    }
    ParsedMore(parsed, modules, m, p);
  }

  lemma ParsedMore(parsed: seq<string>, modules: map<string, Parsed>, m: string, p: Parsed)
    requires Distinct(parsed) && (forall u :: u in parsed <==> u in modules) && m !in modules
    ensures Distinct(parsed + [m]) && forall u :: u in parsed + [m] <==> u in modules[m := p]
  {}

  lemma ParseExtra(first: Queue, q: nat, parse: Parser, files: map<string, File>, modules: map<string, Parsed>,
                   parsed: seq<string>, extra: Queue, seen: set<string>, item: (File, string), p: Parsed)
    requires Gathering(None, first, q, parse, files, modules, parsed, extra + [item], seen) && item.1 !in modules
    requires p == parse(item.0, item.1)
    ensures Gathering(Some(item.1), first, q, parse, files, modules[item.1 := p], parsed + [item.1], extra, seen)
  {
    assert (extra + [item])[|extra|] == item;
    assert CalledItem(item, files, modules, parsed);
    assert Called(item.1, p, first, parse, files, parsed, modules);
    hide Waiting, StarCalled, Called, EachCalled;
    forall u ensures Waiting(extra + [item], u) <==> Waiting(extra, u) || u == item.1 { WaitingMore(extra, item, u); }
    hide Gathering;
    ParseNew(first, q, parse, files, modules, parsed, extra + [item], extra, seen, item.1, p, q);
  }

  lemma ParseFirst(first: Queue, q: nat, parse: Parser, files: map<string, File>, modules: map<string, Parsed>,
                   parsed: seq<string>, seen: set<string>, p: Parsed)
    requires Gathering(None, first, q, parse, files, modules, parsed, [], seen) && q > 0
    requires first[q - 1].1 !in modules && p == parse(first[q - 1].0, first[q - 1].1)
    ensures var m := first[q - 1].1;
            Gathering(Some(m), first, q - 1, parse, files, modules[m := p], parsed + [m], [], seen)
  {
    NothingElseWaits(first, q, parse, files, modules, parsed, seen);
    assert TurnOf(first, q - 1, files, parsed, modules);
    hide Gathering;
    ParseNew(first, q, parse, files, modules, parsed, [], [], seen, first[q - 1].1, p, q - 1);
  }

  lemma NothingElseWaits(first: Queue, q: nat, parse: Parser, files: map<string, File>, modules: map<string, Parsed>,
                         parsed: seq<string>, seen: set<string>)
    requires Gathering(None, first, q, parse, files, modules, parsed, [], seen)
    ensures AllReached(files, parsed, modules) && forall j :: q <= j < |first| ==> first[j].1 in parsed
  {
    hide EachCalled;
    forall u, t | u in parsed && u in modules && t in modules[u].stars && t in files ensures t in parsed {
      assert TargetsKept(modules[u].stars, |modules[u].stars|, files, modules, []);
      var i :| 0 <= i < |modules[u].stars| && modules[u].stars[i] == t;
    }
  }

  lemma KeptMore(stars: seq<string>, files: map<string, File>, modules: map<string, Parsed>, extra: Queue,
                 item: (File, string))
    requires TargetsKept(stars, |stars|, files, modules, extra)
    ensures TargetsKept(stars, |stars|, files, modules, extra + [item])
  {
    hide Waiting;
    forall u ensures Waiting(extra, u) ==> Waiting(extra + [item], u) { WaitingMore(extra, item, u); }
  }

  lemma LostMore(files: map<string, File>, modules: map<string, Parsed>, extra: Queue, seen: set<string>,
                 item: (File, string))
    requires NoneLost(files, modules, extra, seen)
    ensures NoneLost(files, modules, extra + [item], seen + {item.1})
  {
    hide Waiting;
    forall u ensures Waiting(extra + [item], u) <==> Waiting(extra, u) || u == item.1 { WaitingMore(extra, item, u); }
  }

  lemma OthersMore(except: Option<string>, files: map<string, File>, modules: map<string, Parsed>, extra: Queue,
                   item: (File, string))
    requires OthersKept(except, files, modules, extra)
    ensures OthersKept(except, files, modules, extra + [item])
  {
    hide TargetsKept;
    forall u | u in modules && except != Some(u)
      ensures TargetsKept(modules[u].stars, |modules[u].stars|, files, modules, extra + [item])
    {
      KeptMore(modules[u].stars, files, modules, extra, item);
    }
  }

  lemma ExtraMore(files: map<string, File>, modules: map<string, Parsed>, parsed: seq<string>, extra: Queue,
                  item: (File, string))
    requires ExtraCalled(files, modules, parsed, extra) && CalledItem(item, files, modules, parsed)
    ensures ExtraCalled(files, modules, parsed, extra + [item])
  {
    hide CalledItem;
  }

  /** A target of the module being worked on is met for the first time. */
  lemma MeetTarget(m: string, first: Queue, q: nat, parse: Parser, files: map<string, File>,
                   modules: map<string, Parsed>, parsed: seq<string>, extra: Queue, seen: set<string>, t: string,
                   extra': Queue)
    requires Gathering(Some(m), first, q, parse, files, modules, parsed, extra, seen)
    requires m in modules && t in modules[m].stars
    requires extra' == if t in files then extra + [(files[t], t)] else extra
    ensures Gathering(Some(m), first, q, parse, files, modules, parsed, extra', seen + {t})
    ensures forall u :: Waiting(extra', u) <==> Waiting(extra, u) || (t in files && u == t)
  {
    assert t in files ==> CalledItem((files[t], t), files, modules, parsed);
    hide Waiting, CalledItem, EachCalled, NoneLost, OthersKept, ExtraCalled;
    if t in files {
      var item := (files[t], t);
      ExtraMore(files, modules, parsed, extra, item);
      LostMore(files, modules, extra, seen, item);
      OthersMore(Some(m), files, modules, extra, item);
      forall u ensures Waiting(extra', u) <==> Waiting(extra, u) || u == t { WaitingMore(extra, item, u); }
    } else {
      SeenMore(files, modules, extra, seen, t);
    }
  }

  lemma SeenMore(files: map<string, File>, modules: map<string, Parsed>, extra: Queue, seen: set<string>, t: string)
    requires NoneLost(files, modules, extra, seen) && t !in files
    ensures NoneLost(files, modules, extra, seen + {t})
  {
    hide Waiting;
  }

  /** The worklist of `collect_all_stubs`: it ends, parses no module twice, and gathers the first modules
      and whatever star imports lead to, and nothing else (see GatheredIsLeast). Each module is parsed when
      a star import has called for it, or in its turn, the first modules last to first. `files` maps a
      module to the stub file found for it. */
  method CollectAllStubs(first: Queue, parse: Parser, files: map<string, File>)
      returns (modules: map<string, Parsed>, parsed: seq<string>)
    ensures forall u :: Waiting(first, u) ==> u in modules
    ensures forall m, i :: m in modules && 0 <= i < |modules[m].stars| && modules[m].stars[i] in files ==>
              modules[m].stars[i] in modules
    ensures Distinct(parsed) && (forall m :: m in parsed <==> m in modules)
    ensures EachCalled(first, parse, files, parsed, modules)
  {
    modules, parsed := map[], [];
    var queue := first;
    var seenTargets: set<string> := {};
    ghost var q: nat, extra: Queue := |first|, [];
    StartGathering(first, parse, files);
    StartStack(first);
    hide Gathering, EachCalled, Stacked, Below, Above, Left, Waiting, Distinct;
    while queue != []
      invariant Stacked(queue, first, q, extra)
      invariant Gathering(None, first, q, parse, files, modules, parsed, extra, seenTargets)
      decreases Left(files, seenTargets), |queue|
    {
      Popped(queue, first, q, extra);
      var item := queue[|queue| - 1];
      queue := queue[..|queue| - 1];
      if item.1 in modules {
        DropItem(first, q, parse, files, modules, parsed, extra, seenTargets, item);
        q, extra := Below(q, extra), Above(extra);
      } else {
        var p := parse(item.0, item.1);
        ParseItem(first, q, parse, files, modules, parsed, extra, seenTargets, item, p);
        q, extra := Below(q, extra), Above(extra);
        modules := modules[item.1 := p];
        parsed := parsed + [item.1];
        queue, seenTargets, extra :=
          EnqueueTargets(item.1, p, parse, first, q, files, modules, parsed, queue, extra, seenTargets);
      }
    }
    NothingStacked(first, q, extra);
    AllGathered(first, q, parse, files, modules, parsed, seenTargets);
  }

  /** The stack: the first `q` of the first modules, and `extra` above them. */
  ghost predicate Stacked(queue: Queue, first: Queue, q: nat, extra: Queue) {
    q <= |first| && queue == first[..q] + extra
  }

  /** The modules with a file that no star import has named yet. */
  ghost function Left(files: map<string, File>, seen: set<string>): nat { |files.Keys - seen| }

  lemma OneLess(files: map<string, File>, seen: set<string>, t: string)
    requires t !in seen
    ensures Left(files, seen + {t}) == Left(files, seen) - if t in files then 1 else 0
  {
    if t in files {
      assert files.Keys - (seen + {t}) == files.Keys - seen - {t};
    } else {
      assert files.Keys - (seen + {t}) == files.Keys - seen;
    }
  }

  lemma StartStack(first: Queue)
    ensures Stacked(first, first, |first|, [])
  {}

  lemma NothingStacked(first: Queue, q: nat, extra: Queue)
    requires Stacked([], first, q, extra)
    ensures q == 0 && extra == []
  {}

  lemma StackMore(queue: Queue, first: Queue, q: nat, extra: Queue, item: (File, string))
    requires Stacked(queue, first, q, extra)
    ensures Stacked(queue + [item], first, q, extra + [item])
  {}

  /** What is left below and above when an item is taken off. */
  function Below(q: nat, extra: Queue): int { if extra == [] then q - 1 else q }

  function Above(extra: Queue): Queue { if extra == [] then [] else extra[..|extra| - 1] }

  lemma Popped(queue: Queue, first: Queue, q: nat, extra: Queue)
    requires queue != [] && Stacked(queue, first, q, extra)
    ensures Below(q, extra) >= 0 && Stacked(queue[..|queue| - 1], first, Below(q, extra), Above(extra))
    ensures var item := queue[|queue| - 1];
            if extra == [] then 0 < q <= |first| && item == first[q - 1] else extra == Above(extra) + [item]
  {}

  lemma DropItem(first: Queue, q: nat, parse: Parser, files: map<string, File>, modules: map<string, Parsed>,
                 parsed: seq<string>, extra: Queue, seen: set<string>, item: (File, string))
    requires Gathering(None, first, q, parse, files, modules, parsed, extra, seen) && item.1 in modules
    requires if extra == [] then 0 < q <= |first| && item == first[q - 1] else extra == Above(extra) + [item]
    ensures Gathering(None, first, Below(q, extra), parse, files, modules, parsed, Above(extra), seen)
  {
    hide Gathering;
    if extra == [] {
      DropFirst(first, q, parse, files, modules, parsed, seen);
    } else {
      DropExtra(first, q, parse, files, modules, parsed, Above(extra), seen, item);
    }
  }

  lemma ParseItem(first: Queue, q: nat, parse: Parser, files: map<string, File>, modules: map<string, Parsed>,
                  parsed: seq<string>, extra: Queue, seen: set<string>, item: (File, string), p: Parsed)
    requires Gathering(None, first, q, parse, files, modules, parsed, extra, seen) && item.1 !in modules
    requires if extra == [] then 0 < q <= |first| && item == first[q - 1] else extra == Above(extra) + [item]
    requires p == parse(item.0, item.1)
    ensures Gathering(Some(item.1), first, Below(q, extra), parse, files, modules[item.1 := p], parsed + [item.1],
                      Above(extra), seen)
  {
    hide Gathering;
    if extra == [] {
      ParseFirst(first, q, parse, files, modules, parsed, seen, p);
    } else {
      ParseExtra(first, q, parse, files, modules, parsed, Above(extra), seen, item, p);
    }
  }

  lemma AllGathered(first: Queue, q: nat, parse: Parser, files: map<string, File>, modules: map<string, Parsed>,
                    parsed: seq<string>, seen: set<string>)
    requires Gathering(None, first, q, parse, files, modules, parsed, [], seen) && q == 0
    ensures forall u :: Waiting(first, u) ==> u in modules
    ensures forall m, i :: m in modules && 0 <= i < |modules[m].stars| && modules[m].stars[i] in files ==>
              modules[m].stars[i] in modules
    ensures Distinct(parsed) && (forall m :: m in parsed <==> m in modules)
    ensures EachCalled(first, parse, files, parsed, modules)
  {
    hide EachCalled;
    forall m, i | m in modules && 0 <= i < |modules[m].stars| && modules[m].stars[i] in files
      ensures modules[m].stars[i] in modules
    {
      assert TargetsKept(modules[m].stars, |modules[m].stars|, files, modules, []);
    }
  }

  lemma TargetsDone(m: string, first: Queue, q: nat, parse: Parser, files: map<string, File>,
                    modules: map<string, Parsed>, parsed: seq<string>, extra: Queue, seen: set<string>)
    requires Gathering(Some(m), first, q, parse, files, modules, parsed, extra, seen) && m in modules
    requires TargetsKept(modules[m].stars, |modules[m].stars|, files, modules, extra)
    ensures Gathering(None, first, q, parse, files, modules, parsed, extra, seen)
  {
    hide EachCalled, ExtraCalled, NoneLost;
  }

  lemma MetBefore(m: string, first: Queue, q: nat, parse: Parser, files: map<string, File>,
                  modules: map<string, Parsed>, parsed: seq<string>, extra: Queue, seen: set<string>)
    requires Gathering(Some(m), first, q, parse, files, modules, parsed, extra, seen)
    ensures forall t :: t in seen && t in files ==> t in modules || Waiting(extra, t)
  {}

  /** The loop over the star imports of a newly parsed module. */
  method EnqueueTargets(m: string, p: Parsed, ghost parse: Parser, ghost first: Queue, ghost q: nat,
                        files: map<string, File>, ghost modules: map<string, Parsed>, ghost parsed: seq<string>,
                        queue0: Queue, ghost extra0: Queue, seen0: set<string>)
      returns (queue: Queue, seen: set<string>, ghost extra: Queue)
    requires Gathering(Some(m), first, q, parse, files, modules, parsed, extra0, seen0)
    requires m in modules && modules[m] == p && Stacked(queue0, first, q, extra0)
    ensures Gathering(None, first, q, parse, files, modules, parsed, extra, seen)
    ensures Stacked(queue, first, q, extra)
    ensures Left(files, seen) < Left(files, seen0) || (Left(files, seen) == Left(files, seen0) && queue == queue0)
  {
    hide Gathering, Waiting, Stacked, Left;
    queue, seen, extra := queue0, seen0, extra0;
    for i := 0 to |p.stars|
      invariant Gathering(Some(m), first, q, parse, files, modules, parsed, extra, seen)
      invariant TargetsKept(p.stars, i, files, modules, extra) && Stacked(queue, first, q, extra)
      invariant Left(files, seen) < Left(files, seen0)
                || (Left(files, seen) == Left(files, seen0) && queue == queue0)
    {
      var tgt := p.stars[i];
      MetBefore(m, first, q, parse, files, modules, parsed, extra, seen);
      if tgt !in seen {
        MeetTarget(m, first, q, parse, files, modules, parsed, extra, seen, tgt,
                   if tgt in files then extra + [(files[tgt], tgt)] else extra);
        OneLess(files, seen, tgt);
        seen := seen + {tgt};
        if tgt in files {
          StackMore(queue, first, q, extra, (files[tgt], tgt));
          queue := queue + [(files[tgt], tgt)];
          extra := extra + [(files[tgt], tgt)];
        }
      }
    }
    TargetsDone(m, first, q, parse, files, modules, parsed, extra, seen);
  }
}
