/** What the tables of ac.c contain at every point of the breadth-first completion, and that each
    of its steps keeps this. */
module AutomatonSteps {
  import opened PatternMasks
  import opened TrieWords
  import opened AutomatonBfs

  /** Finished cells hold the automaton's transition, the others still hold the trie's. */
  ghost predicate Rows(names: seq<Word>, size: nat, order: seq<nat>, h: nat, rc: nat, cc: nat, go: seq<int>)
    requires Trie(names) && h <= |order|
  {
    forall s, c :: 0 <= s < |names| && 0 <= c < size ==>
      if Finished(order, h, rc, cc, s, c) then CellDone(names, names[s] + [c], At(go, size, s, c))
      else CellTrie(names, names[s] + [c], At(go, size, s, c))
  }

  /** Queued states know the state of their longest proper trie suffix. */
  ghost predicate Fails(names: seq<Word>, order: seq<nat>, fail: seq<int>)
    requires Trie(names)
  {
    |fail| == |names| &&
    forall s :: 0 < s < |names| && s in order && names[s] != [] ==>
      0 <= fail[s] < |names| && names[fail[s]] == FailWord(names, names[s])
  }

  ghost predicate MaskBit(names: seq<Word>, order: seq<nat>, pattern: Word, s: nat)
    requires Trie(names) && s < |names|
  {
    if s == 0 || s in order then Reports(names, pattern, names[s]) else pattern == names[s]
  }

  /** Masks of queued states are final, the others hold the state's own patterns. */
  ghost predicate Masks(names: seq<Word>, patterns: seq<Word>, order: seq<nat>, out: seq<bv64>)
    requires Trie(names)
  {
    |out| >= |names| &&
    forall s, p {:trigger Has(out[s], p)} :: 0 <= s < |names| && 0 <= p ==>
      (Has(out[s], p) <==> p < MAX_BITMASK && p < |patterns| && MaskBit(names, order, patterns[p], s))
  }

  /** The only link a state gets: to its failure state, below depth 1, if that one owns a pattern. */
  ghost function LinkOf(names: seq<Word>, patterns: seq<Word>, w: Word): int
    requires Trie(names)
  {
    if |w| >= 2 && LastOwner(patterns, |patterns|, FailWord(names, w)) != -1
    then StateOf(names, FailWord(names, w)) else -1
  }

  ghost predicate Links(names: seq<Word>, patterns: seq<Word>, order: seq<nat>, next: seq<int>)
    requires Trie(names)
  {
    |next| >= |names| &&
    forall s :: 0 <= s < |names| ==>
      next[s] == if s in order then LinkOf(names, patterns, names[s]) else -1
  }

  ghost predicate AllInTrie(names: seq<Word>, patterns: seq<Word>) {
    forall p :: 0 <= p < |patterns| ==> patterns[p] in names
  }

  /** Every transition leads to the longest trie suffix of what has been read. */
  ghost predicate AllRowsDone(names: seq<Word>, size: nat, go: seq<int>)
    requires Trie(names)
  {
    forall s, c :: 0 <= s < |names| && 0 <= c < size ==>
      CellDone(names, names[s] + [c], At(go, size, s, c))
  }

  /** Every mask holds exactly the patterns (below 64) to report at its state. */
  ghost predicate AllMasksDone(names: seq<Word>, patterns: seq<Word>, out: seq<bv64>)
    requires Trie(names)
  {
    |out| >= |names| &&
    forall s, p {:trigger Has(out[s], p)} :: 0 <= s < |names| && 0 <= p ==>
      (Has(out[s], p) <==> p < MAX_BITMASK && p < |patterns| && Reports(names, patterns[p], names[s]))
  }

  ghost predicate AllLinksDone(names: seq<Word>, patterns: seq<Word>, next: seq<int>)
    requires Trie(names)
  {
    |next| >= |names| && forall s :: 0 <= s < |names| ==> next[s] == LinkOf(names, patterns, names[s])
  }

  // ---- Transitions ----

  lemma RootDone(names: seq<Word>, c: nat, v: int)
    requires Trie(names) && CellTrie(names, [c], v)
    ensures CellDone(names, [c], if v == -1 then 0 else v)
  {
    assert names[0] == [];
    assert [c][1..] == [];
  }

  /** A trie child is also the automaton's transition. */
  lemma ChildDone(names: seq<Word>, w: Word, v: int)
    requires Trie(names) && CellTrie(names, w, v) && v != -1
    ensures CellDone(names, w, v)
  {}

  lemma FinishCell(names: seq<Word>, size: nat, order: seq<nat>, h: nat, cc: nat, go: seq<int>, go': seq<int>, v: int)
    requires QueueOk(names, size, order, h, size, cc) && h < |order| && cc < size
    requires Rows(names, size, order, h, size, cc, go)
    requires Cell(size, order[h], cc) < |go| && go' == go[Cell(size, order[h], cc) := v]
    requires CellDone(names, names[order[h]] + [cc], v)
    ensures Rows(names, size, order, h, size, cc + 1, go')
  {
    hide Cell, Trie, CellDone, CellTrie, LongestSuffix, QueueShape;
    SetCellAll(go, go', size, order[h], cc, v);
    hide At;
    assert order[h] in order;
    forall s, c | 0 <= s < |names| && 0 <= c < size
      ensures if Finished(order, h, size, cc + 1, s, c) then CellDone(names, names[s] + [c], At(go', size, s, c))
              else CellTrie(names, names[s] + [c], At(go', size, s, c))
    {
      assert Finished(order, h, size, cc + 1, s, c)
             <==> Finished(order, h, size, cc, s, c) || (s == order[h] && c == cc);
    }
  }

  /** Queueing more states does not change which cells are finished. */
  lemma RowsAppend(names: seq<Word>, size: nat, order: seq<nat>, h: nat, rc: nat, cc: nat, go: seq<int>, s: nat)
    requires Trie(names) && h <= |order| && (h < |order| || cc == 0)
    requires Rows(names, size, order, h, rc, cc, go)
    ensures Rows(names, size, order + [s], h, rc, cc, go)
  {
    assert (order + [s])[..h] == order[..h];
    forall t, c | 0 <= t < |names| && 0 <= c < size
      ensures Finished(order + [s], h, rc, cc, t, c) == Finished(order, h, rc, cc, t, c)
    {}
  }

  lemma RowsNextHead(names: seq<Word>, size: nat, order: seq<nat>, h: nat, go: seq<int>)
    requires Trie(names) && h < |order|
    requires Rows(names, size, order, h, size, size, go)
    ensures Rows(names, size, order, h + 1, size, 0, go)
  {
    assert order[..h + 1] == order[..h] + [order[h]];
    forall t, c | 0 <= t < |names| && 0 <= c < size
      ensures Finished(order, h + 1, size, 0, t, c) == Finished(order, h, size, size, t, c)
    {}
  }

  /** The failure state of the state being expanded has its whole row finished, so the cell the
      expansion copies from is the automaton's transition already. */
  lemma FailRowFinished(names: seq<Word>, size: nat, order: seq<nat>, h: nat, cc: nat,
                        go: seq<int>, fail: seq<int>, c: nat)
    requires QueueOk(names, size, order, h, size, cc) && h < |order| && c < size
    requires Rows(names, size, order, h, size, cc, go) && Fails(names, order, fail)
    ensures names[order[h]] != []
    ensures 0 <= fail[order[h]] < |names|
    ensures CellDone(names, FailWord(names, names[order[h]]) + [c], At(go, size, fail[order[h]], c))
    ensures |names[fail[order[h]]]| < |names[order[h]]|
  {
    var r := order[h];
    assert r in order && names[r] != [];
    var f := fail[r];
    assert IsSuffix(names[f], names[r][1..]);
    hide LongestSuffix, CellDone, CellTrie, At, Trie;
    if f != 0 { ShallowerExpanded(names, size, order, h, cc, f); }
    assert Finished(order, h, size, cc, f, c);
  }

  // ---- Masks and links ----

  lemma QueueRootMask(names: seq<Word>, patterns: seq<Word>, order: seq<nat>, out: seq<bv64>, next: seq<int>, s: nat)
    requires Trie(names) && AllInTrie(names, patterns)
    requires Masks(names, patterns, order, out) && Links(names, patterns, order, next)
    requires 0 < s < |names| && s !in order && |names[s]| == 1
    ensures Masks(names, patterns, order + [s], out) && Links(names, patterns, order + [s], next)
  {
    forall p | 0 <= p < |patterns|
      ensures Reports(names, patterns[p], names[s]) <==> patterns[p] == names[s]
    {
      ReportsAtDepthOne(names, patterns[p], names[s]);
    }
    hide Trie, Reports, LongestSuffix, FailWord;
  }

  /** `output[s] |= output[fail[s]]`: the failure state's reports are all that was missing. */
  lemma QueueChildMask(names: seq<Word>, patterns: seq<Word>, order: seq<nat>, out: seq<bv64>, s: nat, f: nat)
    requires Trie(names) && AllInTrie(names, patterns) && Masks(names, patterns, order, out)
    requires 0 < s < |names| && s !in order && |names[s]| >= 2
    requires f < |names| && (f == 0 || f in order) && names[f] == FailWord(names, names[s])
    ensures Masks(names, patterns, order + [s], out[s := Union(out[s], out[f])])
  {
    hide Trie, LongestSuffix, FailWord, Has, Union;
    forall p | 0 <= p
      ensures Has(Union(out[s], out[f]), p)
              <==> p < MAX_BITMASK && p < |patterns| && Reports(names, patterns[p], names[s])
    {
      HasUnion(out[s], out[f], p);
      assert Has(out[s], p) <==> p < MAX_BITMASK && p < |patterns| && MaskBit(names, order, patterns[p], s);
      assert Has(out[f], p) <==> p < MAX_BITMASK && p < |patterns| && MaskBit(names, order, patterns[p], f);
      if p < |patterns| {
        assert patterns[p] in names;
        ReportsViaFail(names, patterns[p], names[s]);
        assert MaskBit(names, order, patterns[p], s) == (patterns[p] == names[s]);
        assert MaskBit(names, order, patterns[p], f) == Reports(names, patterns[p], names[f]);
        assert Reports(names, patterns[p], names[s])
               <==> patterns[p] == names[s] || Reports(names, patterns[p], names[f]);
      }
    }
    hide Reports;
  }

  lemma QueueChildLink(names: seq<Word>, patterns: seq<Word>, order: seq<nat>, list: seq<int>, next: seq<int>,
                       s: nat, f: nat)
    requires Trie(names) && Links(names, patterns, order, next) && OwnLists(names, patterns, |patterns|, list)
    requires 0 < s < |names| <= |list| && s !in order && |names[s]| >= 2
    requires f < |names| && names[f] == FailWord(names, names[s])
    ensures next[s] == -1
    ensures Links(names, patterns, order + [s], if list[f] != -1 then next[s := f] else next)
  {
    SameName(names, f, StateOf(names, FailWord(names, names[s])));
    hide Trie, LongestSuffix, FailWord;
  }

  lemma QueueFail(names: seq<Word>, order: seq<nat>, fail: seq<int>, s: nat, f: nat)
    requires Trie(names) && Fails(names, order, fail)
    requires 0 < s < |names| && names[s] != [] && f < |names| && names[f] == FailWord(names, names[s])
    ensures Fails(names, order + [s], fail[s := f])
  {
    hide Trie, FailWord;
  }

  /** The link computed for a child is the state of its longest proper trie suffix. */
  lemma ChildFail(names: seq<Word>, r: nat, c: nat, s: nat, f: int)
    requires Trie(names) && s < |names| && r < |names| && names[r] != [] && names[s] == names[r] + [c]
    requires CellDone(names, FailWord(names, names[r]) + [c], f)
    ensures 0 <= f < |names| && names[f] == FailWord(names, names[s])
    ensures |names[f]| <= |names[r]|
  {
    ChildFailWord(names, names[r], c);
    assert IsSuffix(FailWord(names, names[s]), names[s][1..]);
  }

  // ---- One invariant for the whole completion ----

  /** `rc` root children are queued, and `h` states and the first `cc` letters of the next are done. */
  ghost predicate Completing(names: seq<Word>, size: nat, patterns: seq<Word>,
                             order: seq<nat>, h: nat, rc: nat, cc: nat,
                             go: seq<int>, fail: seq<int>, out: seq<bv64>, list: seq<int>, next: seq<int>)
  {
    && QueueOk(names, size, order, h, rc, cc)
    && Rows(names, size, order, h, size, cc, go)
    && Fails(names, order, fail)
    && AllInTrie(names, patterns) && Masks(names, patterns, order, out)
    && |names| <= |list| && OwnLists(names, patterns, |patterns|, list)
    && Links(names, patterns, order, next)
  }

  lemma StartCompleting(names: seq<Word>, size: nat, patterns: seq<Word>,
                        go: seq<int>, fail: seq<int>, out: seq<bv64>, list: seq<int>, next: seq<int>)
    requires TrieOver(names, size) && AllInTrie(names, patterns) && Rows(names, size, [], 0, size, 0, go)
    requires OwnOutputs(names, patterns, |patterns|, out) && OwnLists(names, patterns, |patterns|, list)
    requires |fail| == |names| <= |out| && |names| <= |list| && |names| <= |next|
    requires forall s :: 0 <= s < |next| ==> next[s] == -1
    ensures Completing(names, size, patterns, [], 0, 0, 0, go, fail, out, list, next)
  {
    hide OwnLists, Rows, LinkOf, Has;
    forall s, p | 0 <= s < |names| && 0 <= p
      ensures Has(out[s], p) <==> p < MAX_BITMASK && p < |patterns| && MaskBit(names, [], patterns[p], s)
    {
      assert Has(out[s], p) <==> p < |patterns| && p < MAX_BITMASK && patterns[p] == names[s];
      if s == 0 { assert names[0] == []; }
    }
  }

  lemma RootTarget(names: seq<Word>, c: nat, v: int)
    requires Trie(names) && CellDone(names, [c], v)
    ensures if v == 0 then [c] !in names else 0 < v < |names| && names[v] == [c] && FailWord(names, [c]) == []
  {
    assert names[0] == [];
    assert [c][1..] == [];
    assert IsSuffix(names[v], [c]);
    if v != 0 {
      assert names[v] != [];
      assert names[v] == [c];
    }
  }

  /** One turn of the loop that queues the root's children. */
  lemma RootStep(names: seq<Word>, size: nat, patterns: seq<Word>, order: seq<nat>, c: nat, s: nat,
                 go: seq<int>, fail: seq<int>, out: seq<bv64>, list: seq<int>, next: seq<int>)
    requires Completing(names, size, patterns, order, 0, c, 0, go, fail, out, list, next)
    requires c < size && s == At(go, size, 0, c)
    ensures s == 0 ==> Completing(names, size, patterns, order, 0, c + 1, 0, go, fail, out, list, next)
    ensures s != 0 ==>
              && 0 < s < |names|
              && Completing(names, size, patterns, order + [s], 0, c + 1, 0, go, fail[s := 0], out, list, next)
  {
    hide Trie, LongestSuffix, FailWord, IsSuffix, At, CellTrie, Masks, Links, OwnLists, QueueShape;
    RootIsEmpty(names);
    assert Finished(order, 0, size, 0, 0, c);
    assert CellDone(names, names[0] + [c], At(go, size, 0, c));
    assert names[0] + [c] == [c];
    RootTarget(names, c, s);
    hide CellDone, Rows;
    if s == 0 {
      SkipRootChild(names, size, order, c);
    } else {
      EnqueueRootChild(names, size, order, c, s);
      RowsAppend(names, size, order, 0, size, 0, go, s);
      QueueFail(names, order, fail, s, 0);
      QueueRootMask(names, patterns, order, out, next, s);
    }
  }

  lemma RootIsEmpty(names: seq<Word>)
    requires Trie(names)
    ensures names != [] && names[0] == []
  {}

  /** The cells one turn of the expansion loop reads. */
  lemma ExpansionCells(names: seq<Word>, size: nat, patterns: seq<Word>, order: seq<nat>, h: nat, cc: nat,
                       go: seq<int>, fail: seq<int>, out: seq<bv64>, list: seq<int>, next: seq<int>)
    requires Completing(names, size, patterns, order, h, size, cc, go, fail, out, list, next)
    requires h < |order| && cc < size
    ensures order[h] < |names| && names[order[h]] != []
    ensures 0 <= fail[order[h]] < |names|
    ensures CellTrie(names, names[order[h]] + [cc], At(go, size, order[h], cc))
    ensures CellDone(names, FailWord(names, names[order[h]]) + [cc], At(go, size, fail[order[h]], cc))
  {
    hide Trie, LongestSuffix, FailWord, CellTrie, CellDone, At, Masks, Links, OwnLists;
    FailRowFinished(names, size, order, h, cc, go, fail, cc);
    assert !Finished(order, h, size, cc, order[h], cc);
  }

  /** One turn that finds no child: the cell is copied from the failure state's row. */
  lemma MissingStep(names: seq<Word>, size: nat, patterns: seq<Word>, order: seq<nat>, h: nat, cc: nat,
                    go: seq<int>, fail: seq<int>, out: seq<bv64>, list: seq<int>, next: seq<int>, go': seq<int>)
    requires Completing(names, size, patterns, order, h, size, cc, go, fail, out, list, next)
    requires h < |order| && cc < size && Cell(size, order[h], cc) < |go|
    requires 0 <= order[h] < |fail| && 0 <= fail[order[h]]
    requires At(go, size, order[h], cc) == -1
    requires go' == go[Cell(size, order[h], cc) := At(go, size, fail[order[h]], cc)]
    ensures Completing(names, size, patterns, order, h, size, cc + 1, go', fail, out, list, next)
  {
    hide Trie, LongestSuffix, FailWord, At, Cell, Masks, Links, OwnLists, Rows, QueueShape, Finished;
    ExpansionCells(names, size, patterns, order, h, cc, go, fail, out, list, next);
    MissingChild(names, names[order[h]], cc);
    FinishCell(names, size, order, h, cc, go, go', At(go, size, fail[order[h]], cc));
    SkipChild(names, size, order, h, cc);
  }

  /** What a found child and its failure state are. */
  lemma ChildTargets(names: seq<Word>, size: nat, patterns: seq<Word>, order: seq<nat>, h: nat, cc: nat,
                     go: seq<int>, fail: seq<int>, out: seq<bv64>, list: seq<int>, next: seq<int>, s: nat, f: nat)
    requires Completing(names, size, patterns, order, h, size, cc, go, fail, out, list, next)
    requires h < |order| && cc < size && order[h] < |fail| && 0 <= fail[order[h]]
    requires s == At(go, size, order[h], cc) && f == At(go, size, fail[order[h]], cc)
    ensures order[h] < |names| && names[order[h]] != []
    ensures 0 < s < |names| && names[s] == names[order[h]] + [cc]
    ensures CellDone(names, names[s], s)
    ensures f < |names| && names[f] == FailWord(names, names[s]) && (f == 0 || f in order)
  {
    hide Trie, LongestSuffix, FailWord, At, Cell, Masks, Links, OwnLists, Rows, QueueShape, Finished, Fails;
    ExpansionCells(names, size, patterns, order, h, cc, go, fail, out, list, next);
    ChildFail(names, order[h], cc, s, f);
    ChildDone(names, names[order[h]] + [cc], s);
    if f != 0 { NoDeeperQueued(names, size, order, h, cc, f); }
  }

  /** One turn that finds a child: it gets its failure link, mask and output link, and is queued. */
  lemma ChildStep(names: seq<Word>, size: nat, patterns: seq<Word>, order: seq<nat>, h: nat, cc: nat,
                  go: seq<int>, fail: seq<int>, out: seq<bv64>, list: seq<int>, next: seq<int>, s: nat, f: nat)
    requires Completing(names, size, patterns, order, h, size, cc, go, fail, out, list, next)
    requires h < |order| && cc < size && Cell(size, order[h], cc) < |go|
    requires order[h] < |fail| && 0 <= fail[order[h]]
    requires s == At(go, size, order[h], cc) && f == At(go, size, fail[order[h]], cc)
    ensures 0 < s < |names| && s < |fail| && f < |names| && s < |out| && s < |next| && f < |list|
    ensures next[s] == -1
    ensures Completing(names, size, patterns, order + [s], h, size, cc + 1, go, fail[s := f],
                       out[s := Union(out[s], out[f])], list, if list[f] != -1 then next[s := f] else next)
  {
    hide At, Cell, OwnLists, Rows, Union, Fails, Masks, Links, CellDone, QueueOk, AllInTrie, Trie, FailWord;
    ChildTargets(names, size, patterns, order, h, cc, go, fail, out, list, next, s, f);
    ChildQueued(names, size, order, h, cc, go, s);
    ChildRecorded(names, patterns, order, fail, out, list, next, s, f);
  }

  lemma ChildQueued(names: seq<Word>, size: nat, order: seq<nat>, h: nat, cc: nat, go: seq<int>, s: nat)
    requires QueueOk(names, size, order, h, size, cc) && h < |order| && cc < size
    requires Rows(names, size, order, h, size, cc, go)
    requires Cell(size, order[h], cc) < |go| && s == At(go, size, order[h], cc)
    requires 0 < s < |names| && names[s] == names[order[h]] + [cc] && CellDone(names, names[s], s)
    ensures Trie(names) && s !in order && |names[s]| >= 2
    ensures QueueOk(names, size, order + [s], h, size, cc + 1)
    ensures Rows(names, size, order + [s], h, size, cc + 1, go)
  {
    hide Trie, CellDone, Rows, At, Cell, Finished, LongestSuffix;
    assert order[h] in order;
    ChildRow(names, size, order, h, cc, go, s);
    EnqueueChild(names, size, order, h, cc, s);
    RowsAppend(names, size, order, h, size, cc + 1, go, s);
  }

  lemma ChildRecorded(names: seq<Word>, patterns: seq<Word>, order: seq<nat>,
                      fail: seq<int>, out: seq<bv64>, list: seq<int>, next: seq<int>, s: nat, f: nat)
    requires Trie(names) && Fails(names, order, fail)
    requires AllInTrie(names, patterns) && Masks(names, patterns, order, out)
    requires |names| <= |list| && OwnLists(names, patterns, |patterns|, list) && Links(names, patterns, order, next)
    requires 0 < s < |names| && s !in order && |names[s]| >= 2
    requires f < |names| && names[f] == FailWord(names, names[s]) && (f == 0 || f in order)
    ensures s < |fail| && s < |out| && f < |out| && s < |next| && next[s] == -1
    ensures Fails(names, order + [s], fail[s := f])
    ensures Masks(names, patterns, order + [s], out[s := Union(out[s], out[f])])
    ensures Links(names, patterns, order + [s], if list[f] != -1 then next[s := f] else next)
  {
    hide Trie, FailWord, OwnLists, AllInTrie, LinkOf, MaskBit, Has, Union;
    QueueFail(names, order, fail, s, f);
    QueueChildMask(names, patterns, order, out, s, f);
    QueueChildLink(names, patterns, order, list, next, s, f);
  }

  lemma ChildRow(names: seq<Word>, size: nat, order: seq<nat>, h: nat, cc: nat, go: seq<int>, s: int)
    requires QueueOk(names, size, order, h, size, cc) && h < |order| && cc < size
    requires Rows(names, size, order, h, size, cc, go)
    requires Cell(size, order[h], cc) < |go| && s == At(go, size, order[h], cc)
    requires CellDone(names, names[order[h]] + [cc], s)
    ensures Rows(names, size, order, h, size, cc + 1, go)
  {
    hide Rows, Cell, CellDone, QueueOk;
    assert go == go[Cell(size, order[h], cc) := s];
    FinishCell(names, size, order, h, cc, go, go, s);
  }

  lemma HeadStep(names: seq<Word>, size: nat, patterns: seq<Word>, order: seq<nat>, h: nat,
                 go: seq<int>, fail: seq<int>, out: seq<bv64>, list: seq<int>, next: seq<int>)
    requires Completing(names, size, patterns, order, h, size, size, go, fail, out, list, next)
    requires h < |order|
    ensures Completing(names, size, patterns, order, h + 1, size, 0, go, fail, out, list, next)
  {
    hide Trie, Masks, Links, OwnLists, Rows, QueueShape, Finished, Fails;
    NextHead(names, size, order, h);
    RowsNextHead(names, size, order, h, go);
  }

  /** Once the queue has run empty, every row, mask and link is final. */
  lemma FinishCompleting(names: seq<Word>, size: nat, patterns: seq<Word>, order: seq<nat>,
                         go: seq<int>, fail: seq<int>, out: seq<bv64>, list: seq<int>, next: seq<int>)
    requires Completing(names, size, patterns, order, |order|, size, 0, go, fail, out, list, next)
    ensures Trie(names) && QueueShape(names, order) && forall t :: 0 < t < |names| ==> t in order
    ensures AllRowsDone(names, size, go)
    ensures AllMasksDone(names, patterns, out)
    ensures AllLinksDone(names, patterns, next)
  {
    hide Trie, LongestSuffix, FailWord, Rows, Masks, Links, OwnLists, AllRowsDone, AllMasksDone, AllLinksDone;
    forall t | 0 < t < |names| ensures t in order { AllExpanded(names, size, order, t); }
    assert Trie(names) && 0 !in order;
    hide QueueOk;
    RowsFinal(names, size, order, go);
    MasksFinal(names, patterns, order, out);
    LinksFinal(names, patterns, order, next);
  }

  lemma RowsFinal(names: seq<Word>, size: nat, order: seq<nat>, go: seq<int>)
    requires Trie(names) && Rows(names, size, order, |order|, size, 0, go)
    requires forall t :: 0 < t < |names| ==> t in order
    ensures AllRowsDone(names, size, go)
  {
    hide Trie, CellDone, CellTrie, At;
    assert order[..|order|] == order;
    forall s, c | 0 <= s < |names| && 0 <= c < size
      ensures CellDone(names, names[s] + [c], At(go, size, s, c))
    {
      assert Finished(order, |order|, size, 0, s, c);
    }
  }

  lemma MasksFinal(names: seq<Word>, patterns: seq<Word>, order: seq<nat>, out: seq<bv64>)
    requires Trie(names) && Masks(names, patterns, order, out)
    requires forall t :: 0 < t < |names| ==> t in order
    ensures AllMasksDone(names, patterns, out)
  {
    hide Trie, Has, Reports;
    forall s, p | 0 <= s < |names| && 0 <= p
      ensures Has(out[s], p) <==> p < MAX_BITMASK && p < |patterns| && Reports(names, patterns[p], names[s])
    {
      assert Has(out[s], p) <==> p < MAX_BITMASK && p < |patterns| && MaskBit(names, order, patterns[p], s);
    }
  }

  lemma LinksFinal(names: seq<Word>, patterns: seq<Word>, order: seq<nat>, next: seq<int>)
    requires Trie(names) && Links(names, patterns, order, next) && 0 !in order
    requires forall t :: 0 < t < |names| ==> t in order
    ensures AllLinksDone(names, patterns, next)
  {
    RootIsEmpty(names);
    hide Trie, FailWord, StateOf, LastOwner;
    forall s | 0 <= s < |names| ensures next[s] == LinkOf(names, patterns, names[s]) {
      assert s in order || s == 0;
    }
  }

  /** In such an order a state's failure state is the root or stands earlier. */
  lemma FailureStandsEarlier(names: seq<Word>, order: seq<nat>, i: nat)
    requires Trie(names) && QueueShape(names, order) && forall t :: 0 < t < |names| ==> t in order
    requires i < |order|
    ensures names[order[i]] != []
    ensures var f := FailWord(names, names[order[i]]);
            f == [] || exists j :: 0 <= j < i && names[order[j]] == f
  {
    var w := names[order[i]];
    SameNameRoot(names, order[i]);
    var f := FailWord(names, w);
    if f != [] {
      assert |f| < |w| by { assert IsSuffix(f, w[1..]); }
      RootIsEmpty(names);
      var t := StateOf(names, f);
      hide Trie;
      assert t in order;
      var j :| 0 <= j < |order| && order[j] == t;
      assert j < i;
    }
  }

  lemma SameNameRoot(names: seq<Word>, s: nat)
    requires Trie(names) && 0 < s < |names|
    ensures names[s] != []
  {}
}
