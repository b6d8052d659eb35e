/** The invariants of the two build phases of ac.c, over the contents of its tables.
    `go` is the transition table, row by row; `order` is the BFS queue from its first push on, of
    which the first `h` states have been expanded and state order[h] is expanded up to letter `cc`. */
module AutomatonBfs {
  import opened PatternMasks
  import opened TrieWords

  /** Position of the transition of state `s` on letter `c` in a table of `size` letters a row. */
  function Cell(size: nat, s: nat, c: nat): nat {
    s * size + c
  }

  /** The transition, or -1 outside the table. */
  function At(go: seq<int>, size: nat, s: nat, c: nat): int {
    if Cell(size, s, c) < |go| then go[Cell(size, s, c)] else -1
  }

  lemma CellInTable(size: nat, rows: nat, s: nat, c: nat)
    requires s < rows && c < size
    ensures Cell(size, s, c) < rows * size
  {
    assert (s + 1) * size <= rows * size;
  }

  lemma RowsApart(size: nat, s: nat, t: nat)
    requires s < t
    ensures s * size + size <= t * size
  {
    assert (s + 1) * size <= t * size;
  }

  lemma CellsDiffer(size: nat, s: nat, c: nat, t: nat, d: nat)
    requires c < size && d < size && Cell(size, s, c) == Cell(size, t, d)
    ensures s == t && c == d
  {
    if s < t {
      RowsApart(size, s, t);
    } else if t < s {
      RowsApart(size, t, s);
    }
  }

  /** One table update changes one transition. */
  lemma SetCell(go: seq<int>, size: nat, s: nat, c: nat, v: int, t: nat, d: nat)
    requires c < size && d < size && Cell(size, s, c) < |go|
    ensures At(go[Cell(size, s, c) := v], size, t, d) == if t == s && d == c then v else At(go, size, t, d)
  {
    hide Cell;
    if Cell(size, t, d) == Cell(size, s, c) { CellsDiffer(size, s, c, t, d); }
  }

  lemma SetCellAll(go: seq<int>, go': seq<int>, size: nat, s: nat, c: nat, v: int)
    requires c < size && Cell(size, s, c) < |go| && go' == go[Cell(size, s, c) := v]
    ensures forall t, d :: 0 <= t && 0 <= d < size ==>
              At(go', size, t, d) == if t == s && d == c then v else At(go, size, t, d)
  {
    hide Cell, At;
    forall t, d | 0 <= t && 0 <= d < size
      ensures At(go', size, t, d) == if t == s && d == c then v else At(go, size, t, d)
    {
      SetCell(go, size, s, c, v, t, d);
    }
  }

  /** A trie whose letters are all below `size`. */
  ghost predicate TrieOver(names: seq<Word>, size: nat) {
    Trie(names) && forall s :: 0 < s < |names| ==> Last(names[s]) < size
  }

  /** A cell of the trie: the child spelling `w`, or -1 when the trie has no such word. */
  ghost predicate CellTrie(names: seq<Word>, w: Word, v: int) {
    if v == -1 then w !in names else 0 < v < |names| && names[v] == w
  }

  /** A cell of the finished automaton: the state of the longest trie suffix of `w`. */
  ghost predicate CellDone(names: seq<Word>, w: Word, v: int)
    requires Trie(names)
  {
    0 <= v < |names| && names[v] == LongestSuffix(names, w)
  }

  // ---- Phase 1: the trie ----

  ghost predicate TrieTable(names: seq<Word>, size: nat, go: seq<int>) {
    && (forall s, c :: 0 <= s < |names| && 0 <= c < size ==>
          CellTrie(names, names[s] + [c], At(go, size, s, c)))
    && (forall s, c :: |names| <= s && 0 <= c < size ==> At(go, size, s, c) == -1)
  }

  lemma AddState(names: seq<Word>, size: nat, go: seq<int>, s: nat, c: nat)
    requires TrieOver(names, size) && TrieTable(names, size, go)
    requires s < |names| && c < size && Cell(size, s, c) < |go| && At(go, size, s, c) == -1
    ensures TrieOver(names + [names[s] + [c]], size)
    ensures TrieTable(names + [names[s] + [c]], size, go[Cell(size, s, c) := |names|])
  {
    hide Cell, LongestSuffix, IsSuffix;
    var w := names[s] + [c];
    var more, go' := names + [w], go[Cell(size, s, c) := |names|];
    assert CellTrie(names, w, At(go, size, s, c));
    GrowTrie(names, s, c);
    SetCellAll(go, go', size, s, c, |names|);
    hide At, Trie, CellTrie;
    forall t, d | 0 <= t < |more| && 0 <= d < size
      ensures CellTrie(more, more[t] + [d], At(go', size, t, d))
    {
      if t == |names| {
        NoGrandchild(names, w, d);
        NotInTrie(more, w + [d]);
      } else {
        CellMore(names, names[t] + [d], At(go, size, t, d), w);
        if names[t] + [d] == w { SameCell(names, s, c, t, d); }
      }
    }
  }

  lemma NotInTrie(names: seq<Word>, w: Word)
    requires w !in names
    ensures CellTrie(names, w, -1)
  {}

  /** One more word makes the cell that spells it its state and leaves the others. */
  lemma CellMore(names: seq<Word>, u: Word, v: int, w: Word)
    requires CellTrie(names, u, v) && names != []
    ensures u != w ==> CellTrie(names + [w], u, v)
    ensures u == w ==> CellTrie(names + [w], u, |names|)
  {}

  lemma NoGrandchild(names: seq<Word>, w: Word, d: nat)
    requires Trie(names) && w !in names
    ensures w + [d] !in names && w + [d] != w
  {
    assert |w + [d]| != |w|;
    assert (w + [d])[..|w|] == w;
    if w + [d] in names {
      PrefixInTrie(names, w + [d], |w|);
      assert false;
    }
  }

  /** A word has only one place in the table. */
  lemma SameCell(names: seq<Word>, s: nat, c: nat, t: nat, d: nat)
    requires Trie(names) && s < |names| && t < |names| && names[s] + [c] == names[t] + [d]
    ensures s == t && c == d
  {
    assert Front(names[s] + [c]) == names[s] && Last(names[s] + [c]) == c;
    assert Front(names[t] + [d]) == names[t] && Last(names[t] + [d]) == d;
    SameName(names, s, t);
  }

  /** The last pattern among the first `p` that spells `w`, as `output_list` records it, or -1. */
  function LastOwner(patterns: seq<Word>, p: nat, w: Word): int
    requires p <= |patterns|
  {
    if p == 0 then -1 else if patterns[p - 1] == w then p - 1 else LastOwner(patterns, p - 1, w)
  }

  lemma {:induction false} LastOwnerNone(patterns: seq<Word>, p: nat, w: Word)
    requires p <= |patterns|
    ensures LastOwner(patterns, p, w) == -1 <==> forall q :: 0 <= q < p ==> patterns[q] != w
  {
    if p > 0 && patterns[p - 1] != w { LastOwnerNone(patterns, p - 1, w); }
  }

  /** After phase 1 has handled `p` patterns each state's mask holds the patterns it spells. */
  ghost predicate OwnOutputs(names: seq<Word>, patterns: seq<Word>, p: nat, out: seq<bv64>)
    requires p <= |patterns|
  {
    forall s, q {:trigger Has(out[s], q)} :: 0 <= s < |out| && 0 <= q ==>
      (Has(out[s], q) <==> q < p && q < MAX_BITMASK && s < |names| && patterns[q] == names[s])
  }

  ghost predicate OwnLists(names: seq<Word>, patterns: seq<Word>, p: nat, list: seq<int>)
    requires p <= |patterns|
  {
    forall s :: 0 <= s < |list| ==>
      list[s] == if s < |names| then LastOwner(patterns, p, names[s]) else -1
  }

  // ---- Phase 2: the breadth-first completion ----

  /** The cell of state `s` on letter `c` has its final value. */
  ghost predicate Finished(order: seq<nat>, h: nat, rc: nat, cc: nat, s: nat, c: nat)
    requires h <= |order|
  {
    || (s == 0 && c < rc)
    || s in order[..h]
    || (h < |order| && s == order[h] && c < cc)
  }

  /** States queued once each, in order of depth. */
  ghost predicate QueueShape(names: seq<Word>, order: seq<nat>) {
    && (forall i :: 0 <= i < |order| ==> 0 < order[i] < |names|)
    && (forall i, j :: 0 <= i < j < |order| ==> order[i] != order[j])
    && (forall i, j :: 0 <= i < j < |order| ==> |names[order[i]]| <= |names[order[j]]|)
  }

  /** The queue holds exactly the states that finished cells lead to. */
  ghost predicate QueueOk(names: seq<Word>, size: nat, order: seq<nat>, h: nat, rc: nat, cc: nat) {
    && TrieOver(names, size) && h <= |order|
    && QueueShape(names, order)
    && (forall s :: 0 < s < |names| ==>
          (s in order <==> Finished(order, h, rc, cc, Parent(names, s), Last(names[s]))))
  }

  lemma AppendShape(names: seq<Word>, order: seq<nat>, s: nat)
    requires QueueShape(names, order) && 0 < s < |names| && s !in order
    requires forall i :: 0 <= i < |order| ==> |names[order[i]]| <= |names[s]|
    ensures QueueShape(names, order + [s])
  {}

  /** The cell that leads to `t` is the cell of `s` on `c` only if `t` spells that word. */
  lemma CellOf(names: seq<Word>, s: nat, c: nat, t: nat)
    requires Trie(names) && s < |names| && 0 < t < |names|
    ensures Parent(names, t) == s && Last(names[t]) == c <==> names[t] == names[s] + [c]
  {
    hide Trie;
    if names[t] == names[s] + [c] {
      SameCell(names, s, c, Parent(names, t), Last(names[t]));
    }
  }

  /** While the root row is read, only its cells are finished. */
  lemma FinishedAtRoot(order: seq<nat>, rc: nat, s: nat, c: nat)
    ensures Finished(order, 0, rc, 0, s, c) <==> s == 0 && c < rc
  {
    assert order[..0] == [];
  }

  lemma QueuedAtRoot(names: seq<Word>, size: nat, order: seq<nat>, c: nat, t: nat)
    requires QueueOk(names, size, order, 0, c, 0) && 0 < t < |names|
    ensures t in order <==> Parent(names, t) == 0 && Last(names[t]) < c
  {
    hide Parent, Finished, QueueShape, Trie;
    FinishedAtRoot(order, c, Parent(names, t), Last(names[t]));
  }

  lemma RootChildDepth(names: seq<Word>, t: nat)
    requires Trie(names) && 0 < t < |names| && Parent(names, t) == 0
    ensures |names[t]| == 1
  {
    assert names[0] == [];
  }

  lemma EnqueueRootChild(names: seq<Word>, size: nat, order: seq<nat>, c: nat, s: nat)
    requires QueueOk(names, size, order, 0, c, 0) && c < size
    requires 0 < s < |names| && names[s] == [c]
    ensures s !in order
    ensures QueueOk(names, size, order + [s], 0, c + 1, 0)
  {
    assert names[0] == [];
    assert names[0] + [c] == [c];
    hide Trie, Parent, Finished, QueueShape;
    CellOf(names, 0, c, s);
    QueuedAtRoot(names, size, order, c, s);
    forall t | 0 < t < |names|
      ensures t in order + [s]
              <==> Finished(order + [s], 0, c + 1, 0, Parent(names, t), Last(names[t]))
    {
      QueuedAtRoot(names, size, order, c, t);
      FinishedAtRoot(order + [s], c + 1, Parent(names, t), Last(names[t]));
      CellOf(names, 0, c, t);
      if names[t] == [c] { SameName(names, s, t); }
    }
    RootQueueDepth(names, size, order, c);
    AppendShape(names, order, s);
  }

  lemma RootQueueDepth(names: seq<Word>, size: nat, order: seq<nat>, c: nat)
    requires QueueOk(names, size, order, 0, c, 0)
    ensures forall i :: 0 <= i < |order| ==> order[i] < |names| && |names[order[i]]| == 1
  {
    hide Trie, Parent, Finished;
    forall i | 0 <= i < |order| ensures order[i] < |names| && |names[order[i]]| == 1 {
      assert order[i] in order;
      QueuedAtRoot(names, size, order, c, order[i]);
      RootChildDepth(names, order[i]);
    }
  }

  lemma SkipRootChild(names: seq<Word>, size: nat, order: seq<nat>, c: nat)
    requires QueueOk(names, size, order, 0, c, 0) && c < size && [c] !in names
    ensures QueueOk(names, size, order, 0, c + 1, 0)
  {
    assert names[0] == [];
    assert names[0] + [c] == [c];
    hide Trie, Parent, Finished, QueueShape;
    forall t | 0 < t < |names|
      ensures t in order <==> Finished(order, 0, c + 1, 0, Parent(names, t), Last(names[t]))
    {
      QueuedAtRoot(names, size, order, c, t);
      FinishedAtRoot(order, c + 1, Parent(names, t), Last(names[t]));
      CellOf(names, 0, c, t);
      assert names[t] in names;
    }
  }

  lemma QueuedBefore(names: seq<Word>, order: seq<nat>, h: nat, t: nat)
    requires QueueShape(names, order) && h < |order| && t in order
    requires |names[t]| < |names[order[h]]|
    ensures t in order[..h]
  {
    var i :| 0 <= i < |order| && order[i] == t;
    assert order[..h][i] == t;
  }

  /** Every state shallower than the one at the head has been expanded already. */
  lemma {:induction false} ShallowerExpanded(names: seq<Word>, size: nat, order: seq<nat>, h: nat, cc: nat, t: nat)
    requires QueueOk(names, size, order, h, size, cc) && h < |order|
    requires 0 < t < |names| && |names[t]| < |names[order[h]]|
    ensures t in order[..h]
    decreases |names[t]|
  {
    hide Trie, Parent;
    var r := Parent(names, t);
    if r != 0 { ShallowerExpanded(names, size, order, h, cc, r); }
    assert Finished(order, h, size, cc, r, Last(names[t]));
    hide QueueOk, Finished, TrieOver;
    QueuedBefore(names, order, h, t);
  }

  /** Every state no deeper than the one at the head has been queued already. */
  lemma NoDeeperQueued(names: seq<Word>, size: nat, order: seq<nat>, h: nat, cc: nat, t: nat)
    requires QueueOk(names, size, order, h, size, cc) && h < |order|
    requires 0 < t < |names| && |names[t]| <= |names[order[h]]|
    ensures t in order
  {
    var r := Parent(names, t);
    if r != 0 { ShallowerExpanded(names, size, order, h, cc, r); }
    assert Finished(order, h, size, cc, r, Last(names[t]));
  }

  /** When the queue has run empty every state has been expanded. */
  lemma {:induction false} AllExpanded(names: seq<Word>, size: nat, order: seq<nat>, t: nat)
    requires QueueOk(names, size, order, |order|, size, 0) && 0 < t < |names|
    ensures t in order
    decreases |names[t]|
  {
    var r := Parent(names, t);
    if r != 0 {
      AllExpanded(names, size, order, r);
      assert order[..|order|] == order;
    }
    assert Finished(order, |order|, size, 0, r, Last(names[t]));
  }

  /** No queued state is more than one level below the head. */
  lemma QueuedDepth(names: seq<Word>, size: nat, order: seq<nat>, h: nat, cc: nat, i: nat)
    requires QueueOk(names, size, order, h, size, cc) && h < |order| && i < |order|
    ensures |names[order[i]]| <= |names[order[h]]| + 1
  {
    var q := Parent(names, order[i]);
    assert order[i] in order;
    assert Finished(order, h, size, cc, q, Last(names[order[i]]));
    if q in order[..h] {
      var k :| 0 <= k < h && order[k] == q;
    }
  }

  lemma EnqueueChild(names: seq<Word>, size: nat, order: seq<nat>, h: nat, cc: nat, s: nat)
    requires QueueOk(names, size, order, h, size, cc) && h < |order| && cc < size
    requires 0 < s < |names| && names[s] == names[order[h]] + [cc]
    ensures s !in order
    ensures QueueOk(names, size, order + [s], h, size, cc + 1)
  {
    hide Trie;
    var r := order[h];
    var more := order + [s];
    CellOf(names, r, cc, s);
    assert r !in order[..h];
    assert more[..h] == order[..h];
    forall t | 0 < t < |names|
      ensures t in more <==> Finished(more, h, size, cc + 1, Parent(names, t), Last(names[t]))
    {
      CellOf(names, r, cc, t);
      if names[t] == names[s] { SameName(names, s, t); }
    }
    forall i | 0 <= i < |order| ensures |names[order[i]]| <= |names[s]| {
      QueuedDepth(names, size, order, h, cc, i);
    }
    AppendShape(names, order, s);
  }

  lemma SkipChild(names: seq<Word>, size: nat, order: seq<nat>, h: nat, cc: nat)
    requires QueueOk(names, size, order, h, size, cc) && h < |order| && cc < size
    requires names[order[h]] + [cc] !in names
    ensures QueueOk(names, size, order, h, size, cc + 1)
  {
    hide Trie;
    forall t | 0 < t < |names|
      ensures t in order <==> Finished(order, h, size, cc + 1, Parent(names, t), Last(names[t]))
    {
      CellOf(names, order[h], cc, t);
      assert names[t] in names;
    }
  }

  /** With its row complete, the head counts as one more state before the head. */
  lemma RowComplete(order: seq<nat>, h: nat, size: nat, s: nat, c: nat)
    requires h < |order| && c < size
    ensures Finished(order, h, size, size, s, c) <==> Finished(order, h + 1, size, 0, s, c)
  {
    assert order[..h + 1] == order[..h] + [order[h]];
  }

  lemma NextHead(names: seq<Word>, size: nat, order: seq<nat>, h: nat)
    requires QueueOk(names, size, order, h, size, size) && h < |order|
    ensures QueueOk(names, size, order, h + 1, size, 0)
  {
    hide Trie, QueueShape, Finished, Parent, Last;
    forall t | 0 < t < |names|
      ensures t in order <==> Finished(order, h + 1, size, 0, Parent(names, t), Last(names[t]))
    {
      RowComplete(order, h, size, Parent(names, t), Last(names[t]));
    }
  }
}
