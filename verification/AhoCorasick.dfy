/** The Aho-Corasick automaton of internal/cbm/ac.c: built in place, scanned by table lookup. */
module AhoCorasick {
  import opened Basics
  import opened PatternMasks
  import opened TrieWords
  import opened AutomatonBfs
  import opened AutomatonSteps

  const BYTE_RANGE: nat := 256
  const NO_STATE: int := -1

  type Byte = b: nat | b < 256

  ghost predicate Alphabet(alphaMap: seq<nat>, size: nat) {
    |alphaMap| == BYTE_RANGE && forall b :: 0 <= b < BYTE_RANGE ==> alphaMap[b] < size
  }

  /** The text as the automaton reads it. */
  function Mapped(alphaMap: seq<nat>, text: seq<Byte>): Word
    requires |alphaMap| == BYTE_RANGE
  {
    seq(|text|, i requires 0 <= i < |text| => alphaMap[text[i]])
  }

  function MappedAll(alphaMap: seq<nat>, texts: seq<seq<Byte>>): seq<Word>
    requires |alphaMap| == BYTE_RANGE
  {
    seq(|texts|, p requires 0 <= p < |texts| => Mapped(alphaMap, texts[p]))
  }

  /** Root plus one state a letter for the first `p` patterns: the most a trie can need. */
  function MaxStates(patterns: seq<Word>, p: nat): nat
    requires p <= |patterns|
  {
    if p == 0 then 1 else MaxStates(patterns, p - 1) + |patterns[p - 1]|
  }

  lemma {:induction false} MaxStatesGrows(patterns: seq<Word>, p: nat, q: nat)
    requires p <= q <= |patterns|
    ensures MaxStates(patterns, p) <= MaxStates(patterns, q)
    decreases q
  {
    if p < q { MaxStatesGrows(patterns, p, q - 1); }
  }

  ghost predicate BeginsSome(patterns: seq<Word>, w: Word) {
    exists p :: 0 <= p < |patterns| && w <= patterns[p]
  }

  /** The trie has a state for every prefix of a pattern and for nothing else. */
  ghost predicate PrefixTrie(names: seq<Word>, size: nat, patterns: seq<Word>) {
    TrieOver(names, size) && forall w :: w in names <==> BeginsSome(patterns, w)
  }

  lemma AddStateOutputs(names: seq<Word>, patterns: seq<Word>, p: nat, out: seq<bv64>, list: seq<int>, w: Word)
    requires p <= |patterns| && w !in names
    requires forall q :: 0 <= q < p ==> patterns[q] in names
    requires OwnOutputs(names, patterns, p, out) && OwnLists(names, patterns, p, list)
    ensures OwnOutputs(names + [w], patterns, p, out) && OwnLists(names + [w], patterns, p, list)
  {
    hide Has;
    LastOwnerNone(patterns, p, w);
    var more := names + [w];
    forall s, q | 0 <= s < |out| && 0 <= q
      ensures Has(out[s], q) <==> q < p && q < MAX_BITMASK && s < |more| && patterns[q] == more[s]
    {
      assert s < |names| ==> more[s] == names[s];
      assert q < p ==> patterns[q] in names;
    }
    forall s | 0 <= s < |list|
      ensures list[s] == if s < |more| then LastOwner(patterns, p, more[s]) else -1
    {
      assert s < |names| ==> more[s] == names[s];
    }
  }

  lemma MarkPattern(names: seq<Word>, patterns: seq<Word>, p: nat, out: seq<bv64>, s: nat)
    requires Trie(names) && p < |patterns| && s < |names| <= |out| && names[s] == patterns[p]
    requires OwnOutputs(names, patterns, p, out)
    ensures OwnOutputs(names, patterns, p + 1,
                       if p < MAX_BITMASK then out[s := Union(out[s], PatternBit(p))] else out)
  {
    hide Has, Union, PatternBit, Trie;
    forall t: nat | t < |names| && names[t] == patterns[p] ensures t == s { SameName(names, s, t); }
    if p < MAX_BITMASK {
      var out' := out[s := Union(out[s], PatternBit(p))];
      forall t, q {:trigger Has(out'[t], q)} | 0 <= t < |out'| && 0 <= q
        ensures Has(out'[t], q) <==> q < p + 1 && q < MAX_BITMASK && t < |names| && patterns[q] == names[t]
      {
        assert Has(out[t], q) <==> q < p && q < MAX_BITMASK && t < |names| && patterns[q] == names[t];
        if t == s {
          HasUnion(out[s], PatternBit(p), q);
          HasPatternBit(p, q);
        }
      }
      assert OwnOutputs(names, patterns, p + 1, out');
    }
  }

  lemma ListPattern(names: seq<Word>, patterns: seq<Word>, p: nat, list: seq<int>, s: nat)
    requires Trie(names) && p < |patterns| && s < |names| <= |list| && names[s] == patterns[p]
    requires OwnLists(names, patterns, p, list)
    ensures OwnLists(names, patterns, p + 1, list[s := p])
  {
    forall t | 0 <= t < |names| && names[t] == patterns[p] ensures t == s { SameName(names, s, t); }
  }

  lemma StartTrie(patterns: seq<Word>, size: nat, go: seq<int>, out: seq<bv64>, list: seq<int>)
    requires forall i :: 0 <= i < |go| ==> go[i] == NO_STATE
    requires forall i :: 0 <= i < |out| ==> out[i] == 0
    requires forall i :: 0 <= i < |list| ==> list[i] == NO_STATE
    ensures TrieOver([[]], size) && TrieTable([[]], size, go)
    ensures OwnOutputs([[]], patterns, 0, out) && OwnLists([[]], patterns, 0, list)
  {
    hide Cell, Has;
    forall s, q | 0 <= s < |out| && 0 <= q ensures !Has(out[s], q) { HasZero(q); }
  }

  lemma RootName(names: seq<Word>)
    requires Trie(names)
    ensures names != [] && names[0] == []
  {}

  lemma FirstRow(size: nat, c: nat)
    ensures Cell(size, 0, c) == c
  {}

  lemma TrieTableAt(names: seq<Word>, size: nat, go: seq<int>, s: nat, c: nat)
    requires TrieTable(names, size, go) && s < |names| && c < size
    ensures CellTrie(names, names[s] + [c], At(go, size, s, c))
  {}

  lemma TrieRows(names: seq<Word>, size: nat, go: seq<int>)
    requires Trie(names) && TrieTable(names, size, go)
    ensures Rows(names, size, [], 0, 0, 0, go)
  {
    hide At, CellTrie, CellDone, Trie;
  }

  /** The root's self-loop on a letter no pattern starts with. */
  lemma RootCell(names: seq<Word>, size: nat, c: nat, go: seq<int>)
    requires Trie(names) && c < size && Cell(size, 0, c) == c < |go|
    requires Rows(names, size, [], 0, c, 0, go)
    ensures Rows(names, size, [], 0, c + 1, 0, go[c := if go[c] == NO_STATE then 0 else go[c]])
  {
    hide Cell, LongestSuffix;
    var v := if go[c] == NO_STATE then 0 else go[c];
    RootName(names);
    assert names[0] + [c] == [c];
    assert At(go, size, 0, c) == go[c];
    assert CellTrie(names, [c], go[c]) by { assert !Finished([], 0, c, 0, 0, c); }
    RootDone(names, c, go[c]);
    SetCellAll(go, go[c := v], size, 0, c, v);
    hide At, Trie, CellDone, CellTrie;
    forall s, d | 0 <= s < |names| && 0 <= d < size
      ensures Finished([], 0, c + 1, 0, s, d) <==> Finished([], 0, c, 0, s, d) || (s == 0 && d == c)
    {}
  }

  ghost function NonRoot(n: nat): (states: set<nat>)
    ensures forall s :: s in states <==> 0 < s < n
    ensures |states| == if n == 0 then 0 else n - 1
  {
    if n <= 1 then {} else NonRoot(n - 1) + {n - 1}
  }

  ghost function Elements<T(!new)>(order: seq<T>): (states: set<T>)
    requires forall i, j :: 0 <= i < j < |order| ==> order[i] != order[j]
    ensures forall s :: s in states <==> s in order
    ensures |states| == |order|
  {
    if order == [] then {} else
      var last := |order| - 1;
      assert order == order[..last] + [order[last]];
      Elements(order[..last]) + {order[last]}
  }

  /** Distinct positive state numbers below n: at most n - 1 of them, so the queue never overflows,
      and once there are n - 1 of them every non-root state is there. */
  lemma QueueFits(order: seq<nat>, n: nat)
    requires n > 0 && forall i :: 0 <= i < |order| ==> 0 < order[i] < n
    requires forall i, j :: 0 <= i < j < |order| ==> order[i] != order[j]
    ensures |order| <= n - 1
    ensures |order| == n - 1 <==> forall s :: 0 < s < n ==> s in order
  {
    var queued, all := Elements(order), NonRoot(n);
    hide Elements, NonRoot;
    forall s | s in queued ensures s in all {
      assert s in order;
    }
    SubsetSize(queued, all);
    if |order| == n - 1 {
      forall s: nat | 0 < s < n ensures s in order {
        assert s in queued;
      }
    } else {
      assert queued != all;
      var missing :| missing in all && missing !in queued;
      assert missing !in order;
    }
  }

  lemma {:induction false} SubsetSize(a: set<nat>, b: set<nat>)
    requires a <= b
    ensures |a| <= |b|
    ensures |a| == |b| ==> a == b
  {
    assert b == a + (b - a);
  }

  /** Phase 1 while `p` patterns are complete and the next one is in up to its first `j` letters. */
  ghost predicate Growing(names: seq<Word>, size: nat, patterns: seq<Word>, p: nat, j: nat,
                          go: seq<int>, out: seq<bv64>, list: seq<int>)
  {
    && p <= |patterns| && (j > 0 ==> p < |patterns| && j <= |patterns[p]|)
    && |names| <= MaxStates(patterns, p) + j
    && TrieOver(names, size) && TrieTable(names, size, go)
    && (forall w :: w in names ==> BeginsSome(patterns, w))
    && (forall q :: 0 <= q < p ==> patterns[q] in names)
    && OwnOutputs(names, patterns, p, out) && OwnLists(names, patterns, p, list)
  }

  lemma StartGrowing(size: nat, patterns: seq<Word>, go: seq<int>, out: seq<bv64>, list: seq<int>)
    requires patterns != []
    requires forall i :: 0 <= i < |go| ==> go[i] == NO_STATE
    requires forall i :: 0 <= i < |out| ==> out[i] == 0
    requires forall i :: 0 <= i < |list| ==> list[i] == NO_STATE
    ensures Growing([[]], size, patterns, 0, 0, go, out, list)
  {
    StartTrie(patterns, size, go, out, list);
    hide TrieOver, TrieTable, OwnOutputs, OwnLists;
    assert [] <= patterns[0];
  }

  /** The cell for the next letter is inside the table, and says whether the child exists. */
  lemma GrowingCell(names: seq<Word>, size: nat, patterns: seq<Word>, p: nat, j: nat,
                    go: seq<int>, out: seq<bv64>, list: seq<int>, s: nat, c: nat)
    requires Growing(names, size, patterns, p, j, go, out, list)
    requires p < |patterns| && j < |patterns[p]| && |go| == MaxStates(patterns, |patterns|) * size
    requires s < |names| && names[s] == patterns[p][..j] && c == patterns[p][j] < size
    ensures |names| < MaxStates(patterns, |patterns|)
    ensures Cell(size, s, c) < |go|
    ensures CellTrie(names, patterns[p][..j + 1], go[Cell(size, s, c)])
    ensures go[Cell(size, s, c)] != NO_STATE ==> Growing(names, size, patterns, p, j + 1, go, out, list)
  {
    hide TrieOver, TrieTable, OwnOutputs, OwnLists, Cell;
    MaxStatesGrows(patterns, p + 1, |patterns|);
    CellInTable(size, MaxStates(patterns, |patterns|), s, c);
    TrieTableAt(names, size, go, s, c);
    assert patterns[p][..j + 1] == names[s] + [c];
    assert At(go, size, s, c) == go[Cell(size, s, c)];
  }

  lemma GrowingFits(names: seq<Word>, size: nat, patterns: seq<Word>, p: nat, j: nat,
                    go: seq<int>, out: seq<bv64>, list: seq<int>)
    requires Growing(names, size, patterns, p, j, go, out, list)
    ensures |names| <= MaxStates(patterns, |patterns|)
  {
    hide TrieOver, TrieTable, OwnOutputs, OwnLists, BeginsSome;
    if j > 0 { MaxStatesGrows(patterns, p + 1, |patterns|); }
    MaxStatesGrows(patterns, p, |patterns|);
  }

  lemma GrowState(names: seq<Word>, size: nat, patterns: seq<Word>, p: nat, j: nat,
                  go: seq<int>, out: seq<bv64>, list: seq<int>, s: nat, c: nat)
    requires Growing(names, size, patterns, p, j, go, out, list)
    requires p < |patterns| && j < |patterns[p]|
    requires s < |names| && names[s] == patterns[p][..j] && c == patterns[p][j] < size
    requires Cell(size, s, c) < |go| && go[Cell(size, s, c)] == NO_STATE
    ensures Growing(names + [patterns[p][..j + 1]], size, patterns, p, j + 1,
                    go[Cell(size, s, c) := |names|], out, list)
  {
    hide TrieOver, TrieTable, OwnOutputs, OwnLists, Cell;
    var w := patterns[p][..j + 1];
    assert w == names[s] + [c];
    TrieTableAt(names, size, go, s, c);
    assert At(go, size, s, c) == go[Cell(size, s, c)];
    AddState(names, size, go, s, c);
    AddStateOutputs(names, patterns, p, out, list, w);
    assert BeginsSome(patterns, w);
    forall q | 0 <= q < p ensures patterns[q] in names + [w] { assert patterns[q] in names; }
  }

  lemma GrowPattern(names: seq<Word>, size: nat, patterns: seq<Word>, p: nat,
                    go: seq<int>, out: seq<bv64>, list: seq<int>, s: nat)
    requires p < |patterns| && Growing(names, size, patterns, p, |patterns[p]|, go, out, list)
    requires s < |names| <= |out| && |names| <= |list| && names[s] == patterns[p]
    ensures Growing(names, size, patterns, p + 1, 0, go,
                    if p < MAX_BITMASK then out[s := Union(out[s], PatternBit(p))] else out, list[s := p])
  {
    hide TrieTable, OwnOutputs, OwnLists, Union, PatternBit, Trie, BeginsSome;
    MarkPattern(names, patterns, p, out, s);
    ListPattern(names, patterns, p, list, s);
    assert names[s] in names;
  }

  lemma FinishGrowing(names: seq<Word>, size: nat, patterns: seq<Word>, go: seq<int>, out: seq<bv64>, list: seq<int>)
    requires Growing(names, size, patterns, |patterns|, 0, go, out, list)
    ensures PrefixTrie(names, size, patterns) && AllInTrie(names, patterns)
    ensures Rows(names, size, [], 0, 0, 0, go)
    ensures OwnOutputs(names, patterns, |patterns|, out) && OwnLists(names, patterns, |patterns|, list)
    ensures |names| <= MaxStates(patterns, |patterns|)
  {
    hide OwnOutputs, OwnLists, Rows, TrieTable, Trie, BeginsSome, MaxStates;
    TrieRows(names, size, go);
    PrefixesInTrie(names, patterns);
  }

  lemma PrefixesInTrie(names: seq<Word>, patterns: seq<Word>)
    requires Trie(names) && forall q :: 0 <= q < |patterns| ==> patterns[q] in names
    ensures forall w :: BeginsSome(patterns, w) ==> w in names
  {
    hide Trie;
    forall w | BeginsSome(patterns, w) ensures w in names {
      var p :| 0 <= p < |patterns| && w <= patterns[p];
      PrefixInTrie(names, patterns[p], |w|);
      assert patterns[p][..|w|] == w;
    }
  }

  lemma PrefixTrieFacts(names: seq<Word>, size: nat, patterns: seq<Word>)
    requires PrefixTrie(names, size, patterns)
    ensures TrieOver(names, size) && Trie(names) && AllInTrie(names, patterns)
  {
    forall p | 0 <= p < |patterns| ensures patterns[p] in names {
      assert BeginsSome(patterns, patterns[p]);
    }
  }

  lemma CellInTableUpTo(size: nat, n: nat, m: nat)
    requires n <= m
    ensures n * size <= m * size
  {}

  lemma CellHere(go: seq<int>, size: nat, s: nat, c: nat)
    requires Cell(size, s, c) < |go|
    ensures At(go, size, s, c) == go[Cell(size, s, c)]
  {}

  lemma RootStateInRange(names: seq<Word>, size: nat, patterns: seq<Word>, order: seq<nat>, c: nat,
                         go: seq<int>, fail: seq<int>, out: seq<bv64>, list: seq<int>, next: seq<int>)
    requires Completing(names, size, patterns, order, 0, c, 0, go, fail, out, list, next) && c < size
    ensures 0 <= At(go, size, 0, c) < |names|
  {
    hide At, LongestSuffix, CellTrie, Fails, Masks, Links, OwnLists, AllInTrie;
    assert Finished(order, 0, size, 0, 0, c);
  }

  /** A state that has just been queued still had room in a queue of one cell a state. */
  lemma QueueRoom(names: seq<Word>, size: nat, patterns: seq<Word>, order: seq<nat>, h: nat, rc: nat, cc: nat,
                  go: seq<int>, fail: seq<int>, out: seq<bv64>, list: seq<int>, next: seq<int>)
    requires Completing(names, size, patterns, order, h, rc, cc, go, fail, out, list, next)
    ensures |order| < |names|
  {
    hide Trie, Rows, Fails, Masks, Links, OwnLists, AllInTrie, Finished;
    assert TrieOver(names, size) && names != [] by { TrieNonempty(names, size); }
    QueueFits(order, |names|);
  }

  lemma ExpansionRange(names: seq<Word>, size: nat, patterns: seq<Word>, order: seq<nat>, h: nat, cc: nat,
                       go: seq<int>, fail: seq<int>, out: seq<bv64>, list: seq<int>, next: seq<int>)
    requires Completing(names, size, patterns, order, h, size, cc, go, fail, out, list, next)
    requires h < |order| && cc < size
    ensures order[h] < |names| && 0 <= fail[order[h]] < |names|
    ensures -1 <= At(go, size, order[h], cc) < |names|
    ensures 0 <= At(go, size, fail[order[h]], cc) < |names|
  {
    ExpansionCells(names, size, patterns, order, h, cc, go, fail, out, list, next);
    hide At, LongestSuffix, Rows, Fails, Masks, Links, OwnLists, AllInTrie, QueueShape, Finished;
  }

  lemma TrieNonempty(names: seq<Word>, size: nat)
    requires TrieOver(names, size)
    ensures names != []
  {}

  /** The state count is the number of distinct pattern prefixes. */
  lemma StatesArePrefixes(names: seq<Word>, size: nat, patterns: seq<Word>, prefixes: set<Word>)
    requires PrefixTrie(names, size, patterns)
    requires forall w :: w in prefixes <==> BeginsSome(patterns, w)
    ensures |names| == |prefixes|
  {
    hide BeginsSome;
    assert Elements(names) == prefixes;
  }

  method Resized<T>(a: array<T>, n: nat) returns (b: array<T>)
    requires n <= a.Length
    ensures fresh(b) && b[..] == a[..n]
  {
    b := new T[n](i requires 0 <= i < a.Length reads a => a[i]);
  }

  lemma CutTables(names: seq<Word>, size: nat, patterns: seq<Word>, go: seq<int>, out: seq<bv64>, next: seq<int>)
    requires Trie(names) && |names| * size <= |go|
    requires AllRowsDone(names, size, go) && AllMasksDone(names, patterns, out) && AllLinksDone(names, patterns, next)
    ensures AllRowsDone(names, size, go[..|names| * size])
    ensures AllMasksDone(names, patterns, out[..|names|])
    ensures AllLinksDone(names, patterns, next[..|names|])
  {
    hide Trie, LinkOf, Has, Reports, CellDone, Cell;
    var n := |names|;
    forall s, c | 0 <= s < n && 0 <= c < size
      ensures At(go[..n * size], size, s, c) == At(go, size, s, c)
    {
      CellInTable(size, n, s, c);
    }
  }

  class Automaton {
    var numStates: nat
    const numPatterns: nat
    const alphaSize: nat
    const alphaMap: seq<nat>
    var goTable: array<int>
    var output: array<bv64>
    var outputList: array<int>
    var outputNext: array<int>

    /** The mapped patterns, and the word each state stands for. */
    ghost const patterns: seq<Word>
    ghost var names: seq<Word>

    /** Table sizes while `rows` states fit. */
    ghost predicate Shape(rows: nat)
      reads this
    {
      && goTable.Length == rows * alphaSize && output.Length == rows
      && outputList.Length == rows && outputNext.Length == rows
      && output as object != goTable && output as object != outputList && output as object != outputNext
      && goTable != outputList && goTable != outputNext && outputList != outputNext
      && Alphabet(alphaMap, alphaSize) && numPatterns == |patterns| > 0
    }

    /** The trie is complete, and the root row has its self-loops. */
    ghost predicate TrieBuilt(n: nat)
      reads this, goTable, output, outputList
    {
      && n == |names| && PrefixTrie(names, alphaSize, patterns)
      && Rows(names, alphaSize, [], 0, alphaSize, 0, goTable[..])
      && OwnOutputs(names, patterns, |patterns|, output[..])
      && OwnLists(names, patterns, |patterns|, outputList[..])
    }

    /** The finished automaton, which is all that a scan relies on. */
    ghost predicate Complete(n: nat)
      reads this, goTable, output, outputNext
    {
      && n == |names| && PrefixTrie(names, alphaSize, patterns)
      && goTable.Length >= n * alphaSize
      && AllRowsDone(names, alphaSize, goTable[..])
      && AllMasksDone(names, patterns, output[..])
      && AllLinksDone(names, patterns, outputNext[..])
    }

    constructor Allocate(patterns: seq<seq<Byte>>, alphaMap: seq<nat>, alphaSize: nat, maxStates: nat)
      requires Alphabet(alphaMap, alphaSize) && patterns != [] && maxStates >= 1
      ensures this.alphaMap == alphaMap && this.alphaSize == alphaSize
      ensures this.patterns == MappedAll(alphaMap, patterns) && numPatterns == |patterns|
      ensures fresh(goTable) && fresh(output) && fresh(outputList) && fresh(outputNext)
      ensures Shape(maxStates)
      ensures forall i :: 0 <= i < goTable.Length ==> goTable[i] == NO_STATE
      ensures forall i :: 0 <= i < maxStates ==>
                output[i] == 0 && outputList[i] == NO_STATE && outputNext[i] == NO_STATE
    {
      this.alphaMap := alphaMap;
      this.alphaSize := alphaSize;
      this.numPatterns := |patterns|;
      this.patterns := MappedAll(alphaMap, patterns);
      numStates := 0;
      names := [];
      goTable := new int[maxStates * alphaSize](_ => NO_STATE);
      output := new bv64[maxStates](_ => 0);
      outputList := new int[maxStates](_ => NO_STATE);
      outputNext := new int[maxStates](_ => NO_STATE);
    }

    ghost predicate TrieGrowing(p: nat, j: nat)
      reads this, goTable, output, outputList
    {
      && Shape(output.Length) && output.Length == MaxStates(patterns, |patterns|)
      && Growing(names, alphaSize, patterns, p, j, goTable[..], output[..], outputList[..])
    }

    /** `ac_build_trie`, a pattern at a time. */
    method BuildTrie(texts: seq<seq<Byte>>) returns (n: nat)
      requires Shape(output.Length) && patterns == MappedAll(alphaMap, texts)
      requires output.Length == MaxStates(patterns, |patterns|)
      requires forall i :: 0 <= i < goTable.Length ==> goTable[i] == NO_STATE
      requires forall i :: 0 <= i < output.Length ==> output[i] == 0 && outputList[i] == NO_STATE
      modifies this`names, goTable, output, outputList
      ensures TrieBuilt(n) && 0 < n <= output.Length
    {
      hide Growing, MaxStates, PrefixTrie, Rows, OwnOutputs, OwnLists;
      n := 1;
      names := [[]];
      StartGrowing(alphaSize, patterns, goTable[..], output[..], outputList[..]);
      for p := 0 to |texts|
        invariant n == |names| && TrieGrowing(p, 0)
      {
        assert patterns[p] == Mapped(alphaMap, texts[p]);
        n := AddPattern(texts[p], p, n);
      }
      CloseRoot(n);
    }

    /** The body of the pattern loop. */
    method AddPattern(text: seq<Byte>, p: nat, n0: nat) returns (n: nat)
      requires TrieGrowing(p, 0) && n0 == |names|
      requires p < |patterns| && patterns[p] == Mapped(alphaMap, text)
      modifies this`names, goTable, output, outputList
      ensures TrieGrowing(p + 1, 0) && n == |names|
    {
      hide Cell, OwnOutputs, OwnLists, MaxStates, Trie, TrieTable, BeginsSome;
      n := n0;
      var state := 0;
      RootName(names);
      hide Growing;
      for j := 0 to |text|
        invariant TrieGrowing(p, j) && n == |names|
        invariant 0 <= state < n && names[state] == patterns[p][..j]
      {
        var c := alphaMap[text[j]];
        var idx := Cell(alphaSize, state, c);
        ghost var go := goTable[..];
        GrowingCell(names, alphaSize, patterns, p, j, go, output[..], outputList[..], state, c);
        if goTable[idx] == NO_STATE {
          GrowState(names, alphaSize, patterns, p, j, go, output[..], outputList[..], state, c);
          goTable[idx] := n;
          n := n + 1;
          assert goTable[..] == go[idx := |names|];
          names := names + [patterns[p][..j + 1]];
        }
        state := goTable[idx];
      }
      assert patterns[p][..|text|] == patterns[p];
      FinishPattern(p, state);
    }

    /** Records pattern `p` at the state that spells it. */
    method FinishPattern(p: nat, state: nat)
      requires p < |patterns| && TrieGrowing(p, |patterns[p]|)
      requires state < |names| && names[state] == patterns[p]
      modifies output, outputList
      ensures TrieGrowing(p + 1, 0)
    {
      hide Growing, PatternBit, Union, MaxStates;
      ghost var out, list := output[..], outputList[..];
      GrowingFits(names, alphaSize, patterns, p, |patterns[p]|, goTable[..], out, list);
      GrowPattern(names, alphaSize, patterns, p, goTable[..], out, list, state);
      if p < MAX_BITMASK {
        output[state] := Union(output[state], PatternBit(p));
        assert output[..] == out[state := Union(out[state], PatternBit(p))];
      }
      outputList[state] := p;
      assert outputList[..] == list[state := p];
    }

    /** The root's self-loops. */
    method CloseRoot(n: nat)
      requires TrieGrowing(|patterns|, 0) && n == |names|
      modifies goTable
      ensures TrieBuilt(n) && 0 < n <= output.Length
    {
      hide Cell, OwnOutputs, OwnLists, Rows, MaxStates, Trie, TrieTable, BeginsSome;
      RootName(names);
      FinishGrowing(names, alphaSize, patterns, goTable[..], output[..], outputList[..]);
      hide Growing;
      for c := 0 to alphaSize
        invariant Rows(names, alphaSize, [], 0, c, 0, goTable[..])
      {
        ghost var go := goTable[..];
        CellInTable(alphaSize, output.Length, 0, c);
        FirstRow(alphaSize, c);
        RootCell(names, alphaSize, c, go);
        if goTable[c] == NO_STATE {
          goTable[c] := 0;
        }
        assert goTable[..] == go[c := if go[c] == NO_STATE then 0 else go[c]];
      }
    }

    /** The state of the completion: see Completing. */
    ghost predicate Running(order: seq<nat>, h: nat, rc: nat, cc: nat, fail: array<int>)
      reads this, goTable, output, outputList, outputNext, fail
    {
      && Shape(output.Length) && |names| <= output.Length && fail.Length == |names|
      && fail != goTable && fail != outputList && fail != outputNext && fail as object != output
      && Completing(names, alphaSize, patterns, order, h, rc, cc,
                    goTable[..], fail[..], output[..], outputList[..], outputNext[..])
    }

    /** `ac_build_failure`: breadth-first, in place. What leaves the queue is every non-root state, once,
        none before a shallower one. */
    method BuildFailure(n: nat) returns (ghost queue: Queue)
      requires Shape(output.Length) && TrieBuilt(n) && 0 < n <= output.Length
      requires forall s :: 0 <= s < outputNext.Length ==> outputNext[s] == NO_STATE
      modifies goTable, output, outputNext
      ensures Complete(n) && Shape(output.Length)
      ensures fresh(queue) && fresh(queue.data) && queue.Valid() && queue.Empty()
      ensures QueueShape(names, queue.popped) && |queue.popped| == n - 1
      ensures forall s :: 0 < s < n ==> s in queue.popped
    {
      hide Completing, Rows, OwnOutputs, OwnLists, At, Cell;
      var fail := new int[n](_ => 0);
      var q := new Queue(n);
      PrefixTrieFacts(names, alphaSize, patterns);
      StartCompleting(names, alphaSize, patterns, goTable[..], fail[..], output[..], outputList[..], outputNext[..]);
      hide PrefixTrie;
      QueueRootChildren(n, fail, q);
      while !q.Empty()
        invariant q.Valid() && q.data.Length == n && fresh(q) && fresh(q.data) && fresh(fail)
        invariant Running(q.Pushed(), q.head, alphaSize, 0, fail)
        invariant PrefixTrie(names, alphaSize, patterns)
        decreases n - q.head
      {
        Expand(n, fail, q);
      }
      FinishCompleting(names, alphaSize, patterns, q.Pushed(),
                       goTable[..], fail[..], output[..], outputList[..], outputNext[..]);
      CellInTableUpTo(alphaSize, n, output.Length);
      assert q.popped == q.Pushed();
      QueueFits(q.popped, n);
      queue := q;
    }

    method QueueRootChildren(n: nat, fail: array<int>, q: Queue)
      requires n == |names| && Running([], 0, 0, 0, fail) && 0 < n
      requires q.Valid() && q.Pushed() == [] && q.head == 0 && q.data.Length == n && Apart(q, fail)
      modifies fail, q, q.data
      ensures q.Valid() && q.head == 0 && Running(q.Pushed(), 0, alphaSize, 0, fail)
    {
      hide Completing, At, Cell;
      for c := 0 to alphaSize
        invariant q.Valid() && q.head == 0 && Running(q.Pushed(), 0, c, 0, fail)
      {
        CellInTable(alphaSize, output.Length, 0, c);
        FirstRow(alphaSize, c);
        CellHere(goTable[..], alphaSize, 0, c);
        var s := goTable[c];
        ghost var order, fails := q.Pushed(), fail[..];
        RootStateInRange(names, alphaSize, patterns, order, c,
                         goTable[..], fails, output[..], outputList[..], outputNext[..]);
        RootStep(names, alphaSize, patterns, order, c, s,
                 goTable[..], fails, output[..], outputList[..], outputNext[..]);
        if s != 0 {
          QueueRoom(names, alphaSize, patterns, order + [s], 0, c + 1, 0,
                    goTable[..], fails[s := 0], output[..], outputList[..], outputNext[..]);
          fail[s] := 0;
          assert fail[..] == fails[s := 0];
          q.Push(s);
        }
      }
    }

    /** Pops one state and completes its row. */
    method Expand(n: nat, fail: array<int>, q: Queue)
      requires n == |names| && q.Valid() && q.data.Length == n && Apart(q, fail)
      requires Running(q.Pushed(), q.head, alphaSize, 0, fail) && !q.Empty()
      modifies goTable, output, outputNext, fail, q, q.data
      ensures q.Valid() && q.head == old(q.head) + 1
      ensures q.popped == old(q.popped) + [old(q.Pushed())[old(q.head)]]
      ensures Running(q.Pushed(), q.head, alphaSize, 0, fail)
    {
      hide Completing, At, Cell, Union;
      ghost var h := q.head;
      var r := q.Pop();
      for c := 0 to alphaSize
        invariant q.Valid() && q.head == h + 1 && r == q.Pushed()[h] && q.popped == old(q.popped) + [r]
        invariant Running(q.Pushed(), h, alphaSize, c, fail)
      {
        CompleteCell(n, r, c, h, fail, q);
      }
      HeadStep(names, alphaSize, patterns, q.Pushed(), h,
               goTable[..], fail[..], output[..], outputList[..], outputNext[..]);
    }

    /** The transition of the popped state `r` on letter `c`. */
    method CompleteCell(n: nat, r: nat, c: nat, ghost h: nat, fail: array<int>, q: Queue)
      requires n == |names| && q.Valid() && q.data.Length == n && Apart(q, fail)
      requires q.head == h + 1 && r == q.Pushed()[h] && c < alphaSize
      requires Running(q.Pushed(), h, alphaSize, c, fail)
      modifies goTable, output, outputNext, fail, q`tail, q.data
      ensures q.Valid() && q.head == h + 1 && |q.Pushed()| > h && r == q.Pushed()[h]
      ensures Running(q.Pushed(), h, alphaSize, c + 1, fail)
    {
      hide Completing, At, Cell, Union, CellTrie, CellDone;
      ghost var order, go, fails, out, list, next :=
        q.Pushed(), goTable[..], fail[..], output[..], outputList[..], outputNext[..];
      ExpansionRange(names, alphaSize, patterns, order, h, c, go, fails, out, list, next);
      var idx := Cell(alphaSize, r, c);
      CellInTable(alphaSize, output.Length, r, c);
      CellInTable(alphaSize, output.Length, fail[r], c);
      CellHere(go, alphaSize, r, c);
      CellHere(go, alphaSize, fail[r], c);
      var s := goTable[idx];
      if s != NO_STATE {
        ghost var f := At(go, alphaSize, fails[r], c);
        ChildStep(names, alphaSize, patterns, order, h, c, go, fails, out, list, next, s, f);
        QueueRoom(names, alphaSize, patterns, order + [s], h, alphaSize, c + 1, go, fails[s := f],
                  out[s := Union(out[s], out[f])], list, if list[f] != -1 then next[s := f] else next);
        RecordChild(s, r, c, f, fail);
        q.Push(s);
      } else {
        MissingStep(names, alphaSize, patterns, order, h, c, go, fails, out, list, next,
                    go[idx := At(go, alphaSize, fails[r], c)]);
        goTable[idx] := goTable[Cell(alphaSize, fail[r], c)];
        assert goTable[..] == go[idx := At(go, alphaSize, fails[r], c)];
      }
    }

    /** The four updates for a child `s` of `r` on `c`. */
    method RecordChild(s: nat, r: nat, c: nat, ghost f: nat, fail: array<int>)
      requires Shape(output.Length) && fail.Length <= output.Length && s < fail.Length && r < fail.Length
      requires fail != goTable && fail != outputList && fail != outputNext && fail as object != output
      requires 0 <= fail[r] && Cell(alphaSize, fail[r], c) < goTable.Length
      requires goTable[Cell(alphaSize, fail[r], c)] == f < output.Length
      requires outputNext[s] == NO_STATE
      modifies fail, output, outputNext
      ensures fail[..] == old(fail[..])[s := f]
      ensures output[..] == old(output[..])[s := Union(old(output[s]), old(output[f]))]
      ensures outputNext[..] == if outputList[f] != -1 then old(outputNext[..])[s := f] else old(outputNext[..])
    {
      hide Cell, Union;
      fail[s] := goTable[Cell(alphaSize, fail[r], c)];
      output[s] := Union(output[s], output[fail[s]]);
      if outputNext[s] == NO_STATE && outputList[fail[s]] != NO_STATE {
        outputNext[s] := fail[s];
      }
    }

    /** `ac_shrink_tables`: every table is cut down to the states in use. */
    method ShrinkTables(n: nat, maxStates: nat)
      requires Shape(maxStates) && Complete(n) && n <= maxStates
      modifies this
      ensures Shape(n) && Complete(n) && names == old(names)
      ensures unchanged(`numStates)
    {
      hide PrefixTrie, AllRowsDone, AllMasksDone, AllLinksDone, Cell, At;
      if n >= maxStates {
        return;
      }
      PrefixTrieFacts(names, alphaSize, patterns);
      CellInTableUpTo(alphaSize, n, maxStates);
      CutTables(names, alphaSize, patterns, goTable[..], output[..], outputNext[..]);
      goTable := Resized(goTable, n * alphaSize);
      output := Resized(output, n);
      outputList := Resized(outputList, n);
      outputNext := Resized(outputNext, n);
    }

    /** The end of `cbm_ac_build`. */
    method Finish(n: nat, maxStates: nat)
      requires Shape(maxStates) && Complete(n) && 0 < n <= maxStates
      modifies this
      ensures Built() && numStates == |names| && names == old(names)
    {
      hide PrefixTrie, AllRowsDone, AllMasksDone, AllLinksDone;
      numStates := n;
      ShrinkTables(n, maxStates);
    }

    /** What every scan requires and `Build` provides. */
    ghost predicate Built()
      reads this, goTable, output, outputNext
    {
      Shape(numStates) && Complete(numStates) && numStates > 0
    }

    ghost predicate Apart(q: Queue, fail: array<int>)
      reads this, q
    {
      && q.data as object != goTable && q.data as object != output && q.data as object != outputList
      && q.data as object != outputNext && q.data as object != fail && q as object != this
    }
  }

  /** The map the automaton uses: the caller's, or the identity. */
  function EffectiveMap(alphaMap: Option<seq<nat>>): seq<nat> {
    match alphaMap
    case Some(m) => m
    case None => seq(BYTE_RANGE, i => i)
  }

  /** `cbm_ac_build`. */
  method Build(texts: seq<seq<Byte>>, alphaMap: Option<seq<nat>>, alphaSize: int) returns (ac: Automaton?)
    requires Alphabet(EffectiveMap(alphaMap), if alphaSize <= 0 then BYTE_RANGE else alphaSize)
    ensures ac == null <==> texts == []
    ensures ac != null ==> ac.Built() && ac.numPatterns == |texts| && ac.numStates == |ac.names|
    ensures ac != null ==> ac.alphaMap == EffectiveMap(alphaMap) && ac.patterns == MappedAll(ac.alphaMap, texts)
  {
    hide Automaton.TrieBuilt, Automaton.Complete, Automaton.Built;
    if |texts| == 0 {
      return null;
    }
    var size: nat := if alphaSize <= 0 then BYTE_RANGE else alphaSize;
    ghost var mapped := MappedAll(EffectiveMap(alphaMap), texts);
    var maxStates: nat := 1;
    for i := 0 to |texts|
      invariant maxStates == MaxStates(mapped, i)
    {
      maxStates := maxStates + |texts[i]|;
    }
    MaxStatesGrows(mapped, 0, |texts|);
    var a := new Automaton.Allocate(texts, EffectiveMap(alphaMap), size, maxStates);
    var n := a.BuildTrie(texts);
    ghost var queue := a.BuildFailure(n);
    a.Finish(n, maxStates);
    ac := a;
  }

  /** The BFS queue of ac.c: pushes and pops only move along one buffer. */
  class Queue {
    const data: array<nat>
    var head: nat
    var tail: nat
    ghost var popped: seq<nat>   // everything popped so far

    ghost predicate Valid()
      reads this, data
    {
      head <= tail <= data.Length && popped == data[..head]
    }

    /** Everything pushed so far; the first `head` of it has been popped. */
    ghost function Pushed(): seq<nat>
      requires Valid()
      reads this, data
    {
      data[..tail]
    }

    constructor (cap: nat)
      ensures Valid() && Pushed() == [] && popped == [] && head == 0 && data.Length == cap && fresh(data)
    {
      data := new nat[cap](_ => 0);
      head, tail, popped := 0, 0, [];
    }

    method Push(v: nat)
      requires Valid() && tail < data.Length
      modifies this`tail, data
      ensures Valid() && Pushed() == old(Pushed()) + [v]
    {
      data[tail] := v;
      tail := tail + 1;
    }

    method Pop() returns (v: nat)
      requires Valid() && head < tail
      modifies this`head, this`popped
      ensures Valid() && Pushed() == old(Pushed()) && head == old(head) + 1 && v == Pushed()[old(head)]
      ensures popped == old(popped) + [v]
    {
      v := data[head];
      head := head + 1;
      popped := popped + [v];
    }

    predicate Empty()
      reads this
    {
      head >= tail
    }
  }
}
