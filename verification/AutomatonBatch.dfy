/** The batch scans of ac.c. Their specification is a list without a capacity; a run with room for m
    entries returns the first m entries of that list. */
module AutomatonBatch {
  import opened Basics
  import opened PatternMasks
  import opened TrieWords
  import opened AutomatonSteps
  import opened AhoCorasick
  import opened AutomatonScan

  /** The ids of a mask from `p` on, in ascending order. */
  ghost function BitsFrom(m: bv64, p: nat): seq<nat>
    decreases MAX_BITMASK - p
  {
    if p >= MAX_BITMASK then [] else (if Has(m, p) then [p] else []) + BitsFrom(m, p + 1)
  }

  ghost function Bits(m: bv64): seq<nat> { BitsFrom(m, 0) }

  lemma BitsFromStep(m: bv64, p: nat)
    ensures p >= MAX_BITMASK ==> BitsFrom(m, p) == []
    ensures p < MAX_BITMASK ==> BitsFrom(m, p) == (if Has(m, p) then [p] else []) + BitsFrom(m, p + 1)
  {
    hide Has;
  }

  lemma {:induction false} BitsFromSkip(m: bv64, p: nat, l: nat)
    requires p <= l <= MAX_BITMASK && forall q :: p <= q < l ==> !Has(m, q)
    ensures BitsFrom(m, p) == BitsFrom(m, l)
    decreases l - p
  {
    hide Has, BitsFrom;
    if p < l {
      BitsFromStep(m, p);
      assert !Has(m, p) && [] + BitsFrom(m, p + 1) == BitsFrom(m, p + 1);
      BitsFromSkip(m, p + 1, l);
    }
  }

  lemma {:induction false} BitsFromSame(m: bv64, n: bv64, p: nat)
    requires forall q :: p <= q ==> (Has(m, q) <==> Has(n, q))
    ensures BitsFrom(m, p) == BitsFrom(n, p)
    decreases MAX_BITMASK - p
  {
    hide Has, BitsFrom;
    BitsFromStep(m, p);
    BitsFromStep(n, p);
    if p < MAX_BITMASK { BitsFromSame(m, n, p + 1); }
  }

  /** The bit loop takes the ids in this order: lowest set bit first, then the rest of the mask. */
  lemma BitsStep(m: bv64)
    requires m != 0
    ensures Bits(m) == [LowestBit(m)] + Bits(ClearLowest(m))
  {
    hide Has, ClearLowest, LowestBit, BitsFrom;
    var l, rest := LowestBit(m), ClearLowest(m);
    LowestBitIsLowest(m, l);
    HasBelow64(m, l);
    forall q ensures Has(rest, q) <==> Has(m, q) && q != l { HasClearLowest(m, q); }
    forall q | 0 <= q < l ensures !Has(m, q) { LowestBitIsLowest(m, q); }
    BitsFromSkip(m, 0, l);
    BitsFromStep(m, l);
    BitsFromSame(m, rest, l + 1);
    BitsFromSkip(rest, 0, l + 1);
  }

  lemma BitsDistinct(m: bv64)
    ensures Distinct(Bits(m))
  {
    BitsFromDistinct(m, 0);
  }

  lemma NoBits()
    ensures Bits(0) == []
  {
    hide Has;
    forall q ensures !Has(0, q) { HasZero(q); }
    BitsFromSkip(0, 0, MAX_BITMASK);
    BitsFromStep(0, MAX_BITMASK);
  }

  lemma {:induction false} BitsFromExactly(m: bv64, p: nat, q: nat)
    ensures q in BitsFrom(m, p) <==> p <= q < MAX_BITMASK && Has(m, q)
    decreases MAX_BITMASK - p
  {
    hide Has, BitsFrom;
    BitsFromStep(m, p);
    if p < MAX_BITMASK { BitsFromExactly(m, p + 1, q); }
  }

  lemma BitsExactly(m: bv64, q: nat)
    ensures q in Bits(m) <==> Has(m, q)
  {
    hide Has;
    BitsFromExactly(m, 0, q);
    if Has(m, q) { HasBelow64(m, q); }
  }

  lemma {:induction false} BitsFromDistinct(m: bv64, p: nat)
    ensures Distinct(BitsFrom(m, p))
    decreases MAX_BITMASK - p
  {
    hide Has, BitsFrom;
    BitsFromStep(m, p);
    if p < MAX_BITMASK {
      BitsFromDistinct(m, p + 1);
      BitsFromExactly(m, p + 1, p);
    }
  }

  /** The mask of everything seen in the first masks of a name. */
  ghost function Seen(masks: seq<bv64>): bv64 {
    if masks == [] then 0 else Union(Seen(masks[..|masks| - 1]), masks[|masks| - 1])
  }

  /** The ids reported for one name: at every letter the ids not seen before. */
  ghost function NewIds(masks: seq<bv64>): seq<nat> {
    if masks == [] then []
    else var before := masks[..|masks| - 1];
      NewIds(before) + Bits(Without(masks[|masks| - 1], Seen(before)))
  }

  lemma {:induction false} SeenExactly(masks: seq<bv64>, q: nat)
    ensures Has(Seen(masks), q) <==> exists i :: 0 <= i < |masks| && Has(masks[i], q)
  {
    hide Has, Union;
    if masks == [] {
      HasZero(q);
    } else {
      var before, last := masks[..|masks| - 1], |masks| - 1;
      SeenExactly(before, q);
      HasUnion(Seen(before), masks[last], q);
      if exists i :: 0 <= i < |masks| && Has(masks[i], q) {
        var i :| 0 <= i < |masks| && Has(masks[i], q);
        assert i < last ==> before[i] == masks[i];
      }
      if exists i :: 0 <= i < |before| && Has(before[i], q) {
        var i :| 0 <= i < |before| && Has(before[i], q);
        assert masks[i] == before[i];
      }
    }
  }

  /** Each id of the name's masks is reported, and nothing else. */
  lemma {:induction false} NewIdsExactly(masks: seq<bv64>, q: nat)
    ensures q in NewIds(masks) <==> Has(Seen(masks), q)
  {
    hide Has, Union, Without, Bits;
    if masks == [] {
      HasZero(q);
    } else {
      var before, last := masks[..|masks| - 1], masks[|masks| - 1];
      NewIdsExactly(before, q);
      HasUnion(Seen(before), last, q);
      BitsExactly(Without(last, Seen(before)), q);
      HasWithout(last, Seen(before), q);
    }
  }

  /** ... and each once. */
  lemma {:induction false} NewIdsDistinct(masks: seq<bv64>)
    ensures Distinct(NewIds(masks))
  {
    hide Has, Union, Without, Bits;
    if masks != [] {
      var before, last := masks[..|masks| - 1], masks[|masks| - 1];
      NewIdsDistinct(before);
      BitsDistinct(Without(last, Seen(before)));
      var a, b := NewIds(before), Bits(Without(last, Seen(before)));
      forall x | x in a ensures x !in b {
        NewIdsExactly(before, x);
        BitsExactly(Without(last, Seen(before)), x);
        HasWithout(last, Seen(before), x);
      }
      ConcatDistinct(a, b);
    }
  }

  lemma ConcatDistinct(a: seq<nat>, b: seq<nat>)
    requires Distinct(a) && Distinct(b) && forall x :: x in a ==> x !in b
    ensures Distinct(a + b)
  {
    forall i, j | 0 <= i < j < |a + b| ensures (a + b)[i] != (a + b)[j] {
      assert i < |a| ==> (a + b)[i] in a;
      assert j >= |a| ==> (a + b)[j] in b;
    }
  }

  datatype Match = Match(nameIndex: int, patternId: int)

  ghost function Tagged(n: nat, ids: seq<nat>): seq<Match> {
    seq(|ids|, i requires 0 <= i < |ids| => Match(n, ids[i]))
  }

  lemma OneTagged(n: nat, id: nat)
    ensures Tagged(n, [id]) == [Match(n, id)]
  {}

  lemma NoneTagged(n: nat)
    ensures Tagged(n, []) == []
  {}

  lemma TaggedAppend(n: nat, a: seq<nat>, b: seq<nat>)
    ensures Tagged(n, a + b) == Tagged(n, a) + Tagged(n, b)
  {}

  /** The first `total` cells of `out` are the first `max` entries of `all`. */
  ghost predicate FirstOf<T>(out: seq<T>, total: nat, all: seq<T>, max: int) {
    && total == (if |all| <= max then |all| else if max < 0 then 0 else max)
    && total <= |out| && out[..total] == all[..total]
  }

  // ---- Equal masks ----

  /** Masks with the same bits are equal. */
  lemma SameMask(a: bv64, b: bv64)
    requires forall q :: Has(a, q) <==> Has(b, q)
    ensures a == b
  {
    forall q ensures !Has(Without(a, b), q) && !Has(Without(b, a), q) {
      HasWithout(a, b, q);
      HasWithout(b, a, q);
    }
    NonzeroHasBit(Without(a, b));
    NonzeroHasBit(Without(b, a));
    WithoutNothing(a, b);
  }

  lemma WithoutNothing(a: bv64, b: bv64)
    requires Without(a, b) == 0 && Without(b, a) == 0
    ensures a == b
  {}

  /** Moving the lowest bit from `bits` to `seen` keeps their union. */
  lemma MoveLowest(seen: bv64, bits: bv64)
    requires bits != 0
    ensures LowestBit(bits) < MAX_BITMASK
    ensures Union(Union(seen, PatternBit(LowestBit(bits))), ClearLowest(bits)) == Union(seen, bits)
  {
    hide Has, Union, PatternBit, ClearLowest, LowestBit;
    var p := LowestBit(bits);
    LowestBitIsLowest(bits, 0);
    HasBelow64(bits, p);
    forall q
      ensures Has(Union(Union(seen, PatternBit(p)), ClearLowest(bits)), q) <==> Has(Union(seen, bits), q)
    {
      HasUnion(Union(seen, PatternBit(p)), ClearLowest(bits), q);
      HasUnion(seen, PatternBit(p), q);
      HasUnion(seen, bits, q);
      HasPatternBit(p, q);
      HasClearLowest(bits, q);
    }
    SameMask(Union(Union(seen, PatternBit(p)), ClearLowest(bits)), Union(seen, bits));
  }

  lemma UnionWithout(seen: bv64, m: bv64)
    ensures Union(seen, Without(m, seen)) == Union(seen, m)
  {
    hide Has, Union, Without;
    forall q ensures Has(Union(seen, Without(m, seen)), q) <==> Has(Union(seen, m), q) {
      HasUnion(seen, Without(m, seen), q);
      HasWithout(m, seen, q);
      HasUnion(seen, m, q);
    }
    SameMask(Union(seen, Without(m, seen)), Union(seen, m));
  }

  lemma UnionZero(seen: bv64)
    ensures Union(seen, 0) == seen
  {}

  lemma WithoutUnion(seen: bv64, m: bv64, n: bv64)
    requires forall q :: Has(n, q) ==> Has(m, q)
    ensures Without(n, Union(seen, m)) == 0
  {
    hide Has, Union, Without;
    forall q ensures !Has(Without(n, Union(seen, m)), q) {
      HasWithout(n, Union(seen, m), q);
      HasUnion(seen, m, q);
    }
    NonzeroHasBit(Without(n, Union(seen, m)));
  }

  // ---- Batch scan of names ----

  /** What the batch scan looks at after reading `text`: the mask of the state, but never the root's. */
  ghost function LetterMask(ac: Automaton, text: Word): (m: bv64)
    requires ac.Built()
    reads ac, ac.goTable, ac.output, ac.outputNext
  {
    var u := LongestSuffix(ac.names, text);
    if u == [] then 0 else ac.output[..][StateOf(ac.names, u)]
  }

  ghost function LetterMasks(ac: Automaton, text: Word): (masks: seq<bv64>)
    requires ac.Built()
    reads ac, ac.goTable, ac.output, ac.outputNext
    ensures |masks| == |text|
  {
    seq(|text|, i requires 0 <= i < |text| && ac.Built() reads ac, ac.goTable, ac.output, ac.outputNext =>
      LetterMask(ac, text[..i + 1]))
  }

  /** The `output_next` walk from a non-root state only ever meets ids the state itself has. */
  lemma LinkAddsNothing(ac: Automaton, s: nat)
    requires ac.Built() && s < |ac.names| && ac.outputNext[s] != -1
    ensures 0 <= ac.outputNext[s] < |ac.names|
    ensures |ac.names[ac.outputNext[s]]| < |ac.names[s]|
    ensures forall q :: Has(ac.output[ac.outputNext[s]], q) ==> Has(ac.output[s], q)
  {
    hide Has, Reports, AllRowsDone, PrefixTrie;
    var w, next := ac.names[s], ac.outputNext[..];
    PrefixTrieFacts(ac.names, ac.alphaSize, ac.patterns);
    assert next[s] == LinkOf(ac.names, ac.patterns, w);
    assert IsSuffix(FailWord(ac.names, w), w[1..]);
    var t := StateOf(ac.names, FailWord(ac.names, w));
    assert next[s] == t;
    assert ac.output[..][t] == ac.output[t] && ac.output[..][s] == ac.output[s];
    FailMaskBelow(ac.names, ac.patterns, ac.output[..], s, t);
  }

  lemma FailMaskBelow(names: seq<Word>, patterns: seq<Word>, out: seq<bv64>, s: nat, t: nat)
    requires Trie(names) && AllInTrie(names, patterns) && AllMasksDone(names, patterns, out)
    requires s < |names| && |names[s]| >= 2 && t < |names| && names[t] == FailWord(names, names[s])
    ensures forall q :: Has(out[t], q) ==> Has(out[s], q)
  {
    hide Has, Reports, Trie, FailWord;
    forall q: nat | Has(out[t], q) ensures Has(out[s], q) {
      ReportsViaFail(names, patterns[q], names[s]);
    }
  }

  /** Names in one buffer, at their offsets. */
  datatype Names = Names(buf: seq<Byte>, offsets: seq<nat>, lengths: seq<nat>) {
    ghost predicate Valid() {
      |offsets| == |lengths| &&
      forall n :: 0 <= n < |offsets| ==> offsets[n] + lengths[n] <= |buf|
    }

    ghost function Name(n: nat): seq<Byte>
      requires Valid() && n < |offsets|
    {
      buf[offsets[n]..][..lengths[n]]
    }
  }

  /** The letter masks of every name. */
  ghost function MasksOf(ac: Automaton, names: Names): (lists: seq<seq<bv64>>)
    requires ac.Built() && names.Valid()
    reads ac, ac.goTable, ac.output, ac.outputNext
    ensures |lists| == |names.offsets|
  {
    seq(|names.offsets|,
        n requires 0 <= n < |names.offsets| && ac.Built() && names.Valid()
          reads ac, ac.goTable, ac.output, ac.outputNext =>
          LetterMasks(ac, Mapped(ac.alphaMap, names.Name(n))))
  }

  /** All matches of the first `n` names, in name order. */
  ghost function AllMatches(lists: seq<seq<bv64>>, n: nat): seq<Match>
    requires n <= |lists|
  {
    if n == 0 then [] else AllMatches(lists, n - 1) + Tagged(n - 1, NewIds(lists[n - 1]))
  }

  lemma {:induction false} AllMatchesExtend(lists: seq<seq<bv64>>, m: nat, n: nat)
    requires m <= n <= |lists|
    ensures AllMatches(lists, m) <= AllMatches(lists, n)
    decreases n
  {
    hide Tagged, NewIds;
    if m < n {
      AllMatchesExtend(lists, m, n - 1);
      assert AllMatches(lists, n - 1) <= AllMatches(lists, n);
    }
  }

  /** Some of the buffer's first cells are `all`, cut off at the capacity. */
  lemma FirstOfMore<T>(out: seq<T>, total: nat, all: seq<T>, more: seq<T>, max: int)
    requires FirstOf(out, total, all, max) && total >= max
    ensures FirstOf(out, total, all + more, max)
  {}

  lemma FirstOfPush<T>(out: seq<T>, total: nat, all: seq<T>, m: T, max: int)
    requires FirstOf(out, total, all, max) && total < max <= |out|
    ensures FirstOf(out[total := m], total + 1, all + [m], max)
  {}

  /** Reports the new bits of one mask: the inner bit loop. */
  method ReportBits(outMatches: array<Match>, maxMatches: int, total0: nat, n: nat, bits0: bv64, seen0: bv64,
                    ghost all: seq<Match>)
      returns (total: nat, seen: bv64)
    requires maxMatches <= outMatches.Length && FirstOf(outMatches[..], total0, all, maxMatches)
    modifies outMatches
    ensures FirstOf(outMatches[..], total, all + Tagged(n, Bits(bits0)), maxMatches)
    ensures total < maxMatches ==> seen == Union(seen0, bits0)
  {
    hide Has, Union, Without, ClearLowest, LowestBit, PatternBit, Bits, FirstOf, Tagged;
    total, seen := total0, seen0;
    NoneTagged(n);
    var bits := bits0;
    ghost var done: seq<nat> := [];
    assert all + Tagged(n, done) == all;
    while bits != 0 && total < maxMatches
      invariant FirstOf(outMatches[..], total, all + Tagged(n, done), maxMatches)
      invariant done + Bits(bits) == Bits(bits0)
      invariant Union(seen, bits) == Union(seen0, bits0)
      decreases maxMatches - total
    {
      BitsStep(bits);
      MoveLowest(seen, bits);
      var pid := LowestBit(bits);
      FirstOfPush(outMatches[..], total, all + Tagged(n, done), Match(n, pid), maxMatches);
      ghost var before := outMatches[..];
      outMatches[total] := Match(n, pid);
      assert outMatches[..] == before[total := Match(n, pid)];
      total := total + 1;
      seen := Union(seen, PatternBit(pid));
      bits := ClearLowest(bits);
      OneTagged(n, pid);
      TaggedAppend(n, done, [pid]);
      assert all + Tagged(n, done + [pid]) == all + Tagged(n, done) + [Match(n, pid)];
      done := done + [pid];
    }
    if bits == 0 {
      NoBits();
      UnionZero(seen);
      assert done + [] == done;
    } else {
      TaggedAppend(n, done, Bits(bits));
      FirstOfMore(outMatches[..], total, all + Tagged(n, done), Tagged(n, Bits(bits)), maxMatches);
      assert all + Tagged(n, Bits(bits0)) == all + Tagged(n, done) + Tagged(n, Bits(bits));
    }
  }

  /** What is reported after one more letter. */
  lemma NewIdsStep(masks: seq<bv64>, i: nat)
    requires i < |masks|
    ensures NewIds(masks[..i + 1]) == NewIds(masks[..i]) + Bits(Without(masks[i], Seen(masks[..i])))
    ensures Seen(masks[..i + 1]) == Union(Seen(masks[..i]), masks[i])
  {
    hide Union, Without, Bits;
    assert masks[..i + 1][..i] == masks[..i];
  }

  lemma MaskHere(ac: Automaton, state: nat, text: Word)
    requires ac.Built() && Reached(ac, state, text)
    ensures state < |ac.names|
    ensures LetterMask(ac, text) == if state == 0 then 0 else ac.output[state]
  {
    hide LongestSuffix, AllRowsDone, AllMasksDone, AllLinksDone, PrefixTrie;
    assert ac.output[..][state] == ac.output[state];
    RootIsEmpty(ac.names);
    SameName(ac.names, state, StateOf(ac.names, ac.names[state]));
    if ac.names[state] == [] { SameName(ac.names, state, 0); }
  }

  /** One letter of `cbm_ac_scan_batch`: the bit loop, and the walk along `output_next`. */
  method ReportState(ac: Automaton, state: nat, outMatches: array<Match>, maxMatches: int, total0: nat, n: nat,
                     seen0: bv64, ghost mask: bv64, ghost all: seq<Match>)
      returns (total: nat, seen: bv64)
    requires ac.Built() && state < |ac.names| && mask == if state == 0 then 0 else ac.output[state]
    requires maxMatches <= outMatches.Length && FirstOf(outMatches[..], total0, all, maxMatches)
    requires outMatches as object !in {ac, ac.goTable, ac.output, ac.outputNext}
    modifies outMatches
    ensures FirstOf(outMatches[..], total, all + Tagged(n, Bits(Without(mask, seen0))), maxMatches)
    ensures total < maxMatches ==> seen == Union(seen0, mask)
  {
    hide Has, Union, Without, Bits, FirstOf, Tagged, AllRowsDone, AllMasksDone, AllLinksDone, PrefixTrie;
    NoBits();
    WithoutZero(seen0);
    NoneTagged(n);
    assert all + Tagged(n, []) == all;
    UnionZero(seen0);
    total, seen := total0, seen0;
    UnionWithout(seen0, mask);
    ghost var found := all + Tagged(n, Bits(Without(mask, seen0)));
    assert found + Tagged(n, []) == found;
    ghost var first := true;
    var s: nat := state;
    while s > 0 && total < maxMatches
      invariant s < |ac.names|
      invariant first ==> s == state && total == total0 && seen == seen0
      invariant FirstOf(outMatches[..], total, if first then all else found, maxMatches)
      invariant !first && total < maxMatches ==> seen == Union(seen0, mask)
      invariant s > 0 ==> forall q :: Has(ac.output[s], q) ==> Has(mask, q)
      decreases |ac.names[s]|
    {
      if !first {
        WithoutUnion(seen0, mask, ac.output[s]);
        UnionZero(Union(seen0, mask));
      }
      total, seen := ReportBits(outMatches, maxMatches, total, n, Without(ac.output[s], seen), seen,
                                if first then all else found);
      first := false;
      if ac.outputNext[s] == NO_STATE || ac.outputNext[s] == s {
        break;
      }
      LinkAddsNothing(ac, s);
      s := ac.outputNext[s];
    }
    if first && state != 0 {
      FirstOfMore(outMatches[..], total, all, Tagged(n, Bits(Without(mask, seen0))), maxMatches);
    }
  }

  lemma WithoutZero(m: bv64)
    ensures Without(0, m) == 0
  {}

  /** `cbm_ac_scan_batch`: the first `maxMatches` of all matches. An entry for a non-empty pattern means
      that the pattern, below 64, stands somewhere in that name's bytes; if there was room for more, each
      such pair has an entry. */
  method ScanBatch(ac: Automaton, names: Names, outMatches: array<Match>, maxMatches: int) returns (total: nat)
    requires ac.Built() && names.Valid() && maxMatches <= outMatches.Length
    requires outMatches as object !in {ac, ac.goTable, ac.output, ac.outputNext}
    modifies outMatches
    ensures FirstOf(outMatches[..], total, AllMatches(MasksOf(ac, names), |names.offsets|), maxMatches)
    ensures EntriesRight(outMatches[..total], ac.patterns, ac.alphaMap, names)
    ensures total < maxMatches ==> EntriesExact(outMatches[..total], ac.patterns, ac.alphaMap, names)
  {
    hide AllRowsDone, AllMasksDone, AllLinksDone, PrefixTrie, AllMatches, MasksOf, FirstOf, LetterMasks, NewIds, Tagged;
    ghost var lists := MasksOf(ac, names);
    total := 0;
    NoMatches(lists, outMatches[..], maxMatches);
    var n: nat := 0;
    while n < |names.offsets| && total < maxMatches
      invariant n <= |names.offsets| && lists == MasksOf(ac, names)
      invariant FirstOf(outMatches[..], total, AllMatches(lists, n), maxMatches)
    {
      NameMasks(ac, names, n);
      total := ScanName(ac, names, n, outMatches, maxMatches, total, AllMatches(lists, n), lists[n]);
      MoreMatches(lists, n);
      n := n + 1;
    }
    if n < |names.offsets| { NoRoomLeft(lists, n, outMatches[..], total, maxMatches); }
    AllEntriesExact(ac, names);
    FirstEntries(outMatches[..], total, AllMatches(lists, |names.offsets|), maxMatches, ac.patterns, ac.alphaMap,
                 names);
    assert outMatches[..][..total] == outMatches[..total];
  }

  lemma NoRoomLeft(lists: seq<seq<bv64>>, n: nat, out: seq<Match>, total: nat, max: int)
    requires n <= |lists| && FirstOf(out, total, AllMatches(lists, n), max) && total >= max
    ensures FirstOf(out, total, AllMatches(lists, |lists|), max)
  {
    hide AllMatches, FirstOf;
    AllMatchesExtend(lists, n, |lists|);
    var all, some := AllMatches(lists, |lists|), AllMatches(lists, n);
    FirstOfMore(out, total, some, all[|some|..], max);
    assert some + all[|some|..] == all;
  }

  lemma NothingFirst<T>(out: seq<T>, max: int)
    ensures FirstOf(out, 0, [], max)
  {}

  lemma NoMatches(lists: seq<seq<bv64>>, out: seq<Match>, max: int)
    ensures FirstOf(out, 0, AllMatches(lists, 0), max)
  {}

  lemma MoreMatches(lists: seq<seq<bv64>>, n: nat)
    requires n < |lists|
    ensures AllMatches(lists, n + 1) == AllMatches(lists, n) + Tagged(n, NewIds(lists[n]))
  {}

  lemma NameMasks(ac: Automaton, names: Names, n: nat)
    requires ac.Built() && names.Valid() && n < |names.offsets|
    ensures MasksOf(ac, names)[n] == LetterMasks(ac, Mapped(ac.alphaMap, names.Name(n)))
  {
    hide AllRowsDone, AllMasksDone, AllLinksDone, PrefixTrie, LetterMask;
  }

  lemma LetterMaskAt(ac: Automaton, word: Word, i: nat)
    requires ac.Built() && i < |word|
    ensures LetterMasks(ac, word)[i] == LetterMask(ac, word[..i + 1])
  {
    hide AllRowsDone, AllMasksDone, AllLinksDone, PrefixTrie, LetterMask;
  }

  /** The letters of one name. */
  method ScanName(ac: Automaton, names: Names, n: nat, outMatches: array<Match>, maxMatches: int, total0: nat,
                  ghost all: seq<Match>, ghost masks: seq<bv64>)
      returns (total: nat)
    requires ac.Built() && names.Valid() && n < |names.offsets| && maxMatches <= outMatches.Length
    requires outMatches as object !in {ac, ac.goTable, ac.output, ac.outputNext}
    requires masks == LetterMasks(ac, Mapped(ac.alphaMap, names.Name(n)))
    requires FirstOf(outMatches[..], total0, all, maxMatches)
    modifies outMatches
    ensures FirstOf(outMatches[..], total, all + Tagged(n, NewIds(masks)), maxMatches)
  {
    hide Has, Union, Without, Bits, FirstOf, LetterMask, LetterMasks, NewIds, Seen;
    hide AllRowsDone, AllMasksDone, AllLinksDone, PrefixTrie, Reached;
    total := total0;
    ghost var word := Mapped(ac.alphaMap, names.Name(n));
    var state: nat := 0;
    var seen: bv64 := 0;
    StartReached(ac);
    NoIds(masks);
    assert word[..0] == [] && all + Tagged(n, []) == all;
    for i := 0 to names.lengths[n]
      invariant Reached(ac, state, word[..i])
      invariant masks == LetterMasks(ac, word)
      invariant FirstOf(outMatches[..], total, all + Tagged(n, NewIds(masks[..i])), maxMatches)
      invariant total < maxMatches ==> seen == Seen(masks[..i])
    {
      assert word[..i + 1] == word[..i] + [word[i]];
      LetterMaskAt(ac, word, i);
      state := NextState(ac, state, names.buf[names.offsets[n] + i], word[..i]);
      MaskHere(ac, state, word[..i + 1]);
      total, seen := ReportLetter(ac, state, outMatches, maxMatches, total, n, seen, masks, i, all);
    }
    assert masks[..names.lengths[n]] == masks;
  }

  lemma NoIds(masks: seq<bv64>)
    ensures NewIds(masks[..0]) == [] && Seen(masks[..0]) == 0
  {}

  method ReportLetter(ac: Automaton, state: nat, outMatches: array<Match>, maxMatches: int, total0: nat, n: nat,
                      seen0: bv64, ghost masks: seq<bv64>, ghost i: nat, ghost all: seq<Match>)
      returns (total: nat, seen: bv64)
    requires ac.Built() && state < |ac.names| && maxMatches <= outMatches.Length
    requires i < |masks| && masks[i] == if state == 0 then 0 else ac.output[state]
    requires outMatches as object !in {ac, ac.goTable, ac.output, ac.outputNext}
    requires FirstOf(outMatches[..], total0, all + Tagged(n, NewIds(masks[..i])), maxMatches)
    requires total0 < maxMatches ==> seen0 == Seen(masks[..i])
    modifies outMatches
    ensures FirstOf(outMatches[..], total, all + Tagged(n, NewIds(masks[..i + 1])), maxMatches)
    ensures total < maxMatches ==> seen == Seen(masks[..i + 1])
  {
    hide Has, Union, Without, Bits, FirstOf, NewIds, Seen, AllRowsDone, AllMasksDone, AllLinksDone, PrefixTrie;
    ghost var before, added := NewIds(masks[..i]), Bits(Without(masks[i], Seen(masks[..i])));
    NewIdsStep(masks, i);
    TaggedAppend(n, before, added);
    assert all + Tagged(n, before + added) == all + Tagged(n, before) + Tagged(n, added);
    total, seen := total0, seen0;
    if total < maxMatches {
      total, seen := ReportState(ac, state, outMatches, maxMatches, total, n, seen, masks[i],
                                 all + Tagged(n, before));
    } else {
      FirstOfMore(outMatches[..], total, all + Tagged(n, before), Tagged(n, added), maxMatches);
    }
  }

  // ---- What the batch scan of a name reports ----

  /** Some non-empty suffix of `w` begins a pattern: the automaton has left its root. */
  ghost predicate InsideSome(patterns: seq<Word>, w: Word) {
    exists u :: u != [] && IsSuffix(u, w) && BeginsSome(patterns, u)
  }

  /** Pattern `p` is reported for a name. An empty pattern is only seen at non-root states. */
  ghost predicate BatchOccurs(patterns: seq<Word>, p: nat, text: Word)
    requires p < |patterns|
  {
    if patterns[p] == [] then
      exists i :: 0 <= i < |text| && BeginsNone(patterns, text[i]) && InsideSome(patterns, text[..i + 1])
    else IsSubstring(patterns[p], text)
  }

  lemma LeftRoot(names: seq<Word>, size: nat, patterns: seq<Word>, w: Word)
    requires PrefixTrie(names, size, patterns)
    ensures LongestSuffix(names, w) != [] <==> InsideSome(patterns, w)
  {
    var l := LongestSuffix(names, w);
    if l != [] {
      assert BeginsSome(patterns, l);
    }
    if InsideSome(patterns, w) {
      var u :| u != [] && IsSuffix(u, w) && BeginsSome(patterns, u);
      LongestIsLongest(names, w, u);
    }
  }

  /** One letter's mask, in terms of the patterns. */
  lemma LetterMaskBits(ac: Automaton, text: Word, p: nat)
    requires ac.Built() && text != []
    ensures Has(LetterMask(ac, text), p)
            <==> p < MAX_BITMASK && p < |ac.patterns| && LetterReports(ac.patterns, ac.patterns[p], text)
  {
    hide Has, Reports, LongestSuffix, AllRowsDone, AllLinksDone, Trie, BeginsNone, InsideSome, PrefixTrie;
    PrefixTrieFacts(ac.names, ac.alphaSize, ac.patterns);
    var u := LongestSuffix(ac.names, text);
    HasZero(p);
    LeftRoot(ac.names, ac.alphaSize, ac.patterns, text);
    if p < |ac.patterns| {
      assert ac.patterns[p] in ac.names;
      ReportsAtPrefix(ac.names, ac.patterns[p], text);
      FirstLetters(ac.names, ac.alphaSize, ac.patterns, Last(text));
      if ac.patterns[p] != [] && IsSuffix(ac.patterns[p], text) {
        LongestIsLongest(ac.names, text, ac.patterns[p]);
      }
    }
  }

  ghost predicate LetterReports(patterns: seq<Word>, pattern: Word, text: Word)
    requires text != []
  {
    if pattern == [] then BeginsNone(patterns, Last(text)) && InsideSome(patterns, text)
    else IsSuffix(pattern, text)
  }

  ghost predicate ReportsAfter(patterns: seq<Word>, pattern: Word, text: Word, i: nat)
    requires i < |text|
  {
    LetterReports(patterns, pattern, text[..i + 1])
  }

  /** The ids listed for a name are those below 64 that occur in it, each once. */
  lemma NameIds(ac: Automaton, text: Word, p: nat)
    requires ac.Built()
    ensures p in NewIds(LetterMasks(ac, text))
            <==> p < MAX_BITMASK && p < |ac.patterns| && BatchOccurs(ac.patterns, p, text)
    ensures Distinct(NewIds(LetterMasks(ac, text)))
  {
    hide Has, NewIds, Seen, LetterMask, LetterMasks, Distinct, BeginsNone, InsideSome;
    hide AllRowsDone, AllMasksDone, AllLinksDone, PrefixTrie;
    var masks := LetterMasks(ac, text);
    NewIdsDistinct(masks);
    NewIdsExactly(masks, p);
    SeenExactly(masks, p);
    forall i | 0 <= i < |text|
      ensures Has(masks[i], p)
              <==> p < MAX_BITMASK && p < |ac.patterns| && ReportsAfter(ac.patterns, ac.patterns[p], text, i)
    {
      LetterMaskAt(ac, text, i);
      LetterMaskBits(ac, text[..i + 1], p);
    }
    if p < |ac.patterns| {
      SomeLetterReports(ac.patterns, p, text);
    }
  }

  lemma SomeLetterReports(patterns: seq<Word>, p: nat, text: Word)
    requires p < |patterns|
    ensures BatchOccurs(patterns, p, text)
            <==> exists i :: 0 <= i < |text| && ReportsAfter(patterns, patterns[p], text, i)
  {
    hide BeginsNone, InsideSome;
    var pattern := patterns[p];
    if pattern != [] && IsSubstring(pattern, text) {
      var k :| 0 <= k <= |text| && IsSuffix(pattern, text[..k]);
      assert ReportsAfter(patterns, pattern, text, k - 1);
    }
    if pattern == [] && BatchOccurs(patterns, p, text) {
      var i :| 0 <= i < |text| && BeginsNone(patterns, text[i]) && InsideSome(patterns, text[..i + 1]);
      assert Last(text[..i + 1]) == text[i];
      assert ReportsAfter(patterns, pattern, text, i);
    }
    if exists i :: 0 <= i < |text| && ReportsAfter(patterns, pattern, text, i) {
      var i :| 0 <= i < |text| && ReportsAfter(patterns, pattern, text, i);
      assert Last(text[..i + 1]) == text[i];
      if pattern != [] { assert IsSuffix(pattern, text[..i + 1]); }
    }
  }

  // ---- Entries, on the buffer of names ----

  /** The pattern stands `k` bytes into the name, letter by letter under the map. */
  ghost predicate StandsAt(pattern: Word, letters: seq<nat>, buf: seq<Byte>, offset: nat, length: nat, k: nat)
    requires |letters| == 256 && offset + length <= |buf|
  {
    k + |pattern| <= length && forall i :: 0 <= i < |pattern| ==> pattern[i] == letters[buf[offset + k + i]]
  }

  /** The pattern stands somewhere in the bytes of name `n`. */
  ghost predicate InName(pattern: Word, letters: seq<nat>, names: Names, n: nat)
    requires |letters| == 256 && names.Valid() && n < |names.offsets|
  {
    exists k: nat :: StandsAt(pattern, letters, names.buf, names.offsets[n], names.lengths[n], k)
  }

  /** An entry for a non-empty pattern means that the pattern, below 64, stands in that name. */
  ghost predicate EntriesRight(entries: seq<Match>, patterns: seq<Word>, letters: seq<nat>, names: Names)
    requires |letters| == 256 && names.Valid()
  {
    forall n, p: nat :: 0 <= n < |names.offsets| && p < |patterns| && patterns[p] != [] ==>
      (Match(n, p) in entries ==> p < 64 && InName(patterns[p], letters, names, n))
  }

  /** And each such pair has an entry. */
  ghost predicate EntriesExact(entries: seq<Match>, patterns: seq<Word>, letters: seq<nat>, names: Names)
    requires |letters| == 256 && names.Valid()
  {
    forall n, p: nat :: 0 <= n < |names.offsets| && p < |patterns| && patterns[p] != [] ==>
      (Match(n, p) in entries <==> p < 64 && InName(patterns[p], letters, names, n))
  }

  lemma PartOfName(pattern: Word, letters: seq<nat>, names: Names, n: nat, k: nat)
    requires |letters| == 256 && names.Valid() && n < |names.offsets|
    ensures PartAt(pattern, Mapped(letters, names.Name(n)), k)
            <==> StandsAt(pattern, letters, names.buf, names.offsets[n], names.lengths[n], k)
  {
    var w := Mapped(letters, names.Name(n));
    if k + |pattern| <= |w| {
      var part := w[k..k + |pattern|];
      assert forall i :: 0 <= i < |part| ==> part[i] == letters[names.buf[names.offsets[n] + k + i]];
    }
  }

  lemma {:induction false} AllMatchesHas(lists: seq<seq<bv64>>, count: nat, n: nat, p: nat)
    requires count <= |lists|
    ensures Match(n, p) in AllMatches(lists, count) <==> n < count && p in NewIds(lists[n])
  {
    hide NewIds;
    if count > 0 {
      AllMatchesHas(lists, count - 1, n, p);
      TaggedHas(count - 1, NewIds(lists[count - 1]), n, p);
    }
  }

  lemma TaggedHas(m: nat, ids: seq<nat>, n: nat, p: nat)
    ensures Match(n, p) in Tagged(m, ids) <==> n == m && p in ids
  {
    if n == m && p in ids {
      var i :| 0 <= i < |ids| && ids[i] == p;
      assert Tagged(m, ids)[i] == Match(n, p);
    }
  }

  lemma EntryExact(ac: Automaton, names: Names, n: nat, p: nat)
    requires ac.Built() && names.Valid() && n < |names.offsets| && p < |ac.patterns| && ac.patterns[p] != []
    ensures Match(n, p) in AllMatches(MasksOf(ac, names), |names.offsets|)
            <==> p < 64 && InName(ac.patterns[p], ac.alphaMap, names, n)
  {
    hide AllRowsDone, AllMasksDone, AllLinksDone, PrefixTrie, LetterMasks, NewIds, MasksOf, StandsAt, PartAt;
    hide AllMatches, IsSubstring;
    var word := Mapped(ac.alphaMap, names.Name(n));
    AllMatchesHas(MasksOf(ac, names), |names.offsets|, n, p);
    NameMasks(ac, names, n);
    NameIds(ac, word, p);
    SubstringPart(ac.patterns[p], word);
    forall k: nat
      ensures PartAt(ac.patterns[p], word, k)
              <==> StandsAt(ac.patterns[p], ac.alphaMap, names.buf, names.offsets[n], names.lengths[n], k)
    {
      PartOfName(ac.patterns[p], ac.alphaMap, names, n, k);
    }
  }

  /** The unbounded list has an entry for a name and a non-empty pattern exactly when the pattern, below
      64, stands somewhere in the name. */
  lemma AllEntriesExact(ac: Automaton, names: Names)
    requires ac.Built() && names.Valid()
    ensures EntriesExact(AllMatches(MasksOf(ac, names), |names.offsets|), ac.patterns, ac.alphaMap, names)
  {
    var all := AllMatches(MasksOf(ac, names), |names.offsets|);
    forall n, p: nat | 0 <= n < |names.offsets| && p < |ac.patterns| && ac.patterns[p] != []
      ensures Match(n, p) in all <==> p < 64 && InName(ac.patterns[p], ac.alphaMap, names, n)
    {
      EntryExact(ac, names, n, p);
    }
  }

  lemma FirstOfHas<T(!new)>(out: seq<T>, total: nat, all: seq<T>, max: int, m: T)
    requires FirstOf(out, total, all, max)
    ensures m in out[..total] ==> m in all
    ensures total < max && m in all ==> m in out[..total]
  {
    if m in out[..total] {
      var i :| 0 <= i < total && out[..total][i] == m;
      assert all[..total][i] == all[i];
    }
    assert total < max ==> all[..total] == all;
  }

  lemma FirstEntries(out: seq<Match>, total: nat, all: seq<Match>, max: int, patterns: seq<Word>, letters: seq<nat>,
                     names: Names)
    requires |letters| == 256 && names.Valid() && FirstOf(out, total, all, max)
    requires EntriesExact(all, patterns, letters, names)
    ensures total <= |out| && EntriesRight(out[..total], patterns, letters, names)
    ensures total < max ==> EntriesExact(out[..total], patterns, letters, names)
  {
    assert total <= |out|;
    hide FirstOf, InName;
    forall m ensures m in out[..total] ==> m in all
             ensures total < max && m in all ==> m in out[..total] {
      FirstOfHas(out, total, all, max, m);
    }
  }

  /** The batch scan reports a pattern only where the bitmask scan does, and a non-empty pattern
      exactly there. */
  lemma BatchAgreesWithScan(patterns: seq<Word>, p: nat, text: Word)
    requires p < |patterns|
    ensures BatchOccurs(patterns, p, text) ==> Occurs(patterns, p, text)
    ensures patterns[p] != [] ==> (BatchOccurs(patterns, p, text) <==> Occurs(patterns, p, text))
  {
    hide BeginsNone, InsideSome;
  }

  ghost predicate Spelled(text: Word, size: nat) { forall i :: 0 <= i < |text| ==> text[i] < size }

  /** The two scans agree on a pattern for all texts exactly when it is not empty or every letter of
      the alphabet begins some pattern. */
  lemma BatchAgreesExactly(patterns: seq<Word>, p: nat, size: nat)
    requires p < |patterns|
    ensures (forall text :: Spelled(text, size) ==> (BatchOccurs(patterns, p, text) <==> Occurs(patterns, p, text)))
            <==> patterns[p] != [] || forall c :: 0 <= c < size ==> !BeginsNone(patterns, c)
  {
    forall text ensures patterns[p] != [] ==> (BatchOccurs(patterns, p, text) <==> Occurs(patterns, p, text)) {
      BatchAgreesWithScan(patterns, p, text);
    }
    if patterns[p] == [] && exists c :: 0 <= c < size && BeginsNone(patterns, c) {
      var c :| 0 <= c < size && BeginsNone(patterns, c);
      var text: Word := [c];
      NothingInside(patterns, c);
      hide BeginsNone, InsideSome;
      assert text[..0 + 1] == [c] && text[0] == c;
      assert Spelled(text, size) && Occurs(patterns, p, text) && !BatchOccurs(patterns, p, text);
    }
    hide BeginsNone, InsideSome;
  }

  /** Patterns "" and "ab" and the text "b": the bitmask scan reports id 0, the batch scan does not. */
  lemma BatchMissesEmptyPattern()
    ensures var patterns: seq<Word> := [[], [1, 2]];
            Occurs(patterns, 0, [2]) && !BatchOccurs(patterns, 0, [2])
  {
    var patterns: seq<Word> := [[], [1, 2]];
    var text: Word := [2];
    assert BeginsNone(patterns, 2);
    NothingInside(patterns, 2);
    hide BeginsNone, InsideSome;
    assert text[..0 + 1] == [2];
    assert BeginsNone(patterns, text[0]);
  }

  lemma NothingInside(patterns: seq<Word>, c: nat)
    requires BeginsNone(patterns, c)
    ensures !InsideSome(patterns, [c])
  {
    LetterBeginsNone(patterns, c);
    hide BeginsNone, BeginsSome, IsSuffix;
    forall u | u != [] && IsSuffix(u, [c]) ensures !BeginsSome(patterns, u) {
      SuffixOfOne(u, c);
    }
  }

  lemma LetterBeginsNone(patterns: seq<Word>, c: nat)
    requires BeginsNone(patterns, c)
    ensures !BeginsSome(patterns, [c])
  {
    forall p | 0 <= p < |patterns| ensures !([c] <= patterns[p]) {
      assert patterns[p] != [] ==> patterns[p][0] != c;
    }
  }

  // ---- Batch scan of compressed files ----

  /** A compressed file; `decompress` gives its text, or None where LZ4 reports an error. */
  datatype Entry = Entry(data: Option<seq<Byte>>, compressedLen: int, originalLen: int)

  datatype FileMatch = FileMatch(fileIndex: int, bitmask: bv64)

  type Lz4 = (seq<Byte>, int, int) -> Option<seq<Byte>>

  /** The text the scan of an entry reads, if it gets that far. */
  function TextOf(decompress: Lz4, e: Entry): Option<seq<Byte>> {
    if e.data.None? || e.compressedLen <= 0 || e.originalLen <= 0 then None
    else match decompress(e.data.value, e.compressedLen, e.originalLen)
      case None => None
      case Some(text) => if text == [] then None else Some(text)
  }

  /** The mask with exactly the ids below `k` (and below 64) that occur in the text. */
  ghost function MaskUpTo(patterns: seq<Word>, text: Word, k: nat): bv64
    requires k <= |patterns|
  {
    if k == 0 then 0
    else if k <= MAX_BITMASK && Occurs(patterns, k - 1, text)
    then Union(MaskUpTo(patterns, text, k - 1), PatternBit(k - 1))
    else MaskUpTo(patterns, text, k - 1)
  }

  lemma {:induction false} MaskUpToBits(patterns: seq<Word>, text: Word, k: nat, q: nat)
    requires k <= |patterns|
    ensures Has(MaskUpTo(patterns, text, k), q) <==> q < k && q < MAX_BITMASK && Occurs(patterns, q, text)
  {
    hide Has, Union, PatternBit, Occurs;
    if k == 0 {
      HasZero(q);
    } else {
      MaskUpToBits(patterns, text, k - 1, q);
      if k <= MAX_BITMASK {
        HasUnion(MaskUpTo(patterns, text, k - 1), PatternBit(k - 1), q);
        HasPatternBit(k - 1, q);
      }
    }
  }

  ghost function FileMask(ac: Automaton, text: seq<Byte>): bv64
    requires |ac.alphaMap| == BYTE_RANGE
  {
    MaskUpTo(ac.patterns, Mapped(ac.alphaMap, text), |ac.patterns|)
  }

  /** The mask of a scan is a function of the text. */
  lemma MaskIsFileMask(ac: Automaton, text: seq<Byte>, m: bv64)
    requires |ac.alphaMap| == BYTE_RANGE
    requires forall p :: 0 <= p < |ac.patterns| ==>
               (Has(m, p) <==> p < MAX_BITMASK && Occurs(ac.patterns, p, Mapped(ac.alphaMap, text)))
    requires forall p :: |ac.patterns| <= p ==> !Has(m, p)
    ensures m == FileMask(ac, text)
  {
    hide Has, Occurs, Mapped, MaskUpTo;
    forall q: nat ensures Has(m, q) <==> Has(FileMask(ac, text), q) {
      MaskUpToBits(ac.patterns, Mapped(ac.alphaMap, text), |ac.patterns|, q);
    }
    SameMask(m, FileMask(ac, text));
  }

  /** The matches among the first `n` files: those whose scan reports something, in file order. */
  ghost function FileMatches(ac: Automaton, decompress: Lz4, entries: seq<Entry>, n: nat): seq<FileMatch>
    requires |ac.alphaMap| == BYTE_RANGE && n <= |entries|
  {
    if n == 0 then []
    else
      FileMatches(ac, decompress, entries, n - 1)
      + match TextOf(decompress, entries[n - 1])
        case None => []
        case Some(text) => if FileMask(ac, text) == 0 then [] else [FileMatch(n - 1, FileMask(ac, text))]
  }

  /** Indices strictly increase, and each mask is the single scan of the file it names. */
  lemma {:induction false} FileMatchesInOrder(ac: Automaton, decompress: Lz4, entries: seq<Entry>, n: nat)
    requires |ac.alphaMap| == BYTE_RANGE && n <= |entries|
    ensures var all := FileMatches(ac, decompress, entries, n);
            && (forall m :: m in all ==> MatchesItsFile(ac, decompress, entries, n, m))
            && (forall i, j :: 0 <= i < j < |all| ==> all[i].fileIndex < all[j].fileIndex)
            && (forall k :: 0 <= k < n && ReportsSome(ac, decompress, entries[k]) ==>
                  exists m :: m in all && m.fileIndex == k)
  {
    hide FileMask, TextOf, ReportsSome, MatchesItsFile, FileMatches;
    FileMatchesStep(ac, decompress, entries, n);
    if n > 0 {
      FileMatchesInOrder(ac, decompress, entries, n - 1);
      var all, before := FileMatches(ac, decompress, entries, n), FileMatches(ac, decompress, entries, n - 1);
      var last := entries[n - 1];
      forall m | m in all ensures MatchesItsFile(ac, decompress, entries, n, m) {
        if m in before { MatchesMoreFiles(ac, decompress, entries, n - 1, n, m); }
      }
      forall i, j | 0 <= i < j < |all| ensures all[i].fileIndex < all[j].fileIndex {
        assert i < |before| && all[i] == before[i] && before[i] in before;
        FileIndexBelow(ac, decompress, entries, n - 1, before[i]);
        if j < |before| { assert all[j] == before[j]; }
      }
      forall k | 0 <= k < n && ReportsSome(ac, decompress, entries[k])
        ensures exists m :: m in all && m.fileIndex == k
      {
        if k < n - 1 {
          var m :| m in before && m.fileIndex == k;
          assert m in all;
        } else {
          assert all[|before|] in all;
        }
      }
    }
  }

  lemma FileMatchesStep(ac: Automaton, decompress: Lz4, entries: seq<Entry>, n: nat)
    requires |ac.alphaMap| == BYTE_RANGE && n <= |entries|
    ensures n == 0 ==> FileMatches(ac, decompress, entries, n) == []
    ensures n > 0 ==>
              var before, e := FileMatches(ac, decompress, entries, n - 1), entries[n - 1];
              if ReportsSome(ac, decompress, e)
              then var m := FileMatch(n - 1, FileMask(ac, TextOf(decompress, e).value));
                FileMatches(ac, decompress, entries, n) == before + [m]
                && MatchesItsFile(ac, decompress, entries, n, m)
              else FileMatches(ac, decompress, entries, n) == before
  {
    hide FileMask, TextOf;
  }

  lemma MatchesMoreFiles(ac: Automaton, decompress: Lz4, entries: seq<Entry>, n: nat, k: nat, m: FileMatch)
    requires |ac.alphaMap| == BYTE_RANGE && n <= k <= |entries| && MatchesItsFile(ac, decompress, entries, n, m)
    ensures MatchesItsFile(ac, decompress, entries, k, m)
  {
    hide FileMask, TextOf;
  }

  lemma FileIndexBelow(ac: Automaton, decompress: Lz4, entries: seq<Entry>, n: nat, m: FileMatch)
    requires |ac.alphaMap| == BYTE_RANGE && n <= |entries| && MatchesItsFile(ac, decompress, entries, n, m)
    ensures m.fileIndex < n
  {
    hide FileMask, TextOf;
  }

  ghost predicate ReportsSome(ac: Automaton, decompress: Lz4, e: Entry)
    requires |ac.alphaMap| == BYTE_RANGE
  {
    TextOf(decompress, e).Some? && FileMask(ac, TextOf(decompress, e).value) != 0
  }

  ghost predicate MatchesItsFile(ac: Automaton, decompress: Lz4, entries: seq<Entry>, n: nat, m: FileMatch)
    requires |ac.alphaMap| == BYTE_RANGE && n <= |entries|
  {
    && 0 <= m.fileIndex < n && ReportsSome(ac, decompress, entries[m.fileIndex])
    && m.bitmask == FileMask(ac, TextOf(decompress, entries[m.fileIndex]).value)
  }

  /** The mask has exactly the bits of the ids below 64 that occur in the text. */
  ghost predicate MaskFor(ac: Automaton, text: seq<Byte>, mask: bv64)
    requires |ac.alphaMap| == BYTE_RANGE
    reads ac
  {
    && (forall p :: 0 <= p < |ac.patterns| ==>
          (Has(mask, p) <==> p < 64 && Occurs(ac.patterns, p, Mapped(ac.alphaMap, text))))
    && (forall p :: |ac.patterns| <= p ==> !Has(mask, p))
  }

  lemma MaskForExactly(ac: Automaton, text: seq<Byte>, mask: bv64)
    requires |ac.alphaMap| == BYTE_RANGE
    ensures MaskFor(ac, text, mask) <==> mask == FileMask(ac, text)
  {
    hide Has, Occurs, Mapped, FileMask;
    forall p: nat
      ensures Has(FileMask(ac, text), p)
              <==> p < |ac.patterns| && p < MAX_BITMASK && Occurs(ac.patterns, p, Mapped(ac.alphaMap, text))
    {
      FileMaskBits(ac, text, p);
    }
    if MaskFor(ac, text, mask) { MaskIsFileMask(ac, text, mask); }
  }

  /** A file is listed with a mask exactly when it has data and positive lengths, decompresses to some
      text, and the mask is that of the text and not zero. */
  lemma FileListedExactly(ac: Automaton, decompress: Lz4, entries: seq<Entry>, k: nat, mask: bv64)
    requires |ac.alphaMap| == BYTE_RANGE && k < |entries|
    ensures FileMatch(k, mask) in FileMatches(ac, decompress, entries, |entries|)
            <==> var e := entries[k];
                 && e.data.Some? && e.compressedLen > 0 && e.originalLen > 0
                 && var text := decompress(e.data.value, e.compressedLen, e.originalLen);
                 && text.Some? && text.value != [] && MaskFor(ac, text.value, mask) && mask != 0
  {
    FileMatchesInOrder(ac, decompress, entries, |entries|);
    hide FileMask, FileMatches, MaskFor;
    var all, text := FileMatches(ac, decompress, entries, |entries|), TextOf(decompress, entries[k]);
    if text.Some? { MaskForExactly(ac, text.value, mask); }
    if ReportsSome(ac, decompress, entries[k]) {
      var m :| m in all && m.fileIndex == k;
      assert MatchesItsFile(ac, decompress, entries, |entries|, m);
    }
  }

  lemma FileMaskBits(ac: Automaton, text: seq<Byte>, p: nat)
    requires |ac.alphaMap| == BYTE_RANGE
    ensures Has(FileMask(ac, text), p)
            <==> p < |ac.patterns| && p < MAX_BITMASK && Occurs(ac.patterns, p, Mapped(ac.alphaMap, text))
  {
    hide Has, Occurs, Mapped, MaskUpTo;
    MaskUpToBits(ac.patterns, Mapped(ac.alphaMap, text), |ac.patterns|, p);
  }

  /** `cbm_ac_scan_lz4_batch`. */
  method ScanLz4Batch(ac: Automaton, decompress: Lz4, entries: seq<Entry>,
                      outMatches: array<FileMatch>, maxMatches: int) returns (total: nat)
    requires ac.Built() && maxMatches <= outMatches.Length
    requires outMatches as object !in {ac, ac.goTable, ac.output, ac.outputNext}
    modifies outMatches
    ensures FirstOf(outMatches[..], total, FileMatches(ac, decompress, entries, |entries|), maxMatches)
  {
    hide AllRowsDone, AllMasksDone, AllLinksDone, PrefixTrie, FileMask, FirstOf, FileMatches;
    total := 0;
    FileMatchesStep(ac, decompress, entries, 0);
    NothingFirst(outMatches[..], maxMatches);
    var i: nat := 0;
    while i < |entries| && total < maxMatches
      invariant i <= |entries|
      invariant FirstOf(outMatches[..], total, FileMatches(ac, decompress, entries, i), maxMatches)
    {
      FileMatchesStep(ac, decompress, entries, i + 1);
      var e := entries[i];
      if e.data.Some? && e.compressedLen > 0 && e.originalLen > 0 {
        var text := decompress(e.data.value, e.compressedLen, e.originalLen);
        if text.Some? && text.value != [] {
          total := ReportFile(ac, decompress, entries, i, text.value, outMatches, maxMatches, total);
        }
      }
      i := i + 1;
    }
    if i < |entries| {
      FileMatchesExtend(ac, decompress, entries, i, |entries|);
      ghost var all, some := FileMatches(ac, decompress, entries, |entries|), FileMatches(ac, decompress, entries, i);
      FirstOfMore(outMatches[..], total, some, all[|some|..], maxMatches);
      assert some + all[|some|..] == all;
    }
  }

  /** The scan of one file that could be read. */
  method ReportFile(ac: Automaton, ghost decompress: Lz4, ghost entries: seq<Entry>, i: nat, text: seq<Byte>,
                    outMatches: array<FileMatch>, maxMatches: int, total0: nat) returns (total: nat)
    requires ac.Built() && total0 < maxMatches <= outMatches.Length && i < |entries|
    requires TextOf(decompress, entries[i]) == Some(text)
    requires outMatches as object !in {ac, ac.goTable, ac.output, ac.outputNext}
    requires FirstOf(outMatches[..], total0, FileMatches(ac, decompress, entries, i), maxMatches)
    modifies outMatches
    ensures FirstOf(outMatches[..], total, FileMatches(ac, decompress, entries, i + 1), maxMatches)
  {
    hide AllRowsDone, AllMasksDone, AllLinksDone, PrefixTrie, Has, Occurs, FileMask, FirstOf, TextOf, FileMatches;
    FileMatchesStep(ac, decompress, entries, i + 1);
    total := total0;
    var result := ScanBitmask(ac, text);
    MaskIsFileMask(ac, text, result);
    if result != 0 {
      FirstOfPush(outMatches[..], total, FileMatches(ac, decompress, entries, i), FileMatch(i, result), maxMatches);
      ghost var before := outMatches[..];
      outMatches[total] := FileMatch(i, result);
      assert outMatches[..] == before[total := FileMatch(i, result)];
      total := total + 1;
    }
  }

  lemma {:induction false} FileMatchesExtend(ac: Automaton, decompress: Lz4, entries: seq<Entry>, m: nat, n: nat)
    requires |ac.alphaMap| == BYTE_RANGE && m <= n <= |entries|
    ensures FileMatches(ac, decompress, entries, m) <= FileMatches(ac, decompress, entries, n)
    decreases n
  {
    hide FileMask, TextOf;
    if m < n { FileMatchesExtend(ac, decompress, entries, m, n - 1); }
  }
}
