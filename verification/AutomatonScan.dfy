/** The scans of ac.c: what each of them reports, for any text and any output capacity. */
module AutomatonScan {
  import opened Basics
  import opened PatternMasks
  import opened TrieWords
  import opened AutomatonBfs
  import opened AutomatonSteps
  import opened AhoCorasick

  /** No non-empty pattern begins with this letter. */
  ghost predicate BeginsNone(patterns: seq<Word>, c: nat) {
    forall p :: 0 <= p < |patterns| && patterns[p] != [] ==> patterns[p][0] != c
  }

  /** Pattern `p` is to be reported for `text`: it occurs in it. An empty pattern is a special case of
      the code: it is seen only where the text has a letter that begins no non-empty pattern. */
  ghost predicate Occurs(patterns: seq<Word>, p: nat, text: Word)
    requires p < |patterns|
  {
    if patterns[p] == [] then exists i :: 0 <= i < |text| && BeginsNone(patterns, text[i])
    else IsSubstring(patterns[p], text)
  }

  /** Reporting is occurring, in every text, for the non-empty patterns and only for them. */
  lemma OccursMeansSubstring(patterns: seq<Word>, p: nat)
    requires p < |patterns|
    ensures (forall text :: Occurs(patterns, p, text) <==> IsSubstring(patterns[p], text)) <==> patterns[p] != []
  {
    if patterns[p] == [] {
      var nothing: Word := [];
      assert !Occurs(patterns, p, nothing);
      assert IsSuffix(patterns[p], nothing[..0]);
      assert IsSubstring(patterns[p], nothing);
    }
  }

  lemma FirstLetters(names: seq<Word>, size: nat, patterns: seq<Word>, c: nat)
    requires PrefixTrie(names, size, patterns)
    ensures [c] in names <==> !BeginsNone(patterns, c)
  {
    assert [c] in names <==> BeginsSome(patterns, [c]);
    if BeginsSome(patterns, [c]) {
      var p :| 0 <= p < |patterns| && [c] <= patterns[p];
      assert patterns[p][0] == c;
    }
    if !BeginsNone(patterns, c) {
      var p :| 0 <= p < |patterns| && patterns[p] != [] && patterns[p][0] == c;
      assert [c] <= patterns[p];
    }
  }

  lemma FoundIsOccurs(names: seq<Word>, size: nat, patterns: seq<Word>, p: nat, text: Word)
    requires PrefixTrie(names, size, patterns) && p < |patterns|
    ensures Found(names, patterns[p], text) <==> Occurs(patterns, p, text)
  {
    forall i | 0 <= i < |text| ensures [text[i]] !in names <==> BeginsNone(patterns, text[i]) {
      FirstLetters(names, size, patterns, text[i]);
    }
    hide PrefixTrie, BeginsNone;
    if patterns[p] == [] && Found(names, patterns[p], text) {
      var i :| 0 <= i < |text| && [text[i]] !in names;
      assert BeginsNone(patterns, text[i]);
    }
    if patterns[p] == [] && Occurs(patterns, p, text) {
      var i :| 0 <= i < |text| && BeginsNone(patterns, text[i]);
      assert [text[i]] !in names;
    }
  }

  /** The state reached by reading `text`: the one of its longest suffix that begins some pattern. */
  ghost predicate Reached(ac: Automaton, state: nat, text: Word)
    reads ac
  {
    Trie(ac.names) && state < |ac.names| && ac.names[state] == LongestSuffix(ac.names, text)
  }

  /** One table lookup. */
  method NextState(ac: Automaton, state: nat, b: Byte, ghost text: Word) returns (next: nat)
    requires ac.Built() && Reached(ac, state, text)
    ensures Reached(ac, next, text + [ac.alphaMap[b]])
  {
    var c := ac.alphaMap[b];
    CellInTable(ac.alphaSize, ac.numStates, state, c);
    CellHere(ac.goTable[..], ac.alphaSize, state, c);
    LongestStep(ac.names, text, c);
    hide Cell, At, LongestSuffix, AllMasksDone, AllLinksDone, Trie;
    assert CellDone(ac.names, ac.names[state] + [c], At(ac.goTable[..], ac.alphaSize, state, c));
    next := ac.goTable[Cell(ac.alphaSize, state, c)];
  }

  lemma StartReached(ac: Automaton)
    requires ac.Built()
    ensures Reached(ac, 0, [])
  {
    assert ac.names[0] == [];
  }

  lemma ReportedHere(ac: Automaton, state: nat, text: Word, p: nat)
    requires ac.Built() && Reached(ac, state, text)
    ensures Has(ac.output[state], p)
            <==> p < MAX_BITMASK && p < |ac.patterns|
                 && Reports(ac.names, ac.patterns[p], LongestSuffix(ac.names, text))
  {
    hide Has, Reports, LongestSuffix, Trie, AllRowsDone, AllLinksDone;
    assert ac.output[state] == ac.output[..][state];
  }

  /** `cbm_ac_scan_bitmask`: bit p is set exactly when p < 64 and pattern p occurs in the text. */
  method ScanBitmask(ac: Automaton, text: seq<Byte>) returns (result: bv64)
    requires ac.Built()
    ensures forall p :: 0 <= p < |ac.patterns| ==>
              (Has(result, p) <==> p < MAX_BITMASK && Occurs(ac.patterns, p, Mapped(ac.alphaMap, text)))
    ensures forall p :: |ac.patterns| <= p ==> !Has(result, p)
  {
    hide Has, Union, Reports, Found, Trie, AllRowsDone, AllMasksDone, AllLinksDone, LongestSuffix, Occurs, PrefixTrie;
    ghost var word := Mapped(ac.alphaMap, text);
    result := 0;
    var state: nat := 0;
    StartReached(ac);
    PrefixTrieFacts(ac.names, ac.alphaSize, ac.patterns);
    assert word[..0] == [];
    forall p | 0 <= p ensures !Has(0, p) { HasZero(p); }
    forall p | 0 <= p < |ac.patterns| ensures !Found(ac.names, ac.patterns[p], []) {
      NothingFound(ac.names, ac.patterns[p]);
    }
    for i := 0 to |text|
      invariant Reached(ac, state, word[..i])
      invariant forall p :: 0 <= p < |ac.patterns| ==>
                  (Has(result, p) <==> p < MAX_BITMASK && Found(ac.names, ac.patterns[p], word[..i]))
      invariant forall p :: |ac.patterns| <= p ==> !Has(result, p)
    {
      assert word[..i + 1] == word[..i] + [word[i]];
      state := NextState(ac, state, text[i], word[..i]);
      forall p | 0 <= p
        ensures Has(Union(result, ac.output[state]), p)
                <==> p < MAX_BITMASK && p < |ac.patterns| && Found(ac.names, ac.patterns[p], word[..i + 1])
      {
        HasUnion(result, ac.output[state], p);
        ReportedHere(ac, state, word[..i + 1], p);
        if p < |ac.patterns| {
          assert ac.patterns[p] in ac.names;
          FoundStep(ac.names, ac.patterns[p], word, i);
        }
      }
      result := Union(result, ac.output[state]);
    }
    assert word[..|text|] == word;
    forall p | 0 <= p < |ac.patterns|
      ensures Found(ac.names, ac.patterns[p], word) <==> Occurs(ac.patterns, p, word)
    {
      FoundIsOccurs(ac.names, ac.alphaSize, ac.patterns, p, word);
    }
  }

  // ---- Building and scanning together, on bytes ----

  /** Without a map the alphabet has all bytes; a map gives each byte a letter of the alphabet. */
  ghost predicate MapFits(alphaMap: Option<seq<nat>>, alphaSize: int) {
    match alphaMap
    case None => alphaSize <= 0 || alphaSize >= 256
    case Some(m) => |m| == 256 && forall b :: 0 <= b < 256 ==> m[b] < if alphaSize <= 0 then 256 else alphaSize
  }

  /** The bytes of `pattern` stand in `text` from position `k` on. */
  ghost predicate IsAt(pattern: seq<Byte>, text: seq<Byte>, k: nat) {
    k + |pattern| <= |text| && text[k..k + |pattern|] == pattern
  }

  /** So do their letters under a map. */
  ghost predicate IsAtUnder(m: seq<nat>, pattern: seq<Byte>, text: seq<Byte>, k: nat)
    requires |m| == 256
  {
    k + |pattern| <= |text| && forall i :: 0 <= i < |pattern| ==> m[pattern[i]] == m[text[k + i]]
  }

  ghost predicate SameLetter(alphaMap: Option<seq<nat>>, a: Byte, b: Byte)
    requires alphaMap.Some? ==> |alphaMap.value| == 256
  {
    a == b || (alphaMap.Some? && alphaMap.value[a] == alphaMap.value[b])
  }

  /** No text that is not empty begins with the letter of `b`. */
  ghost predicate BeginsNoText(alphaMap: Option<seq<nat>>, texts: seq<seq<Byte>>, b: Byte)
    requires alphaMap.Some? ==> |alphaMap.value| == 256
  {
    forall p :: 0 <= p < |texts| && texts[p] != [] ==> !SameLetter(alphaMap, texts[p][0], b)
  }

  /** A substring is a contiguous part. */
  lemma SubstringPart(u: Word, w: Word)
    ensures IsSubstring(u, w) <==> exists k: nat :: PartAt(u, w, k)
  {
    if IsSubstring(u, w) {
      var i :| 0 <= i <= |w| && IsSuffix(u, w[..i]);
      assert w[..i][i - |u|..] == w[i - |u|..i];
      assert PartAt(u, w, i - |u|);
    }
    if k: nat :| PartAt(u, w, k) {
      assert w[..k + |u|][k..] == w[k..k + |u|];
      assert IsSuffix(u, w[..k + |u|]);
    }
  }

  ghost predicate PartAt(u: Word, w: Word, k: nat) { k + |u| <= |w| && w[k..k + |u|] == u }

  lemma MappedPart(m: seq<nat>, pattern: seq<Byte>, text: seq<Byte>, k: nat)
    requires |m| == 256
    ensures PartAt(Mapped(m, pattern), Mapped(m, text), k) <==> IsAtUnder(m, pattern, text, k)
  {
    var u, w := Mapped(m, pattern), Mapped(m, text);
    if k + |u| <= |w| {
      assert forall i :: 0 <= i < |u| ==> w[k..k + |u|][i] == m[text[k + i]] && u[i] == m[pattern[i]];
    }
  }

  /** Under the map that `Build` uses, a mapped substring is what it is under the caller's. */
  lemma EffectivePart(alphaMap: Option<seq<nat>>, pattern: seq<Byte>, text: seq<Byte>, k: nat)
    requires |EffectiveMap(alphaMap)| == 256
    ensures IsAtUnder(EffectiveMap(alphaMap), pattern, text, k)
            <==> match alphaMap
                 case None => IsAt(pattern, text, k)
                 case Some(m) => IsAtUnder(m, pattern, text, k)
  {
    if alphaMap.None? && k + |pattern| <= |text| {
      var part := text[k..k + |pattern|];
      assert forall i :: 0 <= i < |part| ==> part[i] == text[k + i];
    }
  }

  lemma MappedOccurs(alphaMap: Option<seq<nat>>, pattern: seq<Byte>, text: seq<Byte>)
    requires |EffectiveMap(alphaMap)| == 256
    ensures var letters := EffectiveMap(alphaMap);
            IsSubstring(Mapped(letters, pattern), Mapped(letters, text))
            <==> match alphaMap
                 case None => exists k: nat :: IsAt(pattern, text, k)
                 case Some(m) => exists k: nat :: IsAtUnder(m, pattern, text, k)
  {
    var letters := EffectiveMap(alphaMap);
    SubstringPart(Mapped(letters, pattern), Mapped(letters, text));
    hide IsSubstring, Mapped, PartAt, IsAt, IsAtUnder, EffectiveMap;
    forall k: nat
      ensures PartAt(Mapped(letters, pattern), Mapped(letters, text), k) <==> IsAtUnder(letters, pattern, text, k)
      ensures IsAtUnder(letters, pattern, text, k) <==> match alphaMap
                                                    case None => IsAt(pattern, text, k)
                                                    case Some(m) => IsAtUnder(m, pattern, text, k)
    {
      MappedPart(letters, pattern, text, k);
      EffectivePart(alphaMap, pattern, text, k);
    }
  }

  lemma MappedBeginsNone(alphaMap: Option<seq<nat>>, texts: seq<seq<Byte>>, b: Byte)
    requires |EffectiveMap(alphaMap)| == 256
    ensures BeginsNone(MappedAll(EffectiveMap(alphaMap), texts), EffectiveMap(alphaMap)[b])
            <==> BeginsNoText(alphaMap, texts, b)
  {
    var letters := EffectiveMap(alphaMap);
    var patterns := MappedAll(letters, texts);
    forall p | 0 <= p < |texts|
      ensures patterns[p] == Mapped(letters, texts[p]) && |patterns[p]| == |texts[p]|
      ensures texts[p] != [] ==> (patterns[p][0] == letters[b] <==> SameLetter(alphaMap, texts[p][0], b))
    {
      if texts[p] != [] { assert patterns[p][0] == letters[texts[p][0]]; }
    }
    hide MappedAll, SameLetter, EffectiveMap;
  }

  /** `Occurs` for mapped patterns, on bytes. */
  lemma OccursOnBytes(alphaMap: Option<seq<nat>>, texts: seq<seq<Byte>>, text: seq<Byte>, p: nat)
    requires |EffectiveMap(alphaMap)| == 256 && p < |texts|
    ensures var letters := EffectiveMap(alphaMap);
            Occurs(MappedAll(letters, texts), p, Mapped(letters, text))
            <==> if texts[p] == [] then exists i :: 0 <= i < |text| && BeginsNoText(alphaMap, texts, text[i])
                 else match alphaMap
                   case None => exists k: nat :: IsAt(texts[p], text, k)
                   case Some(m) => exists k: nat :: IsAtUnder(m, texts[p], text, k)
  {
    var letters := EffectiveMap(alphaMap);
    assert MappedAll(letters, texts)[p] == Mapped(letters, texts[p]) && |Mapped(letters, texts[p])| == |texts[p]|;
    MappedOccurs(alphaMap, texts[p], text);
    forall i | 0 <= i < |text|
      ensures Mapped(letters, text)[i] == letters[text[i]]
      ensures BeginsNone(MappedAll(letters, texts), letters[text[i]]) <==> BeginsNoText(alphaMap, texts, text[i])
    {
      MappedBeginsNone(alphaMap, texts, text[i]);
    }
    hide IsSubstring, EffectiveMap, MappedAll, BeginsNone, BeginsNoText, IsAt, IsAtUnder;
    if texts[p] == [] {
      if i :| 0 <= i < |text| && BeginsNoText(alphaMap, texts, text[i]) {
        assert BeginsNone(MappedAll(letters, texts), Mapped(letters, text)[i]);
      }
    }
  }

  /** For any texts and any map: bit p of the result is set exactly when p < 64 and text p stands
      somewhere in the scanned text, byte for byte without a map and letter for letter under one; the
      bit of an empty text, when some byte has a letter with which no other text begins. */
  method BuildAndScan(texts: seq<seq<Byte>>, alphaMap: Option<seq<nat>>, alphaSize: int, text: seq<Byte>)
      returns (result: Option<bv64>)
    requires MapFits(alphaMap, alphaSize)
    ensures result.None? <==> texts == []
    ensures result.Some? && alphaMap.None? ==> forall p :: 0 <= p < |texts| && texts[p] != [] ==>
              (Has(result.value, p) <==> p < 64 && exists k: nat :: IsAt(texts[p], text, k))
    ensures result.Some? && alphaMap.Some? ==> forall p :: 0 <= p < |texts| && texts[p] != [] ==>
              (Has(result.value, p) <==> p < 64 && exists k: nat :: IsAtUnder(alphaMap.value, texts[p], text, k))
    ensures result.Some? ==> forall p :: 0 <= p < |texts| && texts[p] == [] ==>
              (Has(result.value, p) <==>
                 p < 64 && exists i :: 0 <= i < |text| && BeginsNoText(alphaMap, texts, text[i]))
    ensures result.Some? ==> forall p :: p >= |texts| ==> !Has(result.value, p)
  {
    MapFitsAlphabet(alphaMap, alphaSize);
    hide Has, Automaton.Built, Occurs, Alphabet, IsAt, IsAtUnder, BeginsNoText, EffectiveMap;
    var ac := Build(texts, alphaMap, alphaSize);
    if ac == null {
      return None;
    }
    var mask := ScanBitmask(ac, text);
    forall p | 0 <= p < |texts|
      ensures Occurs(ac.patterns, p, Mapped(ac.alphaMap, text))
              <==> if texts[p] == [] then exists i :: 0 <= i < |text| && BeginsNoText(alphaMap, texts, text[i])
                   else match alphaMap
                     case None => exists k: nat :: IsAt(texts[p], text, k)
                     case Some(m) => exists k: nat :: IsAtUnder(m, texts[p], text, k)
    {
      OccursOnBytes(alphaMap, texts, text, p);
    }
    return Some(mask);
  }

  lemma MapFitsAlphabet(alphaMap: Option<seq<nat>>, alphaSize: int)
    requires MapFits(alphaMap, alphaSize)
    ensures Alphabet(EffectiveMap(alphaMap), if alphaSize <= 0 then BYTE_RANGE else alphaSize)
  {}

  lemma NothingFound(names: seq<Word>, pattern: Word)
    ensures !Found(names, pattern, [])
  {}
}
