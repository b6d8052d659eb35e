/** Words over the mapped alphabet, and what the states of the automaton of ac.c stand for.
    State s stands for the word names[s]; state 0 stands for the empty word. */
module TrieWords {

  type Word = seq<nat>

  ghost predicate IsSuffix(u: Word, w: Word) {
    |u| <= |w| && w[|w| - |u|..] == u
  }

  ghost predicate IsSubstring(u: Word, w: Word) {
    exists i :: 0 <= i <= |w| && IsSuffix(u, w[..i])
  }

  function Front(w: Word): Word
    requires w != []
  {
    w[..|w| - 1]
  }

  function Last(w: Word): nat
    requires w != []
  {
    w[|w| - 1]
  }

  /** The state names form a trie: distinct, rooted at [], closed under dropping the last letter. */
  ghost predicate Trie(names: seq<Word>) {
    && |names| > 0 && names[0] == []
    && (forall i, j :: 0 <= i < j < |names| ==> names[i] != names[j])
    && (forall s :: 0 < s < |names| ==> names[s] != [] && Front(names[s]) in names)
  }

  ghost function StateOf(names: seq<Word>, w: Word): (s: nat)
    requires w in names
    ensures s < |names| && names[s] == w
  {
    var s :| 0 <= s < |names| && names[s] == w; s
  }

  ghost function Parent(names: seq<Word>, s: nat): (r: nat)
    requires Trie(names) && 0 < s < |names|
    ensures r < |names| && names[r] + [Last(names[s])] == names[s]
  {
    StateOf(names, Front(names[s]))
  }

  lemma SameName(names: seq<Word>, s: nat, t: nat)
    requires Trie(names) && s < |names| && t < |names| && names[s] == names[t]
    ensures s == t
  {}

  lemma GrowTrie(names: seq<Word>, s: nat, c: nat)
    requires Trie(names) && s < |names| && names[s] + [c] !in names
    ensures Trie(names + [names[s] + [c]])
  {
    var more := names + [names[s] + [c]];
    assert Front(names[s] + [c]) == names[s];
    assert names[s] == more[s];
    forall t | 0 < t < |more| ensures more[t] != [] && Front(more[t]) in more {
      if t < |names| { assert Front(names[t]) in names; }
    }
  }

  lemma {:induction false} PrefixInTrie(names: seq<Word>, w: Word, n: nat)
    requires Trie(names) && w in names && n <= |w|
    ensures w[..n] in names
    decreases |w| - n
  {
    if n == |w| {
      assert w[..n] == w;
    } else {
      PrefixInTrie(names, w, n + 1);
      var s := StateOf(names, w[..n + 1]);
      assert Front(names[s]) == w[..n];
    }
  }

  /** The longest suffix of `w` that is a trie word. */
  ghost function LongestSuffix(names: seq<Word>, w: Word): (u: Word)
    requires Trie(names)
    ensures u in names && IsSuffix(u, w)
  {
    if w in names then w
    else
      hide IsSuffix;
      assert names[0] == [];
      var u := LongestSuffix(names, w[1..]);
      SuffixLonger(u, w);
      u
  }

  lemma SuffixLonger(u: Word, w: Word)
    requires w != [] && IsSuffix(u, w[1..])
    ensures IsSuffix(u, w)
  {
    assert w[1..][|w| - 1 - |u|..] == w[|w| - |u|..];
  }

  /** It really is the longest one: every trie suffix of `w` is a suffix of it. */
  lemma {:induction false} LongestIsLongest(names: seq<Word>, w: Word, u: Word)
    requires Trie(names) && u in names && IsSuffix(u, w)
    ensures IsSuffix(u, LongestSuffix(names, w))
  {
    if w !in names {
      assert names[0] == [];
      assert IsSuffix(u, w[1..]);
      LongestIsLongest(names, w[1..], u);
    }
  }

  lemma SuffixOfSuffix(u: Word, v: Word, w: Word)
    requires IsSuffix(u, v) && IsSuffix(v, w)
    ensures IsSuffix(u, w)
  {
    assert v[|v| - |u|..] == w[|w| - |u|..];
  }

  /** Reading one more letter only needs the longest trie suffix of what was read before. */
  lemma {:induction false} LongestStep(names: seq<Word>, w: Word, c: nat)
    requires Trie(names)
    ensures LongestSuffix(names, w + [c]) == LongestSuffix(names, LongestSuffix(names, w) + [c])
  {
    if w !in names {
      assert names[0] == [];
      assert (w + [c])[..|w|] == w;
      if w + [c] in names {
        PrefixInTrie(names, w + [c], |w|);
        assert false;
      }
      assert (w + [c])[1..] == w[1..] + [c];
      LongestStep(names, w[1..], c);
    }
  }

  /** The word of the failure state of a non-root state. */
  ghost function FailWord(names: seq<Word>, w: Word): Word
    requires Trie(names) && w != []
  {
    LongestSuffix(names, w[1..])
  }

  /** Where the transition on `c` from a state `w` with no child on `c` leads. */
  lemma MissingChild(names: seq<Word>, w: Word, c: nat)
    requires Trie(names) && w != [] && w + [c] !in names
    ensures LongestSuffix(names, w + [c]) == LongestSuffix(names, FailWord(names, w) + [c])
  {
    assert (w + [c])[1..] == w[1..] + [c];
    LongestStep(names, w[1..], c);
  }

  /** The failure word of a child on `c`. */
  lemma ChildFailWord(names: seq<Word>, w: Word, c: nat)
    requires Trie(names) && w != []
    ensures FailWord(names, w + [c]) == LongestSuffix(names, FailWord(names, w) + [c])
  {
    assert (w + [c])[1..] == w[1..] + [c];
    LongestStep(names, w[1..], c);
  }

  /** What ac.c's `output` reports for a pattern at a state whose word is `w`.
      For a non-empty pattern: it is a suffix of `w`. An empty pattern sits at the root and is
      inherited along failure links, except by the depth-1 states, which inherit nothing. */
  ghost predicate Reports(names: seq<Word>, pattern: Word, w: Word) {
    if pattern == [] then w == [] || [Last(w)] !in names else IsSuffix(pattern, w)
  }

  /** The failure link carries exactly the reports other than the state's own pattern. */
  lemma ReportsViaFail(names: seq<Word>, pattern: Word, w: Word)
    requires Trie(names) && pattern in names && w in names && |w| >= 2
    ensures Reports(names, pattern, w)
            <==> pattern == w || Reports(names, pattern, FailWord(names, w))
  {
    hide Trie, IsSuffix, LongestSuffix;
    var v := w[1..];
    SuffixRest(pattern, w);
    ReportsAtPrefix(names, pattern, v);
    assert pattern == [] ==> Last(v) == Last(w);
  }

  /** Every suffix but the word itself is one of the rest. */
  lemma SuffixRest(u: Word, w: Word)
    requires w != []
    ensures IsSuffix(u, w) <==> u == w || IsSuffix(u, w[1..])
  {
    if IsSuffix(u, w[1..]) {
      assert IsSuffix(w[1..], w);
      SuffixOfSuffix(u, w[1..], w);
    }
    if IsSuffix(u, w) && u != w {
      assert w[1..][|w| - 1 - |u|..] == w[|w| - |u|..];
    }
  }

  /** The last letter is a suffix, and the last letter of every suffix. */
  lemma LastLetter(u: Word, w: Word)
    requires w != []
    ensures IsSuffix([Last(w)], w)
    ensures IsSuffix(u, w) && u != [] ==> Last(u) == Last(w)
  {}

  /** A depth-1 state reports its own pattern only. */
  lemma ReportsAtDepthOne(names: seq<Word>, pattern: Word, w: Word)
    requires Trie(names) && pattern in names && w in names && |w| == 1
    ensures Reports(names, pattern, w) <==> pattern == w
  {
    assert [Last(w)] == w;
  }

  /** What the scan must find in a whole text: for a non-empty pattern, an occurrence; for an empty
      one, a letter that begins no non-empty pattern. */
  ghost predicate Found(names: seq<Word>, pattern: Word, text: Word) {
    if pattern == [] then exists i :: 0 <= i < |text| && [text[i]] !in names
    else IsSubstring(pattern, text)
  }

  /** Reporting at the state reached by a prefix is reporting at the prefix itself. */
  lemma ReportsAtPrefix(names: seq<Word>, pattern: Word, w: Word)
    requires Trie(names) && pattern in names && w != []
    ensures Reports(names, pattern, LongestSuffix(names, w))
            <==> if pattern == [] then [Last(w)] !in names else IsSuffix(pattern, w)
  {
    hide Trie, IsSuffix, LongestSuffix;
    var u := LongestSuffix(names, w);
    if pattern == [] {
      LastLetter(u, w);
      if [Last(w)] in names {
        LongestIsLongest(names, w, [Last(w)]);
        NoSuffixOfNothing([Last(w)], u);
      }
    } else {
      if IsSuffix(pattern, w) { LongestIsLongest(names, w, pattern); }
      if IsSuffix(pattern, u) { SuffixOfSuffix(pattern, u, w); }
    }
  }

  lemma SuffixOfOne(u: Word, c: nat)
    requires IsSuffix(u, [c]) && u != []
    ensures u == [c]
  {
    assert [c][0..] == [c];
  }

  lemma NoSuffixOfNothing(u: Word, w: Word)
    requires IsSuffix(u, w) && u != []
    ensures w != []
  {}

  lemma SubstringStep(pattern: Word, text: Word, i: nat)
    requires i < |text|
    ensures IsSubstring(pattern, text[..i + 1])
            <==> IsSubstring(pattern, text[..i]) || IsSuffix(pattern, text[..i + 1])
  {
    var a, b := text[..i], text[..i + 1];
    assert forall k :: 0 <= k <= i ==> b[..k] == a[..k];
    assert b[..i + 1] == b;
    if IsSubstring(pattern, b) {
      var k :| 0 <= k <= |b| && IsSuffix(pattern, b[..k]);
      assert k <= i ==> IsSuffix(pattern, a[..k]);
    }
    if IsSubstring(pattern, a) {
      var k :| 0 <= k <= |a| && IsSuffix(pattern, a[..k]);
      assert IsSuffix(pattern, b[..k]);
    }
  }

  /** One more letter of the text. */
  lemma FoundStep(names: seq<Word>, pattern: Word, text: Word, i: nat)
    requires Trie(names) && pattern in names && i < |text|
    ensures Found(names, pattern, text[..i + 1])
            <==> Found(names, pattern, text[..i])
                 || Reports(names, pattern, LongestSuffix(names, text[..i + 1]))
  {
    ReportsAtPrefix(names, pattern, text[..i + 1]);
    if pattern == [] {
      FoundEmptyStep(names, text, i);
    } else {
      SubstringStep(pattern, text, i);
    }
  }

  lemma FoundEmptyStep(names: seq<Word>, text: Word, i: nat)
    requires i < |text|
    ensures Found(names, [], text[..i + 1]) <==> Found(names, [], text[..i]) || [text[i]] !in names
  {
    var a, b := text[..i], text[..i + 1];
    assert forall k :: 0 <= k < i ==> [b[k]] == [a[k]];
    if Found(names, [], b) {
      var k :| 0 <= k < |b| && [b[k]] !in names;
      assert k < i ==> [a[k]] !in names;
    }
    if Found(names, [], a) {
      var k :| 0 <= k < |a| && [a[k]] !in names;
      assert [b[k]] !in names;
    }
    assert [b[i]] == [text[i]];
  }
}
