/** The signature parameter counter of cbm.c, and the parameter lists it counts right. */
module SignatureParams {
  import opened Basics

  predicate IsOpen(c: char) { c == '(' || c == '[' || c == '{' || c == '<' }
  predicate IsClose(c: char) { c == ')' || c == ']' || c == '}' || c == '>' }
  predicate IsBracket(c: char) { IsOpen(c) || IsClose(c) }

  /** isspace in the C locale. */
  predicate IsSpace(c: char) {
    c == ' ' || c == '\t' || c == '\n' || c == '\r' || c == '\U{0B}' || c == '\U{0C}'
  }

  // ---- Parameter lists ----

  /** A piece of a parameter: a character outside brackets, or a bracketed group. The closing bracket
      need not be of the kind that was opened: the counter keeps one depth for all of them. */
  datatype Item = Plain(c: char) | Nest(open: char, inner: seq<Item>, close: char)

  type Param = seq<Item>

  predicate Nested(items: seq<Item>) {
    items == [] ||
    match items[0]
    case Plain(c) => !IsBracket(c) && Nested(items[1..])
    case Nest(open, inner, close) => IsOpen(open) && Nested(inner) && IsClose(close) && Nested(items[1..])
  }

  predicate IsParam(param: Param) {
    Nested(param) && Plain(',') !in param
  }

  function Text(items: seq<Item>): string {
    if items == [] then ""
    else
      (match items[0]
       case Plain(c) => [c]
       case Nest(open, inner, close) => [open] + Text(inner) + [close])
      + Text(items[1..])
  }

  function JoinedText(params: seq<Param>): string
    requires params != []
  {
    if |params| == 1 then Text(params[0]) else Text(params[0]) + "," + JoinedText(params[1..])
  }

  /** Something that is neither white space nor a bracket. */
  ghost predicate Solid(text: string) {
    exists i :: 0 <= i < |text| && !IsBracket(text[i]) && !IsSpace(text[i])
  }

  ghost predicate SomeSolid(params: seq<Param>) {
    exists i :: 0 <= i < |params| && Solid(Text(params[i]))
  }

  lemma BlanksAre(s: string, n: nat)
    requires n <= |s| && (forall i :: 0 <= i < n ==> IsBlank(s[i])) && (n < |s| ==> !IsBlank(s[n]))
    ensures Blanks(s) == n
  {}

  /** The lone parameter is taken for C's "no parameters": also `void *p`, and not `void*`. */
  predicate TakenForVoid(param: Param) {
    var text := SkipBlanks(Text(param));
    text == "void" || "void " <= text
  }

  // ---- The counter ----

  datatype Tally = Tally(commas: nat, any: bool)

  /** What reading `s` from bracket depth `depth` adds up to, up to the closing parenthesis. */
  function Scan(s: string, depth: nat): Tally {
    if s == [] then Tally(0, false)
    else if IsOpen(s[0]) then Scan(s[1..], depth + 1)
    else if s[0] == ')' then if depth == 0 then Tally(0, false) else Scan(s[1..], depth - 1)
    else if IsClose(s[0]) then Scan(s[1..], if depth > 0 then depth - 1 else 0)
    else
      var rest := Scan(s[1..], depth);
      if s[0] == ',' && depth == 0 then rest.(commas := rest.commas + 1)
      else if !IsSpace(s[0]) then rest.(any := true)
      else rest
  }

  predicate BeginsVoid(list: string) {
    "void" <= list && (|list| == 4 || list[4] == ')' || list[4] == ' ')
  }

  predicate VoidTest(list: string) { BeginsVoid(SkipBlanks(list)) }

  function ListCount(list: string): nat {
    var tally := Scan(list, 0);
    if !tally.any || (tally.commas == 0 && VoidTest(list)) then 0 else tally.commas + 1
  }

  function FirstOpen(s: string): (p: nat)
    ensures p <= |s| && '(' !in s[..p] && (p < |s| ==> s[p] == '(')
  {
    if s == [] || s[0] == '(' then 0 else
      var p := FirstOpen(s[1..]);
      assert s[..p + 1] == [s[0]] + s[1..][..p];
      p + 1
  }

  function Count(signature: string): nat {
    var p := FirstOpen(signature);
    if p == |signature| then 0 else ListCount(signature[p + 1..])
  }

  lemma FirstOpenAt(before: string, rest: string)
    requires '(' !in before
    ensures FirstOpen(before + "(" + rest) == |before|
  {
    var s := before + "(" + rest;
    if before != "" {
      assert s[1..] == before[1..] + "(" + rest;
      FirstOpenAt(before[1..], rest);
    }
  }

  /** `count_params_from_signature`. */
  method CountParams(signature: Option<string>) returns (count: nat)
    ensures count == if signature.None? then 0 else Count(signature.value)
  {
    hide Scan, VoidTest, FirstOpen;
    if signature.None? {
      return 0;
    }
    var s := signature.value;
    var p := 0;
    while p < |s| && s[p] != '('
      invariant p <= |s| && '(' !in s[..p]
    {
      p := p + 1;
    }
    if p == |s| {
      FirstOpenMissing(s);
      return 0;
    }
    assert s == s[..p] + "(" + s[p + 1..];
    FirstOpenAt(s[..p], s[p + 1..]);
    var list := p + 1;
    var commas, any := ScanList(s, list);
    if !any {
      return 0;
    }
    if commas == 0 {
      var none := TestVoid(s, list);
      if none {
        return 0;
      }
    }
    return commas + 1;
  }

  lemma FirstOpenMissing(s: string)
    requires '(' !in s
    ensures FirstOpen(s) == |s|
  {}

  /** The counting loop. */
  method ScanList(s: string, list: nat) returns (commas: nat, any: bool)
    requires list <= |s|
    ensures Tally(commas, any) == Scan(s[list..], 0)
  {
    commas, any := 0, false;
    var p, depth := list, 0;
    while p < |s|
      invariant list <= p <= |s| && depth >= 0
      invariant Scan(s[list..], 0) == Tally(commas + Scan(s[p..], depth).commas, any || Scan(s[p..], depth).any)
    {
      var c := s[p];
      assert s[p..][1..] == s[p + 1..];
      if c == '(' || c == '[' || c == '{' || c == '<' {
        depth := depth + 1;
      } else if c == ')' {
        if depth == 0 {
          return;
        }
        depth := depth - 1;
      } else if c == ']' || c == '}' || c == '>' {
        if depth > 0 {
          depth := depth - 1;
        }
      } else if c == ',' && depth == 0 {
        commas := commas + 1;
      } else if !IsSpace(c) {
        any := true;
      }
      p := p + 1;
    }
  }

  /** The test for C's `(void)`. */
  method TestVoid(s: string, list0: nat) returns (none: bool)
    requires list0 <= |s|
    ensures none == VoidTest(s[list0..])
  {
    var list := list0;
    while list < |s| && (s[list] == ' ' || s[list] == '\t')
      invariant list0 <= list <= |s| && forall i :: list0 <= i < list ==> IsBlank(s[i])
    {
      list := list + 1;
    }
    BlanksAre(s[list0..], list - list0);
    var text := s[list..];
    assert SkipBlanks(s[list0..]) == text;
    none := "void" <= text && (|text| == 4 || text[4] == ')' || text[4] == ' ');
  }

  // ---- What is counted ----

  ghost predicate Ends(rest: string) { rest == "" || rest[0] == ')' }

  lemma SolidParts(a: string, b: string)
    ensures Solid(a + b) <==> Solid(a) || Solid(b)
  {
    var s := a + b;
    if Solid(a) {
      var i :| 0 <= i < |a| && !IsBracket(a[i]) && !IsSpace(a[i]);
      assert s[i] == a[i];
    }
    if Solid(b) {
      var i :| 0 <= i < |b| && !IsBracket(b[i]) && !IsSpace(b[i]);
      assert s[|a| + i] == b[i];
    }
    if Solid(s) {
      var i :| 0 <= i < |s| && !IsBracket(s[i]) && !IsSpace(s[i]);
      if i < |a| { assert s[i] == a[i]; } else { assert s[i] == b[i - |a|]; }
    }
  }

  /** Well-nested pieces leave the depth where it was and add no comma. */
  lemma {:induction false} ScanPast(items: seq<Item>, rest: string, depth: nat)
    requires Nested(items) && (depth == 0 ==> Plain(',') !in items)
    ensures Scan(Text(items) + rest, depth)
            == Tally(Scan(rest, depth).commas, Scan(rest, depth).any || Solid(Text(items)))
    decreases items, 0
  {
    hide Solid;
    if items == [] {
      SolidNothing();
      assert Text(items) + rest == rest;
    } else {
      ScanPast(items[1..], rest, depth);
      var tail := Text(items[1..]) + rest;
      match items[0]
      case Plain(c) =>
        assert Text(items) + rest == [c] + tail;
        assert ([c] + tail)[1..] == tail;
        SolidParts([c], Text(items[1..]));
        SolidOne(c);
      case Nest(open, inner, close) =>
        ScanNest(open, inner, close, items[1..], rest, depth);
    }
  }

  lemma {:induction false} ScanNest(open: char, inner: seq<Item>, close: char, more: seq<Item>,
                                    rest: string, depth: nat)
    requires IsOpen(open) && Nested(inner) && IsClose(close)
    ensures var tail := Text(more) + rest;
            Scan([open] + Text(inner) + [close] + Text(more) + rest, depth)
            == Tally(Scan(tail, depth).commas, Scan(tail, depth).any || Solid(Text(inner)))
    ensures Solid([open] + Text(inner) + [close] + Text(more)) <==> Solid(Text(inner)) || Solid(Text(more))
    decreases inner, 1
  {
    hide Solid, Text, Nested, Scan;
    var tail := Text(more) + rest;
    var closing := [close] + tail;
    ScanPast(inner, closing, depth + 1);
    ScanOpening(open, Text(inner) + closing, depth);
    ScanClosing(close, tail, depth);
    assert [open] + Text(inner) + [close] + Text(more) + rest == [open] + (Text(inner) + closing);
    SolidParts([open] + Text(inner) + [close], Text(more));
    SolidParts([open] + Text(inner), [close]);
    SolidParts([open], Text(inner));
    SolidOne(open);
    SolidOne(close);
  }

  lemma ScanOpening(open: char, tail: string, depth: nat)
    requires IsOpen(open)
    ensures Scan([open] + tail, depth) == Scan(tail, depth + 1)
  {
    assert ([open] + tail)[1..] == tail;
  }

  lemma ScanClosing(close: char, tail: string, depth: nat)
    requires IsClose(close)
    ensures Scan([close] + tail, depth + 1) == Scan(tail, depth)
  {
    assert ([close] + tail)[1..] == tail;
  }

  lemma SolidNothing()
    ensures !Solid("")
  {}

  lemma SolidOne(c: char)
    ensures Solid([c]) <==> !IsBracket(c) && !IsSpace(c)
  {
    assert [c][0] == c;
  }

  lemma ScanEnd(rest: string)
    requires Ends(rest)
    ensures Scan(rest, 0) == Tally(0, false)
  {}

  lemma ScanComma(tail: string)
    ensures Scan("," + tail, 0) == Tally(Scan(tail, 0).commas + 1, Scan(tail, 0).any)
  {
    assert ("," + tail)[1..] == tail;
  }

  lemma {:induction false} ScanJoined(params: seq<Param>, rest: string)
    requires params != [] && (forall i :: 0 <= i < |params| ==> IsParam(params[i])) && Ends(rest)
    ensures Scan(JoinedText(params) + rest, 0) == Tally(|params| - 1, SomeSolid(params))
  {
    hide Solid, Scan, Nested, Text;
    assert IsParam(params[0]);
    if |params| == 1 {
      ScanPast(params[0], rest, 0);
      ScanEnd(rest);
    } else {
      var more := params[1..];
      ScanJoined(more, rest);
      var tail := JoinedText(more) + rest;
      ScanPast(params[0], "," + tail, 0);
      ScanComma(tail);
      assert JoinedText(params) + rest == Text(params[0]) + ("," + tail);
      assert SomeSolid(params) <==> Solid(Text(params[0])) || SomeSolid(more) by {
        if SomeSolid(more) {
          var i :| 0 <= i < |more| && Solid(Text(more[i]));
          assert more[i] == params[i + 1];
        }
        if SomeSolid(params) {
          var i :| 0 <= i < |params| && Solid(Text(params[i]));
          if i > 0 { assert params[i] == more[i - 1]; }
        }
      }
    }
  }

  /** The first closing bracket of well-nested text has an opening one before it. */
  lemma OpenBeforeClose(items: seq<Item>, k: nat)
    requires Nested(items) && k < |Text(items)| && IsClose(Text(items)[k])
    ensures exists i :: 0 <= i < k && IsOpen(Text(items)[i])
  {
    match items[0]
    case Plain(c) =>
      assert Text(items) == [c] + Text(items[1..]);
      assert k > 0 && Text(items)[k] == Text(items[1..])[k - 1];
      OpenBeforeClose(items[1..], k - 1);
      var i :| 0 <= i < k - 1 && IsOpen(Text(items[1..])[i]);
      assert Text(items)[i + 1] == Text(items[1..])[i];
    case Nest(open, inner, close) =>
      assert Text(items)[0] == open;
  }

  lemma {:induction false} BlanksBefore(text: string, rest: string)
    requires Blanks(text) < |text|
    ensures Blanks(text + rest) == Blanks(text)
  {
    assert (text + rest)[0] == text[0];
    if IsBlank(text[0]) {
      assert (text + rest)[1..] == text[1..] + rest;
      BlanksBefore(text[1..], rest);
    }
  }

  lemma SolidAfterBlanks(text: string)
    requires Solid(text)
    ensures Blanks(text) < |text|
  {
    hide Blanks, IsBracket;
    var i :| 0 <= i < |text| && !IsBracket(text[i]) && !IsSpace(text[i]);
    assert !IsBlank(text[i]);
  }

  lemma DropAppend(a: string, b: string, n: nat)
    requires n <= |a|
    ensures (a + b)[n..] == a[n..] + b
  {}

  lemma SkipBlanksSolid(text: string, rest: string)
    requires Solid(text)
    ensures Blanks(text) < |text| && SkipBlanks(text + rest) == SkipBlanks(text) + rest
  {
    hide Blanks, Solid;
    SolidAfterBlanks(text);
    BlanksBefore(text, rest);
    DropAppend(text, rest, Blanks(text));
  }

  lemma BeginsVoidReads(q: string, rest: string)
    requires Ends(rest) && (|q| > 4 && q[4] == ')' ==> !("void" <= q))
    ensures BeginsVoid(q + rest) <==> q == "void" || "void " <= q
  {
    var all := q + rest;
    assert forall i :: 0 <= i < |q| ==> all[i] == q[i];
    if |q| < 4 {
      if |all| > |q| { assert all[|q|] == ')'; }
      assert |all| > |q| ==> all[|q|] != "void"[|q|];
    } else {
      assert "void" <= all <==> "void" <= q by {
        assert all[..4] == q[..4];
      }
      assert "void " <= q <==> "void" <= q && |q| > 4 && q[4] == ' ';
    }
  }

  /** Only the parameter itself decides the `void` test, not what follows the list. */
  lemma VoidTestReadsParam(param: Param, rest: string)
    requires IsParam(param) && Solid(Text(param)) && Ends(rest)
    ensures VoidTest(Text(param) + rest) <==> TakenForVoid(param)
  {
    hide Solid, Text, Nested;
    var text := Text(param);
    SkipBlanksSolid(text, rest);
    var q := SkipBlanks(text);
    var n := Blanks(text);
    if |q| > 4 && "void" <= q {
      forall i | 0 <= i < n + 4 ensures !IsOpen(text[i]) {
        if i >= n { assert text[i] == q[i - n] == "void"[i - n]; }
      }
      assert text[n + 4] == q[4];
      if IsClose(q[4]) {
        OpenBeforeClose(param, n + 4);
        assert false;
      }
    }
    BeginsVoidReads(q, rest);
  }

  /** The count is the number of parameters, however they nest, unless there is no text at all between
      the parentheses or the only parameter looks like `void`. The list may be cut off at its end. */
  lemma CountsParameters(before: string, params: seq<Param>, rest: string)
    requires '(' !in before && params != [] && Ends(rest)
    requires forall i :: 0 <= i < |params| ==> IsParam(params[i])
    ensures Count(before + "(" + JoinedText(params) + rest)
            == if !SomeSolid(params) || (|params| == 1 && TakenForVoid(params[0])) then 0 else |params|
  {
    hide *;
    var list := JoinedText(params) + rest;
    assert before + "(" + JoinedText(params) + rest == before + "(" + list;
    ListCountJoined(params, rest);
    CountAt(before, list);
  }

  lemma CountAt(before: string, list: string)
    requires '(' !in before
    ensures Count(before + "(" + list) == ListCount(list)
  {
    hide ListCount, FirstOpen;
    FirstOpenAt(before, list);
    assert (before + "(" + list)[|before| + 1..] == list;
  }

  lemma ListCountJoined(params: seq<Param>, rest: string)
    requires params != [] && Ends(rest)
    requires forall i :: 0 <= i < |params| ==> IsParam(params[i])
    ensures ListCount(JoinedText(params) + rest)
            == if !SomeSolid(params) || (|params| == 1 && TakenForVoid(params[0])) then 0 else |params|
  {
    hide Solid, VoidTest, TakenForVoid, Scan, IsParam, Text;
    ScanJoined(params, rest);
    if |params| == 1 {
      assert IsParam(params[0]);
      if SomeSolid(params) {
        VoidTestReadsParam(params[0], rest);
      }
    }
  }

  // ---- Plain text and one bracketed group ----

  /** None of the eight brackets. */
  ghost predicate Bare(s: string) {
    forall i :: 0 <= i < |s| ==> s[i] !in "()[]{}<>"
  }

  predicate Pair(open: char, close: char) {
    || (open == '(' && close == ')') || (open == '[' && close == ']')
    || (open == '{' && close == '}') || (open == '<' && close == '>')
  }

  function Plains(s: string): seq<Item> { seq(|s|, i requires 0 <= i < |s| => Plain(s[i])) }

  lemma BareIsPlain(s: string)
    requires Bare(s)
    ensures forall i :: 0 <= i < |s| ==> !IsBracket(s[i])
  {
    var all := "()[]{}<>";
    forall c | IsBracket(c) ensures c in all {
      assert all[0] == '(' && all[1] == ')' && all[2] == '[' && all[3] == ']';
      assert all[4] == '{' && all[5] == '}' && all[6] == '<' && all[7] == '>';
    }
  }

  lemma {:induction false} PlainText(s: string, more: seq<Item>)
    requires Bare(s)
    ensures Text(Plains(s) + more) == s + Text(more)
    ensures Nested(Plains(s) + more) <==> Nested(more)
  {
    BareIsPlain(s);
    var items := Plains(s) + more;
    if s == "" {
      assert items == more;
    } else {
      assert items[0] == Plain(s[0]) && items[1..] == Plains(s[1..]) + more;
      PlainText(s[1..], more);
      assert [s[0]] + (s[1..] + Text(more)) == s + Text(more);
    }
  }

  lemma GroupText(open: char, inner: string, close: char, post: string)
    requires Pair(open, close) && Bare(inner) && Bare(post)
    ensures var items := [Nest(open, Plains(inner), close)] + Plains(post);
            Text(items) == [open] + inner + [close] + post && Nested(items)
  {
    var items := [Nest(open, Plains(inner), close)] + Plains(post);
    PlainText(inner, []);
    PlainText(post, []);
    assert Plains(inner) + [] == Plains(inner) && Plains(post) + [] == Plains(post);
    assert items[1..] == Plains(post);
    assert inner + "" == inner && post + "" == post;
    assert Text(items) == [open] + Text(Plains(inner)) + [close] + Text(Plains(post));
  }

  function Grouped(pre: string, open: char, inner: string, close: char, post: string): string {
    pre + [open] + inner + [close] + post
  }

  lemma GroupParam(pre: string, open: char, inner: string, close: char, post: string) returns (param: Param)
    requires Pair(open, close) && Bare(pre) && Bare(inner) && Bare(post) && ',' !in pre && ',' !in post
    ensures IsParam(param) && Text(param) == Grouped(pre, open, inner, close, post)
  {
    var group := [Nest(open, Plains(inner), close)] + Plains(post);
    param := Plains(pre) + group;
    GroupText(open, inner, close, post);
    PlainText(pre, group);
    hide Nested, Text;
    assert pre + ([open] + inner + [close] + post) == Grouped(pre, open, inner, close, post);
  }

  /** Commas inside a pair of brackets of any of the four kinds do not count: such a list is one parameter,
      unless it looks like `void`. */
  lemma CommasInBrackets(pre: string, open: char, inner: string, close: char, post: string)
    requires Pair(open, close) && Bare(pre) && Bare(inner) && Bare(post) && ',' !in pre && ',' !in post
    requires exists i :: 0 <= i < |pre| && pre[i] !in " \t\n\r\U{0B}\U{0C}"
    ensures var list := pre + [open] + inner + [close] + post;
            Count("f(" + list + ")") == if SkipBlanks(list) == "void" || "void " <= SkipBlanks(list) then 0 else 1
  {
    var i :| 0 <= i < |pre| && pre[i] !in " \t\n\r\U{0B}\U{0C}";
    SixSpaces(pre[i]);
    BareIsPlain(pre);
    var text := Grouped(pre, open, inner, close, post);
    assert text[i] == pre[i];
    assert Solid(text);
    var param := GroupParam(pre, open, inner, close, post);
    hide Nested, Text, Count, Solid;
    OneParameter(param);
  }

  lemma OneParameter(param: Param)
    requires IsParam(param)
    ensures Count("f(" + Text(param) + ")") == if !Solid(Text(param)) || TakenForVoid(param) then 0 else 1
  {
    hide Nested, Text, Count, Solid, TakenForVoid;
    CountsParameters("f", [param], ")");
    assert "f" + "(" + JoinedText([param]) + ")" == "f(" + Text(param) + ")";
    assert SomeSolid([param]) <==> Solid(Text(param)) by { assert [param][0] == param; }
  }

  /** One type argument list with a comma. */
  lemma MapIsOneParameter()
    ensures Count("f(map<int,int> m)") == 1
  {
    hide Count;
    var pre, list := "map", "map<int,int> m";
    assert pre[0] == 'm';
    CommasInBrackets(pre, '<', "int,int", '>', " m");
    assert pre + ['<'] + "int,int" + ['>'] + " m" == list;
    BlanksAre(list, 0);
    assert list[0..] == list && list[0] == 'm';
    assert "f(" + list + ")" == "f(map<int,int> m)";
  }

  /** Plain text without commas between the parentheses is one parameter, unless it is only white space,
      of which there are six kinds, or looks like `void`. */
  lemma PlainListCount(s: string)
    requires Bare(s) && ',' !in s
    ensures Count("f(" + s + ")")
            == if (forall i :: 0 <= i < |s| ==> s[i] in " \t\n\r\U{0B}\U{0C}")
                  || SkipBlanks(s) == "void" || "void " <= SkipBlanks(s) then 0 else 1
  {
    BareIsPlain(s);
    PlainText(s, []);
    assert Plains(s) + [] == Plains(s) && s + "" == s;
    var param := Plains(s);
    assert IsParam(param) && Text(param) == s;
    forall c ensures IsSpace(c) <==> c in " \t\n\r\U{0B}\U{0C}" { SixSpaces(c); }
    hide Nested, Text, Count, IsSpace, IsBracket;
    OneParameter(param);
  }

  lemma SixSpaces(c: char)
    ensures IsSpace(c) <==> c in " \t\n\r\U{0B}\U{0C}"
  {
    var all := " \t\n\r\U{0B}\U{0C}";
    assert all[0] == ' ' && all[1] == '\t' && all[2] == '\n' && all[3] == '\r';
    assert all[4] == '\U{0B}' && all[5] == '\U{0C}';
  }

  /** A parameter list that is not empty is missed where its one parameter is `void` and a space. */
  lemma VoidPointerIsMissed()
    ensures Count("f(void *p)") == 0
  {
    hide Count, ListCount;
    assert "f" + "(" + "void *p)" == "f(void *p)";
    CountAt("f", "void *p)");
    VoidPointerList("void *p)");
  }

  lemma VoidPointerList(list: string)
    requires "void " <= list && ',' !in list
    ensures ListCount(list) == 0
  {
    hide Scan;
    assert list[0] == 'v';
    BlanksAre(list, 0);
    NoCommas(list);
  }

  lemma {:induction false} NoCommas(s: string)
    requires ',' !in s
    ensures forall depth: nat :: Scan(s, depth).commas == 0
  {
    if s != [] { NoCommas(s[1..]); }
  }
}
