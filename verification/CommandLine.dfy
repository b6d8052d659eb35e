/** The Windows command line the launcher of src/main.c prints, and the parser that reads it back.
    Text is a sequence of UTF-16 code units; an argument is a C string, so it holds no NUL. */
module CommandLine {

  newtype Unit = c: int | 0 <= c < 0x10000

  const NUL: Unit := 0
  const TAB: Unit := 9
  const SPACE: Unit := 32
  const QUOTE: Unit := 34
  const BACKSLASH: Unit := 92
  const PATH_CAP: nat := 32768

  type Text = seq<Unit>

  ghost predicate CString(s: Text) { NUL !in s }

  // ---- The parser: CommandLineToArgvW's documented rules ----

  predicate IsBlank(c: Unit) { c == SPACE || c == TAB }

  /** Length of the run of backslashes `s` starts with. */
  function Run(s: Text): (n: nat)
    ensures n <= |s| && (n < |s| ==> s[n] != BACKSLASH)
    ensures forall i :: 0 <= i < n ==> s[i] == BACKSLASH
  {
    if s != [] && s[0] == BACKSLASH then 1 + Run(s[1..]) else 0
  }

  function Backslashes(n: nat): (s: Text)
    ensures |s| == n && forall i :: 0 <= i < n ==> s[i] == BACKSLASH
  {
    seq(n, _ => BACKSLASH)
  }

  datatype Parsed = Parsed(argument: Text, rest: Text)

  function Prefixed(head: Text, p: Parsed): Parsed { p.(argument := head + p.argument) }

  /** One argument. n backslashes before a quote are halved; an odd one makes the quote literal, an
      even one makes it open or close a quoted part; other backslashes are literal. `doubled` adds the
      rule of later runtimes that "" inside a quoted part is one literal quote. */
  function ParseArgument(s: Text, inQuotes: bool, doubled: bool): (p: Parsed)
    ensures |p.rest| <= |s|
    ensures s != [] && (inQuotes || !IsBlank(s[0])) ==> |p.rest| < |s|
    decreases |s|
  {
    if s == [] || (!inQuotes && IsBlank(s[0])) then Parsed([], s)
    else
      var n := Run(s);
      var t := s[n..];
      if t != [] && t[0] == QUOTE then
        if n % 2 == 1 then Prefixed(Backslashes(n / 2) + [QUOTE], ParseArgument(t[1..], inQuotes, doubled))
        else if doubled && inQuotes && |t| > 1 && t[1] == QUOTE
        then Prefixed(Backslashes(n / 2) + [QUOTE], ParseArgument(t[2..], inQuotes, doubled))
        else Prefixed(Backslashes(n / 2), ParseArgument(t[1..], !inQuotes, doubled))
      else if n > 0 then Prefixed(Backslashes(n), ParseArgument(t, inQuotes, doubled))
      else Prefixed([s[0]], ParseArgument(s[1..], inQuotes, doubled))
  }

  function SkipBlanks(s: Text): (t: Text)
    ensures |t| <= |s| && (t != [] ==> !IsBlank(t[0]))
  {
    if s != [] && IsBlank(s[0]) then SkipBlanks(s[1..]) else s
  }

  function ParseArguments(s: Text, doubled: bool): seq<Text>
    decreases |s|
  {
    var t := SkipBlanks(s);
    if t == [] then []
    else
      var p := ParseArgument(t, false, doubled);
      [p.argument] + ParseArguments(p.rest, doubled)
  }

  /** The program name follows its own rule: quoted up to the next quote, else up to a blank. */
  function ParseProgram(s: Text): (p: Parsed)
    ensures |p.rest| <= |s|
  {
    if s != [] && s[0] == QUOTE then UpTo(s[1..], QUOTE) else UpToBlank(s)
  }

  function UpTo(s: Text, c: Unit): (p: Parsed)
    ensures |p.rest| <= |s|
  {
    if s == [] then Parsed([], [])
    else if s[0] == c then Parsed([], s[1..])
    else Prefixed([s[0]], UpTo(s[1..], c))
  }

  function UpToBlank(s: Text): (p: Parsed)
    ensures |p.rest| <= |s|
  {
    if s == [] || IsBlank(s[0]) then Parsed([], s) else Prefixed([s[0]], UpToBlank(s[1..]))
  }

  function ParseCommandLine(s: Text, doubled: bool): seq<Text> {
    var p := ParseProgram(s);
    [p.argument] + ParseArguments(p.rest, doubled)
  }

  /** Of the units that are neither backslash nor quote, 32 and 9 end an unquoted argument. */
  lemma BlanksSeparate(a: Unit, c: Unit, b: Unit, doubled: bool)
    requires a !in {9, 32, 34, 92} && b !in {9, 32, 34, 92} && c !in {34, 92}
    ensures ParseArguments([a, c, b], doubled) == if c == 32 || c == 9 then [[a], [b]] else [[a, c, b]]
  {
    PlainUnit(a, [c, b], doubled);
    PlainUnit(b, [], doubled);
    NoUnit([], doubled);
    assert [a, c, b] == [a] + [c, b] && [b] == [b] + [] && [a] + [] == [a];
    hide ParseArgument;
    OneArgument([], doubled);
    OneArgument([b], doubled);
    OneArgument([a, c, b], doubled);
    OneArgument([c, b], doubled);
    assert [c, b][1..] == [b];
    if IsBlank(c) {
      NoUnit([c, b], doubled);
      assert SkipBlanks([c, b]) == [b];
    } else {
      PlainUnit(c, [b], doubled);
      assert [c, b] == [c] + [b] && [a] + ([c] + [b]) == [a, c, b];
    }
  }

  lemma OneArgument(s: Text, doubled: bool)
    ensures var t := SkipBlanks(s);
            ParseArguments(s, doubled)
            == if t == [] then []
               else [ParseArgument(t, false, doubled).argument]
                    + ParseArguments(ParseArgument(t, false, doubled).rest, doubled)
  {
    hide ParseArgument;
  }

  lemma PlainUnit(c: Unit, rest: Text, doubled: bool)
    requires c != QUOTE && c != BACKSLASH && !IsBlank(c)
    ensures ParseArgument([c] + rest, false, doubled) == Prefixed([c], ParseArgument(rest, false, doubled))
    ensures SkipBlanks([c] + rest) == [c] + rest
  {
    var s := [c] + rest;
    assert s[1..] == rest && s[0] == c && Run(s) == 0 && s[0..] == s;
  }

  lemma NoUnit(rest: Text, doubled: bool)
    requires rest == [] || IsBlank(rest[0])
    ensures ParseArgument(rest, false, doubled) == Parsed([], rest)
  {}

  // ---- The printer ----

  /** How many backslashes are written for a run of n before `c`: twice as many and the one that
      escapes the quote, or the same. */
  function Doubled(n: nat, c: Unit): nat { if c == QUOTE then 2 * n + 1 else n }

  /** What the launcher writes for an argument after its opening quote. */
  function QuotedBody(argument: Text): (s: Text)
    ensures s != []
    decreases |argument|
  {
    var n := Run(argument);
    var t := argument[n..];
    if t == [] then Backslashes(2 * n) + [QUOTE]
    else Backslashes(Doubled(n, t[0])) + [t[0]] + QuotedBody(t[1..])
  }

  function Quoted(argument: Text): Text { [QUOTE] + QuotedBody(argument) }

  /** All arguments, in order, separated by single spaces. */
  function ArgumentString(arguments: seq<Text>): Text {
    if arguments == [] then []
    else Appended(ArgumentString(arguments[..|arguments| - 1]), arguments[|arguments| - 1])
  }

  function Appended(text: Text, argument: Text): Text {
    text + (if text == [] then [] else [SPACE]) + Quoted(argument)
  }

  /** The command line given to CreateProcessW. */
  function CommandText(executable: Text, arguments: Text): Text {
    [QUOTE] + executable + [QUOTE] + if arguments == [] then [] else [SPACE] + arguments
  }

  /** What is printed, unit by unit: 34 is the quote, 92 the backslash, 32 the space. A run of n
      backslashes is doubled before the closing quote, doubled and followed by one more before a quote of
      the argument, and left as it is before anything else. */
  lemma PrintedBody(n: nat, c: Unit, rest: Text)
    requires c != 92
    ensures QuotedBody(seq(n, _ => 92)) == seq(2 * n, _ => 92) + [34]
    ensures QuotedBody(seq(n, _ => 92) + [c] + rest)
            == seq(if c == 34 then 2 * n + 1 else n, _ => 92) + [c] + QuotedBody(rest)
  {
    var run, s := Backslashes(n), Backslashes(n) + [c] + rest;
    assert run == seq(n, _ => 92) && run[..n] == run;
    assert s == seq(n, _ => 92) + [c] + rest && s[..n] == run && s[n + 1..] == rest;
    BodyTurn(run, n);
    BodyTurn(s, n);
  }

  /** Each argument is quoted, with one space before it if it is not the first. */
  lemma PrintedArguments(arguments: seq<Text>, last: Text)
    ensures ArgumentString([]) == []
    ensures ArgumentString(arguments + [last])
            == ArgumentString(arguments) + (if arguments == [] then [] else [32]) + [34] + QuotedBody(last)
  {
    var all := arguments + [last];
    assert all[..|all| - 1] == arguments;
    StringEmpty(arguments);
    hide QuotedBody;
  }

  // ---- Printing, then parsing ----

  lemma {:induction false} RunOf(n: nat, c: Unit, rest: Text)
    requires c != BACKSLASH
    ensures Run(Backslashes(n) + [c] + rest) == n
  {
    var s := Backslashes(n) + [c] + rest;
    if n > 0 {
      assert s[1..] == Backslashes(n - 1) + [c] + rest;
      RunOf(n - 1, c, rest);
    }
  }

  ghost predicate EndsArgument(rest: Text) { rest == [] || IsBlank(rest[0]) }

  /** Inside its quotes, the printed body of an argument parses to that argument. */
  lemma {:induction false} BodyParses(argument: Text, rest: Text, doubled: bool)
    requires EndsArgument(rest)
    ensures ParseArgument(QuotedBody(argument) + rest, true, doubled) == Parsed(argument, rest)
    decreases |argument|
  {
    var n := Run(argument);
    var t := argument[n..];
    assert argument == Backslashes(n) + t;
    if t == [] {
      ClosingParses(n, rest, doubled);
    } else {
      BodyParses(t[1..], rest, doubled);
      assert QuotedBody(argument) == Backslashes(Doubled(n, t[0])) + [t[0]] + QuotedBody(t[1..]);
      StepParses(argument, n, QuotedBody(t[1..]), rest, doubled);
    }
  }

  /** One run of backslashes and the unit after it. */
  lemma StepParses(argument: Text, n: nat, body: Text, rest: Text, doubled: bool)
    requires n < |argument| && argument[..n] == Backslashes(n) && argument[n] != BACKSLASH
    requires ParseArgument(body + rest, true, doubled) == Parsed(argument[n + 1..], rest)
    ensures ParseArgument(Backslashes(Doubled(n, argument[n])) + [argument[n]] + body + rest, true, doubled)
            == Parsed(argument, rest)
  {
    hide ParseArgument, Backslashes;
    var c, tail := argument[n], body + rest;
    assert Backslashes(Doubled(n, c)) + [c] + body + rest == Backslashes(Doubled(n, c)) + [c] + tail;
    assert argument == Backslashes(n) + [c] + argument[n + 1..];
    if c == QUOTE {
      EscapedQuoteParses(n, tail, doubled);
    } else {
      PlainParses(n, c, tail, doubled);
    }
  }

  /** Where the run of backslashes ends, and what follows. */
  lemma Pieces(s: Text, n: nat, c: Unit, tail: Text)
    requires s == Backslashes(n) + [c] + tail && c != BACKSLASH
    ensures Run(s) == n < |s| && s[n] == c && s[n..] == [c] + tail && s[n + 1..] == tail
  {
    RunOf(n, c, tail);
  }

  lemma QuoteStep(s: Text, n: nat, tail: Text, inQuotes: bool, doubled: bool)
    requires n == Run(s) < |s| && s[n] == QUOTE && s[n + 1..] == tail
    requires n % 2 == 0 ==> tail == [] || tail[0] != QUOTE || !doubled || !inQuotes
    ensures ParseArgument(s, inQuotes, doubled)
            == if n % 2 == 1 then Prefixed(Backslashes(n / 2) + [QUOTE], ParseArgument(tail, inQuotes, doubled))
               else Prefixed(Backslashes(n / 2), ParseArgument(tail, !inQuotes, doubled))
  {
    hide Run, Backslashes;
    assert s[n..][1..] == tail;
    RunStarts(s);
  }

  /** Text that starts with backslashes or a quote does not start with a blank. */
  lemma RunStarts(s: Text)
    ensures var n := Run(s); n > 0 || (s != [] && s[0] == QUOTE) ==> !IsBlank(s[0])
  {}

  lemma RunStep(s: Text, n: nat, doubled: bool)
    requires n == Run(s) < |s| && s[n] != QUOTE
    ensures ParseArgument(s, true, doubled)
            == if n > 0 then Prefixed(Backslashes(n), ParseArgument(s[n..], true, doubled))
               else Prefixed([s[0]], ParseArgument(s[1..], true, doubled))
  {
    hide Run, Backslashes;
  }

  lemma NothingParses(rest: Text, doubled: bool)
    requires EndsArgument(rest)
    ensures ParseArgument(rest, false, doubled) == Parsed([], rest)
  {}

  lemma ClosingParses(n: nat, rest: Text, doubled: bool)
    requires EndsArgument(rest)
    ensures ParseArgument(Backslashes(2 * n) + [QUOTE] + rest, true, doubled) == Parsed(Backslashes(n), rest)
  {
    hide Run, Backslashes, ParseArgument;
    var s := Backslashes(2 * n) + [QUOTE] + rest;
    Pieces(s, 2 * n, QUOTE, rest);
    QuoteStep(s, 2 * n, rest, true, doubled);
    NothingParses(rest, doubled);
    assert Backslashes(n) + [] == Backslashes(n);
  }

  lemma EscapedQuoteParses(n: nat, tail: Text, doubled: bool)
    ensures ParseArgument(Backslashes(2 * n + 1) + [QUOTE] + tail, true, doubled)
            == Prefixed(Backslashes(n) + [QUOTE], ParseArgument(tail, true, doubled))
  {
    hide Run, Backslashes, ParseArgument;
    var s := Backslashes(2 * n + 1) + [QUOTE] + tail;
    Pieces(s, 2 * n + 1, QUOTE, tail);
    QuoteStep(s, 2 * n + 1, tail, true, doubled);
  }

  lemma PlainParses(n: nat, c: Unit, tail: Text, doubled: bool)
    requires c != BACKSLASH && c != QUOTE
    ensures ParseArgument(Backslashes(n) + [c] + tail, true, doubled)
            == Prefixed(Backslashes(n) + [c], ParseArgument(tail, true, doubled))
  {
    hide Run, ParseArgument;
    var s := Backslashes(n) + [c] + tail;
    Pieces(s, n, c, tail);
    RunStep(s, n, doubled);
    if n > 0 {
      assert s[n..] == Backslashes(0) + [c] + tail;
      Pieces(s[n..], 0, c, tail);
      RunStep(s[n..], 0, doubled);
    } else {
      assert Backslashes(n) + [c] == [c];
    }
  }

  /** One printed argument, followed by a blank or the end, parses to itself. */
  lemma QuotedParses(argument: Text, rest: Text, doubled: bool)
    requires EndsArgument(rest)
    ensures ParseArguments(Quoted(argument) + rest, doubled) == [argument] + ParseArguments(rest, doubled)
  {
    var s := Quoted(argument) + rest;
    OpeningParses(argument, rest, doubled);
    hide Quoted, ParseArgument;
    assert SkipBlanks(s) == s;
  }

  lemma OpeningParses(argument: Text, rest: Text, doubled: bool)
    requires EndsArgument(rest)
    ensures var s := Quoted(argument) + rest;
            s != [] && s[0] == QUOTE && ParseArgument(s, false, doubled) == Parsed(argument, rest)
  {
    hide Run, ParseArgument, QuotedBody;
    var s, body := Quoted(argument) + rest, QuotedBody(argument) + rest;
    assert s == [QUOTE] + body;
    assert s == Backslashes(0) + [QUOTE] + body;
    Pieces(s, 0, QUOTE, body);
    QuoteStep(s, 0, body, false, doubled);
    BodyParses(argument, rest, doubled);
    assert Backslashes(0) + argument == argument;
  }

  lemma LeadingBlank(s: Text, doubled: bool)
    ensures ParseArguments([SPACE] + s, doubled) == ParseArguments(s, doubled)
  {
    hide ParseArgument;
    assert ([SPACE] + s)[1..] == s;
    assert SkipBlanks([SPACE] + s) == SkipBlanks(s);
  }

  lemma AppendedText(text: Text, last: Text, rest: Text)
    ensures Appended(text, last) + rest
            == if text == [] then Quoted(last) + rest else text + ([SPACE] + (Quoted(last) + rest))
  {
    hide Quoted;
  }

  /** Appending one more argument adds exactly that argument to what is parsed. */
  lemma {:induction false} ArgumentsParseBefore(arguments: seq<Text>, rest: Text, doubled: bool)
    requires EndsArgument(rest)
    ensures ParseArguments(ArgumentString(arguments) + rest, doubled) == arguments + ParseArguments(rest, doubled)
    decreases |arguments|
  {
    hide Quoted, Appended, ParseArguments, ArgumentString;
    StringStep(arguments);
    if arguments == [] {
      assert ArgumentString(arguments) + rest == rest;
    } else {
      var before, last := arguments[..|arguments| - 1], arguments[|arguments| - 1];
      StringEmpty(before);
      AppendedText(ArgumentString(before), last, rest);
      QuotedParses(last, rest, doubled);
      if before != [] {
        ArgumentsParseBefore(before, [SPACE] + (Quoted(last) + rest), doubled);
        LeadingBlank(Quoted(last) + rest, doubled);
      }
      LastFirst(before, last, ParseArguments(rest, doubled));
    }
  }

  lemma StringStep(arguments: seq<Text>)
    ensures if arguments == [] then ArgumentString(arguments) == []
            else ArgumentString(arguments)
                 == Appended(ArgumentString(arguments[..|arguments| - 1]), arguments[|arguments| - 1])
  {
    hide Appended;
  }

  lemma LastFirst(before: seq<Text>, last: Text, after: seq<Text>)
    ensures before + ([last] + after) == before + [last] + after
  {}

  lemma StringEmpty(arguments: seq<Text>)
    ensures ArgumentString(arguments) == [] <==> arguments == []
  {}

  /** Printing any arguments and parsing the result gives the arguments back. */
  lemma ArgumentsRoundTrip(arguments: seq<Text>, doubled: bool)
    ensures ParseArguments(ArgumentString(arguments), doubled) == arguments
  {
    ArgumentsParseBefore(arguments, [], doubled);
    assert ArgumentString(arguments) + [] == ArgumentString(arguments);
    assert arguments + [] == arguments;
  }

  lemma {:induction false} UpToQuote(s: Text, rest: Text)
    requires QUOTE !in s
    ensures UpTo(s + [QUOTE] + rest, QUOTE) == Parsed(s, rest)
  {
    var all := s + [QUOTE] + rest;
    if s != [] {
      assert all[1..] == s[1..] + [QUOTE] + rest;
      UpToQuote(s[1..], rest);
    }
  }

  /** Behind the quoted executable, the payload's argument vector is the executable followed by
      exactly the launcher's arguments. A path holds no quote. */
  lemma CommandRoundTrip(executable: Text, arguments: seq<Text>, doubled: bool)
    requires QUOTE !in executable
    ensures ParseCommandLine(CommandText(executable, ArgumentString(arguments)), doubled)
            == [executable] + arguments
  {
    var text := ArgumentString(arguments);
    var rest := if text == [] then [] else [SPACE] + text;
    var s := CommandText(executable, text);
    assert s[1..] == executable + [QUOTE] + rest;
    UpToQuote(executable, rest);
    ArgumentsRoundTrip(arguments, doubled);
    StringEmpty(arguments);
    if text != [] { LeadingBlank(text, doubled); }
  }

  // ---- The buffers ----

  /** A C string in a buffer: the units before the first NUL. */
  function CStringIn(buffer: Text): Text {
    if buffer == [] || buffer[0] == NUL then [] else [buffer[0]] + CStringIn(buffer[1..])
  }

  lemma {:induction false} CStringAt(buffer: Text, text: Text)
    requires |text| < |buffer| && buffer[..|text|] == text && buffer[|text|] == NUL && NUL !in text
    ensures CStringIn(buffer) == text
  {
    if text != [] {
      assert buffer[0] == text[0];
      assert buffer[1..][..|text| - 1] == buffer[..|text|][1..] == text[1..];
      CStringAt(buffer[1..], text[1..]);
    }
  }

  lemma {:induction false} BodyIsCString(argument: Text)
    requires NUL !in argument
    ensures NUL !in QuotedBody(argument)
    decreases |argument|
  {
    var n := Run(argument);
    if n < |argument| { BodyIsCString(argument[n..][1..]); }
  }

  lemma {:induction false} ArgumentsAreCString(arguments: seq<Text>)
    requires forall a :: a in arguments ==> CString(a)
    ensures NUL !in ArgumentString(arguments)
  {
    if arguments != [] {
      ArgumentsAreCString(arguments[..|arguments| - 1]);
      assert CString(arguments[|arguments| - 1]);
      BodyIsCString(arguments[|arguments| - 1]);
    }
  }

  /** One turn of the quoting loop: a run of `n` backslashes and the unit after it, if any. */
  lemma BodyTurn(rest: Text, n: nat)
    requires n <= |rest| && rest[..n] == Backslashes(n) && (n < |rest| ==> rest[n] != BACKSLASH)
    ensures QuotedBody(rest)
            == if n == |rest| then Backslashes(2 * n) + [QUOTE]
               else Backslashes(Doubled(n, rest[n])) + [rest[n]] + QuotedBody(rest[n + 1..])
  {
    RunIs(rest, n);
    if n < |rest| { assert rest[n..][1..] == rest[n + 1..]; }
  }

  /** The same turn behind the text already written. */
  lemma TurnText(before: Text, rest: Text, n: nat, required: nat, c: Unit)
    requires n <= |rest| && rest[..n] == Backslashes(n) && (n < |rest| ==> rest[n] != BACKSLASH)
    requires c == if n == |rest| then QUOTE else rest[n]
    requires required == if n == |rest| then 2 * n else Doubled(n, c)
    ensures before + QuotedBody(rest)
            == before + Backslashes(required) + [c] + if n == |rest| then [] else QuotedBody(rest[n + 1..])
    ensures |before + QuotedBody(rest)| > |before| + required
  {
    hide QuotedBody, Backslashes;
    BodyTurn(rest, n);
  }

  lemma {:induction false} RunIs(s: Text, n: nat)
    requires n <= |s| && s[..n] == Backslashes(n) && (n < |s| ==> s[n] != BACKSLASH)
    ensures Run(s) == n
  {
    if n > 0 {
      assert s[0] == s[..n][0] == BACKSLASH;
      assert s[1..][..n - 1] == s[..n][1..] == Backslashes(n - 1);
      RunIs(s[1..], n - 1);
    }
  }

  /** Writes one unit. */
  method Put(out: array<Unit>, offset: nat, c: Unit)
    requires offset < out.Length
    modifies out
    ensures out[..offset + 1] == old(out[..offset]) + [c]
    ensures forall k :: 0 <= k < offset ==> out[k] == old(out[k])
  {
    out[offset] := c;
  }

  method WriteBackslashes(out: array<Unit>, offset0: nat, count: nat) returns (offset: nat)
    requires offset0 + count < out.Length
    modifies out
    ensures offset == offset0 + count
    ensures out[..offset] == old(out[..offset0]) + Backslashes(count)
  {
    offset := offset0;
    for i := 0 to count
      invariant offset == offset0 + i
      invariant out[..offset0] == old(out[..offset0])
      invariant forall k :: offset0 <= k < offset ==> out[k] == BACKSLASH
    {
      out[offset] := BACKSLASH;
      offset := offset + 1;
    }
  }

  /** `stage14_append_command_argument`: it succeeds exactly when the separator, the quoted text and
      the terminator fit, never touches earlier text, and terminates what it wrote. */
  method AppendCommandArgument(out: array<Unit>, offset0: nat, argument: Text) returns (ok: bool, offset: nat)
    requires CString(argument)
    modifies out
    ensures ok <==> |Appended(old(out[..Min(offset0, out.Length)]), argument)| < out.Length && offset0 < out.Length
    ensures out[..Min(offset0, out.Length)] == old(out[..Min(offset0, out.Length)])
    ensures ok ==> offset < out.Length && out[offset] == NUL
    ensures ok ==> out[..offset] == Appended(old(out[..offset0]), argument)
  {
    hide QuotedBody, Run;
    offset := offset0;
    if offset >= out.Length {
      return false, offset;
    }
    ghost var text := out[..offset0];
    if offset != 0 {
      if offset + 1 >= out.Length {
        return false, offset;
      }
      Put(out, offset, SPACE);
      offset := offset + 1;
    }
    if offset + 1 >= out.Length {
      return false, offset;
    }
    Put(out, offset, QUOTE);
    offset := offset + 1;
    ghost var goal := Appended(text, argument);
    var cursor := 0;
    assert argument[cursor..] == argument;
    AppendedParts(text, argument);
    assert out[..offset] + QuotedBody(argument) == goal;
    var done := false;
    ok := true;
    while !done
      invariant cursor <= |argument| && offset0 < offset < out.Length && out[..offset0] == text
      invariant ok ==> out[..offset] + (if done then [] else QuotedBody(argument[cursor..])) == goal
      invariant done && ok ==> out[offset] == NUL
      invariant !ok ==> done && |goal| >= out.Length
      decreases !done, |argument| - cursor
    {
      ghost var written := out[..offset];
      ok, done, offset, cursor := AppendTurn(out, offset, argument, cursor, goal);
      assert out[..offset0] == written[..offset0];
    }
  }

  lemma AppendedParts(text: Text, argument: Text)
    ensures Appended(text, argument)
            == (if text == [] then text else text + [SPACE]) + [QUOTE] + QuotedBody(argument)
  {
    hide QuotedBody;
  }

  method CountBackslashes(argument: Text, cursor0: nat) returns (backslashes: nat)
    requires cursor0 <= |argument|
    ensures backslashes == Run(argument[cursor0..])
    ensures argument[cursor0..][..backslashes] == Backslashes(backslashes)
  {
    ghost var rest := argument[cursor0..];
    var cursor := cursor0;
    backslashes := 0;
    while cursor < |argument| && argument[cursor] == BACKSLASH
      invariant cursor == cursor0 + backslashes <= |argument|
      invariant rest[..backslashes] == Backslashes(backslashes)
    {
      assert rest[backslashes] == argument[cursor];
      backslashes := backslashes + 1;
      cursor := cursor + 1;
    }
    assert backslashes < |rest| ==> rest[backslashes] == argument[cursor];
    RunIs(rest, backslashes);
  }

  /** One turn of the quoting loop. */
  method AppendTurn(out: array<Unit>, offset0: nat, argument: Text, cursor0: nat, ghost goal: Text)
      returns (ok: bool, done: bool, offset: nat, cursor: nat)
    requires cursor0 <= |argument| && offset0 < out.Length
    requires out[..offset0] + QuotedBody(argument[cursor0..]) == goal
    modifies out
    ensures offset0 <= offset < out.Length && cursor <= |argument|
    ensures out[..offset0] == old(out[..offset0])
    ensures !done ==> cursor0 < cursor
    ensures ok ==> out[..offset] + (if done then [] else QuotedBody(argument[cursor..])) == goal
    ensures done && ok ==> out[offset] == NUL
    ensures !ok ==> done && |goal| >= out.Length
  {
    hide QuotedBody, Run, Backslashes;
    offset, cursor, done := offset0, cursor0, true;
    ghost var rest := argument[cursor..];
    var backslashes := CountBackslashes(argument, cursor);
    cursor := cursor + backslashes;
    var atEnd := cursor == |argument|;
    var atQuote := !atEnd && argument[cursor] == QUOTE;
    var required := if atEnd || atQuote then backslashes * 2 + (if atQuote then 1 else 0) else backslashes;
    var c := if atEnd then QUOTE else argument[cursor];
    ghost var before := out[..offset];
    TurnText(before, rest, backslashes, required, c);
    if required > out.Length - offset - 1 {
      return false, true, offset, cursor;
    }
    offset := WriteBackslashes(out, offset, required);
    if offset + 1 >= out.Length {
      return false, true, offset, cursor;
    }
    Put(out, offset, c);
    offset := offset + 1;
    ghost var written := out[..offset];
    assert written == before + Backslashes(required) + [c];
    assert out[..offset0] == written[..offset0] == before;
    if atEnd {
      Put(out, offset, NUL);
      assert out[..offset] == written;
      assert out[..offset0] == written[..offset0];
      return true, true, offset, cursor;
    }
    assert rest[backslashes + 1..] == argument[cursor + 1..];
    return true, false, offset, cursor + 1;
  }

  lemma {:induction false} StringGrows(arguments: seq<Text>, i: nat)
    requires i <= |arguments|
    ensures |ArgumentString(arguments[..i])| <= |ArgumentString(arguments)|
    decreases |arguments|
  {
    hide Quoted;
    if i < |arguments| {
      StringGrows(arguments[..|arguments| - 1], i);
      assert arguments[..|arguments| - 1][..i] == arguments[..i];
    } else {
      assert arguments[..i] == arguments;
    }
  }

  /** `stage14_build_mcp_arguments`: all arguments but the program name, or failure exactly when
      their text and its terminator do not fit. */
  method BuildMcpArguments(argv: seq<Text>, out: array<Unit>) returns (ok: bool)
    requires argv != [] && forall a :: a in argv ==> CString(a)
    modifies out
    ensures ok <==> |ArgumentString(argv[1..])| < out.Length
    ensures ok ==> CStringIn(out[..]) == ArgumentString(argv[1..])
  {
    hide Appended, ArgumentString, CStringIn;
    ghost var arguments := argv[1..];
    StringStep(arguments[..0]);
    StringGrows(arguments, 0);
    if out.Length == 0 {
      return false;
    }
    var offset: nat := 0;
    out[0] := NUL;
    for i := 1 to |argv|
      invariant offset < out.Length && out[offset] == NUL
      invariant out[..offset] == ArgumentString(arguments[..i - 1])
    {
      assert arguments[..i][..i - 1] == arguments[..i - 1];
      StringStep(arguments[..i]);
      StringGrows(arguments, i);
      ok, offset := AppendCommandArgument(out, offset, argv[i]);
      if !ok {
        return false;
      }
    }
    assert arguments[..|argv| - 1] == arguments;
    ArgumentsAreCString(arguments);
    CStringAt(out[..], ArgumentString(arguments));
    return true;
  }

  /** The command assembly of `stage14_launch_payload`. */
  method AssembleCommand(executable: Text, payloadArgument: Text, command: array<Unit>) returns (ok: bool)
    requires CString(executable) && CString(payloadArgument) && command.Length == PATH_CAP
    modifies command
    ensures ok <==> |executable| + |payloadArgument| + 5 < PATH_CAP
    ensures ok ==> CStringIn(command[..]) == CommandText(executable, payloadArgument)
  {
    hide CStringIn, CommandText;
    var exeLen, argLen := |executable|, |payloadArgument|;
    if exeLen + argLen + 5 >= PATH_CAP {
      return false;
    }
    PutExecutable(command, executable);
    var offset := exeLen + 2;
    if argLen > 0 {
      PutArguments(command, offset, payloadArgument);
      offset := offset + 1 + argLen;
    }
    CommandTextParts(executable, payloadArgument);
    ghost var text := command[..offset];
    assert text == CommandText(executable, payloadArgument);
    Put(command, offset, NUL);
    assert command[..offset] == text;
    CStringAt(command[..], text);
    return true;
  }

  /** The executable in quotes. */
  method PutExecutable(command: array<Unit>, executable: Text)
    requires |executable| + 2 < command.Length
    modifies command
    ensures command[..|executable| + 2] == [] + [QUOTE] + executable + [QUOTE]
  {
    Put(command, 0, QUOTE);
    CopyText(command, 1, executable);
    Put(command, |executable| + 1, QUOTE);
  }

  /** A space and the argument text. */
  method PutArguments(command: array<Unit>, offset: nat, arguments: Text)
    requires offset + 1 + |arguments| < command.Length
    modifies command
    ensures command[..offset + 1 + |arguments|] == old(command[..offset]) + [SPACE] + arguments
  {
    Put(command, offset, SPACE);
    CopyText(command, offset + 1, arguments);
  }

  lemma CommandTextParts(executable: Text, arguments: Text)
    ensures CommandText(executable, arguments)
            == if arguments == [] then [] + [QUOTE] + executable + [QUOTE]
               else [] + [QUOTE] + executable + [QUOTE] + [SPACE] + arguments
    ensures CString(executable) && CString(arguments) ==> CString(CommandText(executable, arguments))
  {}

  method CopyText(out: array<Unit>, at: nat, text: Text)
    requires at + |text| < out.Length
    modifies out
    ensures out[..at + |text|] == old(out[..at]) + text
  {
    for i := 0 to |text|
      invariant out[..at] == old(out[..at])
      invariant forall k :: 0 <= k < i ==> out[at + k] == text[k]
    {
      out[at + i] := text[i];
    }
  }

  /** The whole way from the launcher's arguments to the payload's: when both buffers suffice, the
      payload parses the launcher's own argument tail, whatever the arguments are. */
  method LaunchMcp(executable: Text, argv: seq<Text>, ghost doubled: bool) returns (ok: bool, command: array<Unit>)
    requires CString(executable) && QUOTE !in executable
    requires argv != [] && forall a :: a in argv ==> CString(a)
    ensures fresh(command)
    ensures ok <==> |executable| + |ArgumentString(argv[1..])| + 5 < 32768
    ensures ok ==> CStringIn(command[..]) == CommandText(executable, ArgumentString(argv[1..]))
    ensures ok ==> ParseCommandLine(CStringIn(command[..]), doubled) == [executable] + argv[1..]
  {
    hide CStringIn, ArgumentString, CommandText, ParseCommandLine;
    command := new Unit[PATH_CAP](_ => NUL);
    var buffer := new Unit[PATH_CAP](_ => NUL);
    ok := BuildMcpArguments(argv, buffer);
    if ok {
      ArgumentsAreCString(argv[1..]);
      ok := AssembleCommand(executable, CStringIn(buffer[..]), command);
      CommandRoundTrip(executable, argv[1..], doubled);
    }
  }

  function Min(a: nat, b: nat): nat { if a < b then a else b }
}
