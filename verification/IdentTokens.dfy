/** The identifier collector of extract_defs.c: a linear-probing table decides what has been seen, and
    the new identifiers are appended to a fixed buffer, separated by spaces. */
module IdentTokens {
  import opened Basics

  type Byte = b: nat | b < 256
  type Token = seq<Byte>

  const SEEN: nat := 128
  const BUF: nat := 512
  const MAX_IDENTS: nat := 40
  const MAX_TOKEN: nat := 64
  const SPACE: Byte := 32
  const WORD: nat := 0x1_0000_0000

  /** `hash_source_span`, in 32-bit arithmetic. */
  function Hash(t: Token): (h: nat)
    ensures h < WORD
  {
    if t == [] then 0 else (Hash(t[..|t| - 1]) * 31 + t[|t| - 1]) % WORD
  }

  method HashSpan(t: Token) returns (h: nat)
    ensures h == Hash(t)
  {
    h := 0;
    for x := 0 to |t|
      invariant h == Hash(t[..x])
    {
      assert t[..x + 1][..x] == t[..x];
      h := (h * 31 + t[x]) % WORD;
    }
    assert t[..|t|] == t;
  }

  function Power31(k: nat): nat { if k == 0 then 1 else 31 * Power31(k - 1) }

  /** The bytes as the coefficients of a polynomial at 31, the first byte with the highest power. */
  function Polynomial(t: Token): nat {
    if t == [] then 0 else t[0] * Power31(|t| - 1) + Polynomial(t[1..])
  }

  lemma {:induction false} PolynomialLast(t: Token, b: Byte)
    ensures Polynomial(t + [b]) == Polynomial(t) * 31 + b
  {
    if t == [] {
      assert ([] + [b])[1..] == [] && Power31(0) == 1;
    } else {
      assert (t + [b])[1..] == t[1..] + [b] && (t + [b])[0] == t[0];
      PolynomialLast(t[1..], b);
      assert t[0] * Power31(|t|) == t[0] * Power31(|t| - 1) * 31;
    }
  }

  lemma HashLast(t: Token)
    requires t != []
    ensures Hash(t) == (Hash(t[..|t| - 1]) * 31 + t[|t| - 1]) % 0x1_0000_0000
  {}

  lemma MultipleAway(x: nat, k: nat)
    ensures (x + WORD * k) % WORD == x % WORD
  {}

  lemma HornerStep(p: nat, b: Byte)
    ensures ((p % WORD) * 31 + b) % WORD == (p * 31 + b) % WORD
  {
    MultipleAway((p % WORD) * 31 + b, p / WORD * 31);
    assert p == WORD * (p / WORD) + p % WORD;
  }

  /** The hash is the value of that polynomial in 32 bits. */
  lemma {:induction false} HashIsPolynomial(t: Token)
    ensures Hash(t) == Polynomial(t) % 0x1_0000_0000
  {
    if t != [] {
      var front, b := t[..|t| - 1], t[|t| - 1];
      assert t == front + [b];
      HashIsPolynomial(front);
      PolynomialLast(front, b);
      HashLast(t);
      HornerStep(Polynomial(front), b);
      hide Hash, Polynomial;
    }
  }

  /** 31 is odd, so multiplying by it loses nothing in 32 bits. */
  lemma TimesLosesNothing(x: nat, y: nat, b: Byte)
    requires x < WORD && y < WORD && (x * 31 + b) % WORD == (y * 31 + b) % WORD
    ensures x == y
  {
    var k := (x * 31 + b) / WORD - (y * 31 + b) / WORD;
    assert 31 * (x - y) == WORD * k;
    assert x - y == WORD * (3186588639 * k - 23 * (x - y));
  }

  lemma LastByteShows(x: nat, a: Byte, b: Byte)
    requires (x * 31 + a) % WORD == (x * 31 + b) % WORD
    ensures a == b
  {
    var k := (x * 31 + a) / WORD - (x * 31 + b) / WORD;
    assert a - b == WORD * k;
  }

  /** Tokens of one length that differ in exactly one byte have different hashes. */
  lemma {:induction false} OneByteApart(t: Token, u: Token, i: nat)
    requires i < |t| == |u| && t[i] != u[i] && forall j :: 0 <= j < |t| && j != i ==> t[j] == u[j]
    ensures Hash(t) != Hash(u)
  {
    hide Hash;
    var last := |t| - 1;
    HashLast(t);
    HashLast(u);
    if i == last {
      assert t[..last] == u[..last];
      if Hash(t) == Hash(u) { LastByteShows(Hash(t[..last]), t[last], u[last]); }
    } else {
      OneByteApart(t[..last], u[..last], i);
      if Hash(t) == Hash(u) { TimesLosesNothing(Hash(t[..last]), Hash(u[..last]), t[last]); }
    }
  }

  /** `h | 1`: never the value of an empty cell. */
  function Key(h: nat): (k: nat)
    ensures k != 0
  {
    if h % 2 == 0 then h + 1 else h
  }

  /** What a cell holds for a token. */
  function KeyOf(t: Token): (k: nat)
    ensures k != 0
  {
    Key(Hash(t))
  }

  /** The `p`-th cell probed for a hash. */
  function Probe(h: nat, p: nat): (i: nat)
    ensures i < SEEN
  {
    (h % SEEN + p) % SEEN
  }

  type Table = s: seq<nat> | |s| == SEEN witness seq(SEEN, _ => 0)

  function Empty(): Table { seq(SEEN, _ => 0) }

  /** Probing meets the token's key before an empty cell. */
  ghost predicate Recorded(seen: Table, t: Token) {
    exists p :: 0 <= p < SEEN && seen[Probe(Hash(t), p)] == KeyOf(t)
                && forall q :: 0 <= q < p ==> seen[Probe(Hash(t), q)] != 0
  }

  ghost predicate Full(seen: seq<nat>) {
    forall i :: 0 <= i < |seen| ==> seen[i] != 0
  }

  /** One empty cell has been given `key`. */
  ghost predicate OneCellSet(before: seq<nat>, after: seq<nat>, key: nat) {
    exists i :: 0 <= i < |before| && before[i] == 0 && after == before[i := key]
  }

  /** The table after probing for a token, from the `p`-th probe on. */
  function InsertFrom(seen: Table, t: Token, p: nat): Table
    requires p <= SEEN
    decreases SEEN - p
  {
    if p == SEEN then seen
    else
      var i := Probe(Hash(t), p);
      if seen[i] == 0 then seen[i := KeyOf(t)]
      else if seen[i] == KeyOf(t) then seen
      else InsertFrom(seen, t, p + 1)
  }

  function Insert(seen: Table, t: Token): Table { InsertFrom(seen, t, 0) }

  // ---- The table ----

  lemma NotRecorded(seen: Table, t: Token, p: nat)
    requires p < SEEN && seen[Probe(Hash(t), p)] == 0
    requires forall q :: 0 <= q < p ==> seen[Probe(Hash(t), q)] != KeyOf(t)
    ensures !Recorded(seen, t)
  {}

  lemma RecordedAt(seen: Table, t: Token, p: nat)
    requires p < SEEN && seen[Probe(Hash(t), p)] == KeyOf(t)
    requires forall q :: 0 <= q < p ==> seen[Probe(Hash(t), q)] != 0
    ensures Recorded(seen, t)
  {}

  /** Every cell is probed. */
  lemma EveryCellProbed(h: nat, i: nat)
    requires i < SEEN
    ensures exists p :: 0 <= p < SEEN && Probe(h, p) == i
  {
    var p := (i + SEEN - h % SEEN) % SEEN;
    assert Probe(h, p) == i;
  }

  /** The key of `t` has gone into the empty cell of its `p`-th probe, past cells with other keys. */
  ghost predicate InsertedAt(before: Table, after: Table, t: Token, p: nat) {
    && p < SEEN && before[Probe(Hash(t), p)] == 0 && after == before[Probe(Hash(t), p) := KeyOf(t)]
    && forall q :: 0 <= q < p ==> before[Probe(Hash(t), q)] != 0 && before[Probe(Hash(t), q)] != KeyOf(t)
  }

  ghost predicate Inserted(before: Table, after: Table, t: Token) {
    exists p :: InsertedAt(before, after, t, p)
  }

  lemma InsertedIsOne(before: Table, after: Table, t: Token)
    requires Inserted(before, after, t)
    ensures OneCellSet(before, after, KeyOf(t))
  {
    hide Probe, Hash, KeyOf;
    var p :| InsertedAt(before, after, t, p);
  }

  /** Probing changes nothing if the key is met or the table is full, and else puts the key into one
      empty cell, where it will be met. */
  lemma {:induction false} InsertFromRecords(seen: Table, t: Token, p: nat)
    requires p <= SEEN
    requires forall q :: 0 <= q < p ==> seen[Probe(Hash(t), q)] != 0 && seen[Probe(Hash(t), q)] != KeyOf(t)
    ensures var after := InsertFrom(seen, t, p);
            if Recorded(seen, t) || Full(seen) then after == seen
            else Inserted(seen, after, t) && Recorded(after, t)
    decreases SEEN - p
  {
    hide Probe, Hash, KeyOf;
    if p == SEEN {
      forall i | 0 <= i < SEEN ensures seen[i] != 0 { EveryCellProbed(Hash(t), i); }
    } else {
      var i := Probe(Hash(t), p);
      if seen[i] == 0 {
        NotRecorded(seen, t, p);
        var after := seen[i := KeyOf(t)];
        RecordedAt(after, t, p);
        assert InsertedAt(seen, after, t, p);
      } else if seen[i] == KeyOf(t) {
        RecordedAt(seen, t, p);
      } else {
        InsertFromRecords(seen, t, p + 1);
      }
    }
  }

  lemma InsertRecords(seen: Table, t: Token)
    ensures if Recorded(seen, t) || Full(seen) then Insert(seen, t) == seen
            else Inserted(seen, Insert(seen, t), t) && OneCellSet(seen, Insert(seen, t), KeyOf(t))
                 && Recorded(Insert(seen, t), t)
  {
    hide Inserted, OneCellSet, Recorded, KeyOf, Full;
    InsertFromRecords(seen, t, 0);
    if !Recorded(seen, t) && !Full(seen) { InsertedIsOne(seen, Insert(seen, t), t); }
  }

  /** A write to an empty cell leaves every recorded token recorded. */
  lemma RecordedStays(seen: Table, i: nat, key: nat, t: Token)
    requires i < SEEN && seen[i] == 0 && key != 0 && Recorded(seen, t)
    ensures Recorded(seen[i := key], t)
  {
    hide Probe, Hash, KeyOf;
    var p :| 0 <= p < SEEN && seen[Probe(Hash(t), p)] == KeyOf(t)
             && forall q :: 0 <= q < p ==> seen[Probe(Hash(t), q)] != 0;
    var after := seen[i := key];
    assert Probe(Hash(t), p) != i;
    assert after[Probe(Hash(t), p)] == KeyOf(t);
    forall q | 0 <= q < p ensures after[Probe(Hash(t), q)] != 0 { assert seen[Probe(Hash(t), q)] != 0; }
  }

  /** Nothing recorded is ever lost. */
  lemma InsertKeeps(seen: Table, t: Token, u: Token)
    requires Recorded(seen, u)
    ensures Recorded(Insert(seen, t), u)
  {
    hide Recorded, Insert, KeyOf;
    InsertRecords(seen, t);
    if !Recorded(seen, t) && !Full(seen) {
      var i :| 0 <= i < SEEN && seen[i] == 0 && Insert(seen, t) == seen[i := KeyOf(t)];
      RecordedStays(seen, i, KeyOf(t), u);
    }
  }

  ghost function Occupied(seen: seq<nat>): (n: nat)
    ensures n <= |seen|
    ensures n < |seen| <==> !Full(seen)
  {
    if seen == [] then 0
    else (if seen[|seen| - 1] != 0 then 1 else 0) + Occupied(seen[..|seen| - 1])
  }

  lemma {:induction false} OccupiedStep(before: seq<nat>, after: seq<nat>, key: nat)
    requires OneCellSet(before, after, key)
    ensures Occupied(after) <= Occupied(before) + 1
  {
    var i :| 0 <= i < |before| && before[i] == 0 && after == before[i := key];
    var last := |before| - 1;
    if i < last {
      assert after[..last] == before[..last][i := key];
      OccupiedStep(before[..last], after[..last], key);
    } else {
      assert after[..last] == before[..last];
    }
  }

  lemma {:induction false} NoneOccupied(seen: seq<nat>)
    requires forall i :: 0 <= i < |seen| ==> seen[i] == 0
    ensures Occupied(seen) == 0
  {
    if seen != [] { NoneOccupied(seen[..|seen| - 1]); }
  }

  // ---- The collector, and what it is for ----

  function Joined(tokens: seq<Token>): Token {
    if tokens == [] then []
    else if |tokens| == 1 then tokens[0]
    else Joined(tokens[..|tokens| - 1]) + [SPACE] + tokens[|tokens| - 1]
  }

  predicate Wanted(t: Token) { 0 < |t| < MAX_TOKEN }

  /** There is room for a separator, the token and the terminator. */
  predicate Fits(tokens: seq<Token>, t: Token) { |Joined(tokens)| + |t| + 1 < BUF }

  datatype Collector = Collector(tokens: seq<Token>, seen: Table)

  /** One identifier offered to the collector. */
  ghost function Offer(c: Collector, t: Token): Collector {
    if |c.tokens| >= MAX_IDENTS || !Wanted(t) then c
    else
      Collector(if !Recorded(c.seen, t) && Fits(c.tokens, t) then c.tokens + [t] else c.tokens, Insert(c.seen, t))
  }

  /** The collector after the first `n` identifiers. */
  ghost function Run(idents: seq<Token>, n: nat): Collector
    requires n <= |idents|
  {
    if n == 0 then Collector([], Empty()) else Offer(Run(idents, n - 1), idents[n - 1])
  }

  /** The intention: of the first `n` identifiers the different ones, each where it first occurs, as many
      as the limit allows and as still fit. */
  function Collected(idents: seq<Token>, n: nat): seq<Token>
    requires n <= |idents|
  {
    if n == 0 then [] else
      var before, t := Collected(idents, n - 1), idents[n - 1];
      if |before| < MAX_IDENTS && Wanted(t) && t !in before && Fits(before, t) then before + [t] else before
  }

  /** The different identifiers worth taking among the first `n`. */
  ghost function Names(idents: seq<Token>, n: nat): set<Token>
    requires n <= |idents|
  {
    set k | 0 <= k < n && Wanted(idents[k]) :: idents[k]
  }

  lemma NamesStep(idents: seq<Token>, n: nat)
    requires n < |idents|
    ensures Names(idents, n + 1) == Names(idents, n) + if Wanted(idents[n]) then {idents[n]} else {}
    ensures |Names(idents, n)| <= |Names(idents, n + 1)|
    ensures Wanted(idents[n]) && idents[n] !in Names(idents, n) ==>
              |Names(idents, n + 1)| == |Names(idents, n)| + 1
  {
    hide Wanted;
    var before, after := Names(idents, n), Names(idents, n + 1);
    forall t | t in after ensures t in before || (Wanted(idents[n]) && t == idents[n]) {
      var k :| 0 <= k < n + 1 && Wanted(idents[k]) && idents[k] == t;
    }
    assert after == before + if Wanted(idents[n]) then {idents[n]} else {};
    if Wanted(idents[n]) && idents[n] !in before {
      assert after == before + {idents[n]};
    } else {
      assert after == before;
    }
  }

  /** `v` can have put its key into cell `c`: it is the `p`-th it probes, past cells with other keys. */
  ghost predicate PutAt(seen: Table, v: Token, p: nat, c: nat) {
    && p < SEEN && c < SEEN && Probe(Hash(v), p) == c && KeyOf(v) == seen[c]
    && forall q :: 0 <= q < p ==> seen[Probe(Hash(v), q)] != 0 && seen[Probe(Hash(v), q)] != seen[c]
  }

  ghost predicate PutBySome(seen: Table, names: set<Token>, c: nat) {
    exists v, p :: v in names && PutAt(seen, v, p, c)
  }

  ghost predicate Placed(seen: Table, names: set<Token>) {
    forall c :: 0 <= c < SEEN && seen[c] != 0 ==> PutBySome(seen, names, c)
  }

  lemma {:induction false} RunPlaced(idents: seq<Token>, n: nat)
    requires n <= |idents|
    ensures Placed(Run(idents, n).seen, Names(idents, n))
  {
    hide Recorded, KeyOf, Insert, Fits, Wanted, Names, Run, PutBySome, Inserted, Full, OneCellSet;
    if n == 0 {
      NothingYet(idents);
    } else {
      RunPlaced(idents, n - 1);
      RunStep(idents, n - 1);
      NamesStep(idents, n - 1);
      var before, t := Run(idents, n - 1).seen, idents[n - 1];
      InsertRecords(before, t);
      if Run(idents, n).seen == before {
        PlacedMore(before, Names(idents, n - 1), Names(idents, n));
      } else {
        PlacedStep(before, Insert(before, t), Names(idents, n - 1), t);
      }
    }
  }

  lemma PlacedMore(seen: Table, names: set<Token>, more: set<Token>)
    requires Placed(seen, names) && names <= more
    ensures Placed(seen, more)
  {
    hide PutAt;
    forall c | 0 <= c < SEEN && seen[c] != 0 ensures PutBySome(seen, more, c) {
      assert PutBySome(seen, names, c);
    }
  }

  lemma PlacedStep(before: Table, after: Table, names: set<Token>, t: Token)
    requires Placed(before, names) && Inserted(before, after, t)
    ensures Placed(after, names + {t})
  {
    hide Probe, Hash, KeyOf;
    var p :| InsertedAt(before, after, t, p);
    var i := Probe(Hash(t), p);
    forall c | 0 <= c < SEEN && after[c] != 0 ensures PutBySome(after, names + {t}, c) {
      if c == i {
        assert PutAt(after, t, p, c);
        assert t in names + {t};
      } else {
        assert PutBySome(before, names, c);
        var v, q :| v in names && PutAt(before, v, q, c);
        PutStays(before, i, KeyOf(t), v, q, c);
        assert v in names + {t};
      }
    }
  }

  lemma PutStays(seen: Table, i: nat, key: nat, v: Token, p: nat, c: nat)
    requires PutAt(seen, v, p, c) && i < SEEN && seen[i] == 0 && c != i
    ensures PutAt(seen[i := key], v, p, c)
  {
    hide Probe, Hash, KeyOf;
    forall q | 0 <= q < p
      ensures seen[i := key][Probe(Hash(v), q)] != 0 && seen[i := key][Probe(Hash(v), q)] != seen[i := key][c]
    {
      assert seen[Probe(Hash(v), q)] != 0;
    }
  }

  /** Every cell in use holds the key of an identifier met before. */
  ghost predicate Owned(seen: Table, names: set<Token>) {
    forall i :: 0 <= i < SEEN && seen[i] != 0 ==> exists t :: t in names && KeyOf(t) == seen[i]
  }

  lemma PlacedIsOwned(seen: Table, names: set<Token>)
    requires Placed(seen, names)
    ensures Owned(seen, names)
  {
    hide Probe, Hash, KeyOf;
    forall i | 0 <= i < SEEN && seen[i] != 0 ensures exists t :: t in names && KeyOf(t) == seen[i] {
      assert PutBySome(seen, names, i);
      var v, p :| v in names && PutAt(seen, v, p, i);
    }
  }

  lemma RunOwned(idents: seq<Token>, n: nat)
    requires n <= |idents|
    ensures Owned(Run(idents, n).seen, Names(idents, n))
    ensures forall t :: t in Run(idents, n).tokens ==> t in Names(idents, n)
  {
    hide Run, Names, Placed, Owned;
    RunPlaced(idents, n);
    PlacedIsOwned(Run(idents, n).seen, Names(idents, n));
    TakenAreNames(idents, n);
  }

  lemma {:induction false} TakenAreNames(idents: seq<Token>, n: nat)
    requires n <= |idents|
    ensures forall t :: t in Run(idents, n).tokens ==> t in Names(idents, n)
  {
    hide Recorded, Insert, Fits, Wanted, Names, Run;
    if n == 0 {
      NothingYet(idents);
    } else {
      RunStep(idents, n - 1);
      NamesStep(idents, n - 1);
      TakenAreNames(idents, n - 1);
    }
  }

  /** None of the first `n` identifiers was turned away: offered, and met neither its key nor an empty
      cell. */
  ghost predicate NoneTurnedAway(idents: seq<Token>, n: nat)
    requires n <= |idents|
  {
    forall k :: 0 <= k < n ==> !TurnedAway(idents, k)
  }

  ghost predicate TurnedAway(idents: seq<Token>, k: nat)
    requires k < |idents|
  {
    var c := Run(idents, k);
    |c.tokens| < MAX_IDENTS && Wanted(idents[k]) && Full(c.seen) && !Recorded(c.seen, idents[k])
  }

  ghost predicate AllRecorded(seen: Table, names: set<Token>) {
    forall t :: t in names ==> Recorded(seen, t)
  }

  /** As long as none is turned away, whatever has been offered is recorded, and nothing is taken twice. */
  lemma {:induction false} RunRoom(idents: seq<Token>, n: nat)
    requires n <= |idents| && NoneTurnedAway(idents, n)
    ensures var c := Run(idents, n);
            && Distinct(c.tokens) && (forall t :: t in c.tokens ==> Recorded(c.seen, t))
            && (|c.tokens| < MAX_IDENTS ==> AllRecorded(c.seen, Names(idents, n)))
  {
    hide Recorded, Insert, Fits, Wanted, Names, Distinct, KeyOf, Run, Full;
    if n == 0 {
      NothingYet(idents);
    } else {
      NamesStep(idents, n - 1);
      RunStep(idents, n - 1);
      assert !TurnedAway(idents, n - 1);
      RunRoom(idents, n - 1);
      RunOwned(idents, n - 1);
      RoomStep(Run(idents, n - 1), Names(idents, n - 1), idents[n - 1]);
    }
  }

  lemma NothingYet(idents: seq<Token>)
    ensures Run(idents, 0) == Collector([], Empty()) && Names(idents, 0) == {} && Distinct<Token>([])
  {}

  lemma RoomStep(c: Collector, names: set<Token>, t: Token)
    requires Distinct(c.tokens) && (forall u :: u in c.tokens ==> Recorded(c.seen, u))
    requires |c.tokens| < MAX_IDENTS ==> AllRecorded(c.seen, names)
    requires |c.tokens| < MAX_IDENTS && Wanted(t) ==> !Full(c.seen) || Recorded(c.seen, t)
    requires forall u :: u in c.tokens ==> u in names
    ensures var d := Offer(c, t);
            && Distinct(d.tokens) && (forall u :: u in d.tokens ==> Recorded(d.seen, u))
            && (|d.tokens| < MAX_IDENTS ==> AllRecorded(d.seen, if Wanted(t) then names + {t} else names))
  {
    hide Recorded, Insert, Fits, Wanted, KeyOf, Full;
    InsertRecords(c.seen, t);
    forall u | Recorded(c.seen, u) ensures Recorded(Insert(c.seen, t), u) { InsertKeeps(c.seen, t, u); }
  }

  // ---- Tests a caller can make ----

  /** A table that still has a free cell before the last identifier has turned none away. */
  lemma FreeCellSuffices(idents: seq<Token>, n: nat)
    requires n <= |idents| && (n > 0 ==> !Full(Run(idents, n - 1).seen))
    ensures NoneTurnedAway(idents, n)
  {
    forall k | 0 <= k < n ensures !TurnedAway(idents, k) { FreeBefore(idents, k, n - 1); }
  }

  lemma {:induction false} FreeBefore(idents: seq<Token>, k: nat, n: nat)
    requires k <= n <= |idents| && !Full(Run(idents, n).seen)
    ensures !Full(Run(idents, k).seen)
  {
    hide Run, Insert, Recorded, Full, Fits, Inserted, OneCellSet;
    if k < n {
      RunStep(idents, n - 1);
      InsertRecords(Run(idents, n - 1).seen, idents[n - 1]);
      FreeBefore(idents, k, n - 1);
    }
  }

  /** No more different identifiers than cells. */
  ghost predicate RoomFor(idents: seq<Token>, n: nat)
    requires n <= |idents|
  {
    |Names(idents, n)| <= SEEN
  }

  /** Then none is turned away either, however often they occur. */
  lemma {:induction false} FewNamesSuffice(idents: seq<Token>, n: nat)
    requires n <= |idents| && RoomFor(idents, n)
    ensures NoneTurnedAway(idents, n) && Occupied(Run(idents, n).seen) <= |Names(idents, n)|
  {
    hide Recorded, Insert, Fits, Wanted, Names, Distinct, Occupied, KeyOf, Run, Full;
    if n == 0 {
      NothingYet(idents);
      NoneOccupied(Empty());
    } else {
      NamesStep(idents, n - 1);
      RunStep(idents, n - 1);
      FewNamesSuffice(idents, n - 1);
      RunRoom(idents, n - 1);
      var before, t := Run(idents, n - 1), idents[n - 1];
      assert !TurnedAway(idents, n - 1) by {
        if TurnedAway(idents, n - 1) { FullMeansAll(before.seen); }
      }
      if !Recorded(before.seen, t) && !Full(before.seen) {
        InsertRecords(before.seen, t);
        OccupiedStep(before.seen, Insert(before.seen, t), KeyOf(t));
      } else {
        InsertRecords(before.seen, t);
      }
    }
  }

  lemma FullMeansAll(seen: Table)
    requires Full(seen)
    ensures Occupied(seen) == SEEN
  {}

  // ---- Exactly the intended identifiers ----

  /** Different identifiers have different keys. */
  ghost predicate NoCollision(names: set<Token>) {
    forall t, u {:trigger KeyOf(t), KeyOf(u)} :: t in names && u in names && KeyOf(t) == KeyOf(u) ==> t == u
  }

  /** A token is only met in the table if its key was put there for some identifier. */
  lemma RecordedIsOwned(seen: Table, names: set<Token>, t: Token) returns (u: Token)
    requires Recorded(seen, t) && Owned(seen, names)
    ensures u in names && KeyOf(u) == KeyOf(t)
  {
    hide Probe, Hash, KeyOf;
    var p :| 0 <= p < SEEN && seen[Probe(Hash(t), p)] == KeyOf(t)
             && forall q :: 0 <= q < p ==> seen[Probe(Hash(t), q)] != 0;
    u :| u in names && KeyOf(u) == seen[Probe(Hash(t), p)];
  }

  lemma {:induction false} CollectedFrom(idents: seq<Token>, n: nat)
    requires n <= |idents|
    ensures |Collected(idents, n)| <= MAX_IDENTS
    ensures forall t :: t in Collected(idents, n) ==> t in Names(idents, n)
  {
    hide Fits, Wanted, Names;
    if n > 0 {
      CollectedFrom(idents, n - 1);
      NamesStep(idents, n - 1);
    }
  }

  lemma JoinedStep(tokens: seq<Token>, t: Token)
    ensures Joined(tokens + [t]) == if tokens == [] then t else Joined(tokens) + [SPACE] + t
  {
    assert (tokens + [t])[..|tokens|] == tokens;
  }

  lemma JoinedGrows(tokens: seq<Token>, t: Token)
    ensures |Joined(tokens)| <= |Joined(tokens + [t])|
  {
    JoinedStep(tokens, t);
  }

  /** An identifier met before has been taken, or does not fit any more, or the limit is reached. */
  lemma {:induction false} EarlierDone(idents: seq<Token>, n: nat, t: Token)
    requires n <= |idents| && t in Names(idents, n)
    ensures var tokens := Collected(idents, n); t in tokens || |tokens| >= MAX_IDENTS || !Fits(tokens, t)
  {
    hide Joined, Names, Wanted;
    if n == 0 {
      NothingYet(idents);
    } else {
      var before := Collected(idents, n - 1);
      JoinedGrows(before, idents[n - 1]);
      NamesStep(idents, n - 1);
      if t in Names(idents, n - 1) { EarlierDone(idents, n - 1, t); }
    }
  }

  /** The intention misses nothing: an identifier of 1 to 63 bytes is among the 40, or does not go into the
      512 bytes with its separator and terminator. */
  lemma NothingMissed(idents: seq<Token>, k: nat, n: nat)
    requires k < n <= |idents| && 0 < |idents[k]| < 64
    ensures var tokens, t := Collected(idents, n), idents[k];
            t in tokens || |tokens| == 40 || |Joined(tokens)| + |t| + 1 >= 512
  {
    CollectedFrom(idents, n);
    assert idents[k] in Names(idents, n);
    EarlierDone(idents, n, idents[k]);
  }

  lemma SameKeySame(names: set<Token>, t: Token, u: Token)
    requires NoCollision(names) && t in names && u in names && KeyOf(t) == KeyOf(u)
    ensures t == u
  {
    hide KeyOf;
  }

  /** The identifier at `n` is new, worth taking and fits, but the table takes it for seen. */
  ghost predicate Lost(idents: seq<Token>, n: nat)
    requires n < |idents|
  {
    var c, t := Run(idents, n), idents[n];
    && |c.tokens| < MAX_IDENTS && Wanted(t) && t !in Names(idents, n) && Fits(c.tokens, t) && Recorded(c.seen, t)
  }

  ghost predicate NoneLost(idents: seq<Token>, n: nat)
    requires n <= |idents|
  {
    forall m :: 0 <= m < n ==> !Lost(idents, m)
  }

  /** If none is turned away and none is lost, the table decides as intended at every identifier. */
  lemma {:induction false} TakesWhatIsIntended(idents: seq<Token>, n: nat)
    requires n <= |idents| && NoneTurnedAway(idents, n) && NoneLost(idents, n)
    ensures Run(idents, n).tokens == Collected(idents, n)
  {
    hide Recorded, Insert, Fits, Wanted, Names, Owned, Run, TurnedAway, Distinct;
    if n == 0 {
      NothingYet(idents);
    } else {
      RunStep(idents, n - 1);
      TakesWhatIsIntended(idents, n - 1);
      RunRoom(idents, n - 1);
      CollectedFrom(idents, n - 1);
      assert !Lost(idents, n - 1);
      if idents[n - 1] in Names(idents, n - 1) { EarlierDone(idents, n - 1, idents[n - 1]); }
    }
  }

  /** What is lost once is never taken. */
  lemma {:induction false} LostForGood(idents: seq<Token>, m: nat, n: nat)
    requires m < n <= |idents| && Lost(idents, m)
    ensures idents[m] !in Run(idents, n).tokens && Recorded(Run(idents, n).seen, idents[m])
  {
    hide Recorded, Insert, Fits, Wanted, Names, Run;
    RunStep(idents, n - 1);
    if n == m + 1 {
      RunOwned(idents, m);
    } else {
      LostForGood(idents, m, n - 1);
    }
    var c := Run(idents, n - 1);
    InsertKeeps(c.seen, idents[n - 1], idents[m]);
  }

  lemma {:induction false} CollectedKeeps(idents: seq<Token>, m: nat, n: nat)
    requires m <= n <= |idents|
    ensures Collected(idents, m) <= Collected(idents, n)
  {
    hide Fits, Wanted;
    if m < n { CollectedKeeps(idents, m, n - 1); }
  }

  lemma {:induction false} FirstLost(idents: seq<Token>, n: nat) returns (m: nat)
    requires n <= |idents| && !NoneLost(idents, n)
    ensures m < n && Lost(idents, m) && NoneLost(idents, m)
  {
    hide Lost;
    if NoneLost(idents, n - 1) { m := n - 1; } else { m := FirstLost(idents, n - 1); }
  }

  /** When none is turned away, exactly the intended identifiers are taken if and only if none is lost. */
  lemma IntendedExactly(idents: seq<Token>, n: nat)
    requires n <= |idents| && NoneTurnedAway(idents, n)
    ensures Run(idents, n).tokens == Collected(idents, n) <==> NoneLost(idents, n)
  {
    hide NoneLost, NoneTurnedAway, Run, Collected;
    if NoneLost(idents, n) {
      TakesWhatIsIntended(idents, n);
    } else {
      var m := FirstLost(idents, n);
      FewerTurnedAway(idents, m, n);
      TakesWhatIsIntended(idents, m);
      hide Lost;
      LostForGood(idents, m, n);
      CollectedKeeps(idents, m + 1, n);
      LostIsIntended(idents, m);
    }
  }

  lemma FewerTurnedAway(idents: seq<Token>, m: nat, n: nat)
    requires m <= n <= |idents| && NoneTurnedAway(idents, n)
    ensures NoneTurnedAway(idents, m)
  {
    hide TurnedAway;
  }

  lemma LostIsIntended(idents: seq<Token>, m: nat)
    requires m < |idents| && Lost(idents, m) && Run(idents, m).tokens == Collected(idents, m)
    ensures idents[m] in Collected(idents, m + 1)
  {
    hide Run, Recorded, Names, Fits, Wanted;
    CollectedFrom(idents, m);
  }

  /** Different keys suffice. */
  lemma DifferentKeysLoseNone(idents: seq<Token>, n: nat)
    requires n <= |idents| && NoCollision(Names(idents, n))
    ensures NoneLost(idents, n)
  {
    hide Recorded, Fits, Wanted, Names, NoCollision, KeyOf, Owned, Run;
    forall m | 0 <= m < n ensures !Lost(idents, m) {
      if Lost(idents, m) {
        RunOwned(idents, m);
        var u := RecordedIsOwned(Run(idents, m).seen, Names(idents, m), idents[m]);
        NamesGrow(idents, m, n);
        NamesGrow(idents, m + 1, n);
        NamesStep(idents, m);
        SameKeySame(Names(idents, n), idents[m], u);
        assert false;
      }
    }
  }

  lemma NamesGrow(idents: seq<Token>, m: nat, n: nat)
    requires m <= n <= |idents|
    ensures Names(idents, m) <= Names(idents, n)
  {
    hide Wanted;
  }

  // ---- When a new identifier is lost ----

  ghost predicate NoneHasKey(tokens: seq<Token>, key: nat) {
    forall v :: v in tokens ==> KeyOf(v) != key
  }

  /** `t` is new, fits and is not taken after `before` and `u`, and no other identifier has its key. */
  ghost predicate LostTo(before: seq<Token>, u: Token, t: Token) {
    var idents := before + [u, t];
    var c := Run(idents, |before| + 1);
    && t !in before && NoneHasKey(before, KeyOf(t))
    && |c.tokens| < MAX_IDENTS && Fits(c.tokens, t)
    && Run(idents, |before| + 2).tokens == c.tokens
  }

  /** One identifier can make the collector lose another in some run exactly when their keys are equal. */
  lemma ConfusedExactly(u: Token, t: Token)
    requires Wanted(u) && Wanted(t) && u != t
    ensures (exists before :: LostTo(before, u, t)) <==> KeyOf(u) == KeyOf(t)
  {
    hide LostTo, KeyOf;
    if KeyOf(u) == KeyOf(t) {
      var w := LosesSecond(u, t);
    }
    forall before | LostTo(before, u, t) ensures KeyOf(u) == KeyOf(t) {
      LostMeansKey(before, u, t);
    }
  }

  lemma LostMeansKey(before: seq<Token>, u: Token, t: Token)
    requires Wanted(t) && LostTo(before, u, t)
    ensures KeyOf(u) == KeyOf(t)
  {
    hide KeyOf, Fits, Insert, Recorded, Wanted, Owned;
    var idents := before + [u, t];
    var n := |before| + 1;
    assert idents[n] == t;
    var c := Run(idents, n);
    assert Run(idents, n + 1) == Offer(c, t);
    assert |c.tokens + [t]| == |c.tokens| + 1;
    assert Recorded(c.seen, t);
    RunOwned(idents, n);
    var v := RecordedIsOwned(c.seen, Names(idents, n), t);
    assert v in before || v == u by {
      var k :| 0 <= k < n && Wanted(idents[k]) && idents[k] == v;
    }
  }

  /** Where the two tokens' common key goes when the cell before it is taken. */
  lemma KeySlots(h: nat, k: nat)
    requires Key(h) == k
    ensures k % 2 == 1 && k % SEEN == (k - 1) % SEEN + 1
    ensures h == k || h == k - 1
    ensures Probe(h, 0) == (if h == k then (k - 1) % SEEN + 1 else (k - 1) % SEEN)
    ensures h == k - 1 ==> Probe(h, 1) == (k - 1) % SEEN + 1
  {
    var j := k / 2;
    assert k == 2 * j + 1;
    var q, r := j / 64, j % 64;
    assert k - 1 == SEEN * q + 2 * r;
    WholeCycles(q, 2 * r);
    WholeCycles(q, 2 * r + 1);
  }

  lemma WholeCycles(q: nat, r: nat)
    requires r < SEEN
    ensures (SEEN * q + r) % SEEN == r
  {}

  lemma OneByte(b: Byte)
    ensures Hash([b]) == b
  {
    assert [b][..0] == [];
  }

  /** A one-byte token that starts at an even cell and has another key. */
  lemma Filler(s: nat, k: nat) returns (w: Token)
    requires s < SEEN && s % 2 == 0
    ensures |w| == 1 && KeyOf(w) != k && Probe(Hash(w), 0) == s
  {
    var b: Byte := if s + 1 != k then s else s + SEEN;
    OneByte(b);
    w := [b];
  }

  /** The filler sends one of the two a cell further, or both start there anyway. */
  lemma SecondRecorded(w: Token, u: Token, t: Token)
    requires KeyOf(u) == KeyOf(t) != KeyOf(w) && Probe(Hash(w), 0) == (KeyOf(t) - 1) % SEEN
    ensures !Recorded(Empty(), w) && !Recorded(Insert(Empty(), w), u)
    ensures Recorded(Insert(Insert(Empty(), w), u), t)
  {
    var k := KeyOf(t);
    KeySlots(Hash(u), k);
    KeySlots(Hash(t), k);
    var s := (k - 1) % SEEN;
    hide Key, Hash, Probe;
    NotRecorded(Empty(), w, 0);
    var one: Table := Empty()[s := KeyOf(w)];
    assert Insert(Empty(), w) == one;
    var two: Table := one[s + 1 := k];
    if Hash(u) == k {
      NotRecorded(one, u, 0);
      assert InsertFrom(one, u, 0) == two;
    } else {
      NotRecorded(one, u, 1);
      assert InsertFrom(one, u, 1) == two;
      assert InsertFrom(one, u, 0) == two;
    }
    RecordedAt(two, t, if Hash(t) == k then 0 else 1);
  }

  /** Short tokens fit one after the other. */
  lemma ShortFit(w: Token, u: Token, t: Token)
    requires Wanted(w) && Wanted(u) && Wanted(t)
    ensures Fits([], w) && Fits([w], u) && Fits([w, u], t)
  {
    JoinedStep([w], u);
    assert [w] + [u] == [w, u];
  }

  lemma ThirdLost(w: Token, u: Token, t: Token)
    requires Wanted(w) && Wanted(u) && Wanted(t) && w != t && u != t && KeyOf(w) != KeyOf(t)
    requires !Recorded(Empty(), w) && !Recorded(Insert(Empty(), w), u) && Recorded(Insert(Insert(Empty(), w), u), t)
    ensures LostTo([w], u, t)
  {
    hide KeyOf, Recorded, Insert, Empty, Wanted, Fits, Joined, Run;
    ShortFit(w, u, t);
    var idents := [w] + [u, t];
    assert idents == [w, u, t];
    RunStep(idents, 0);
    RunStep(idents, 1);
    RunStep(idents, 2);
    assert [] + [w] == [w] && [w] + [u] == [w, u];
  }

  lemma RunStep(idents: seq<Token>, n: nat)
    requires n < |idents|
    ensures Run(idents, 0) == Collector([], Empty())
    ensures Run(idents, n + 1) == Offer(Run(idents, n), idents[n])
  {
    hide Offer;
  }

  lemma LosesSecond(u: Token, t: Token) returns (w: Token)
    requires Wanted(u) && Wanted(t) && u != t && KeyOf(u) == KeyOf(t)
    ensures LostTo([w], u, t)
  {
    KeySlots(Hash(t), KeyOf(t));
    hide Key, Probe;
    w := Filler((KeyOf(t) - 1) % SEEN, KeyOf(t));
    SecondRecorded(w, u, t);
    hide LostTo, Insert, Recorded;
    ThirdLost(w, u, t);
  }

  lemma SameHashSameCells(seen: Table, t: Token, u: Token)
    requires Hash(t) == Hash(u)
    ensures Recorded(seen, t) <==> Recorded(seen, u)
  {
    hide Hash, Probe;
  }

  /** The later one of two identifiers with the same hash is always lost, if the earlier was not turned
      away. */
  lemma EqualHashLosesLater(idents: seq<Token>, k: nat, n: nat)
    requires k < n < |idents| && !TurnedAway(idents, k)
    requires Wanted(idents[k]) && Hash(idents[k]) == Hash(idents[n])
    ensures Run(idents, n + 1).tokens == Run(idents, n).tokens
  {
    hide Recorded, Insert, Fits, Hash, KeyOf, Run, Wanted;
    RunStep(idents, k);
    RunStep(idents, n);
    InsertRecords(Run(idents, k).seen, idents[k]);
    if |Run(idents, k).tokens| >= MAX_IDENTS {
      RunStops(idents, k, n);
    } else {
      StaysRecorded(idents, k + 1, n, idents[k]);
      SameHashSameCells(Run(idents, n).seen, idents[k], idents[n]);
    }
  }

  lemma {:induction false} StaysRecorded(idents: seq<Token>, m: nat, n: nat, t: Token)
    requires m <= n <= |idents| && Recorded(Run(idents, m).seen, t)
    ensures Recorded(Run(idents, n).seen, t)
  {
    hide Recorded, Insert, Fits, Wanted, Run;
    if m < n {
      StaysRecorded(idents, m, n - 1, t);
      RunStep(idents, n - 1);
      InsertKeeps(Run(idents, n - 1).seen, idents[n - 1], t);
    }
  }

  // ---- The exact test on a list ----

  /** The even cell where probing for a key starts, unless the hash is odd, holds another key. */
  predicate StartTaken(seen: Table, k: nat)
    requires k > 0
  {
    var s := (k - 1) % SEEN;
    seen[s] != 0 && seen[s] != k
  }

  /** With the odd hash of a key probing is one cell ahead. */
  lemma OneAhead(k: nat, q: nat)
    requires Key(k) == k
    ensures Probe(k - 1, 0) == (k - 1) % SEEN && Probe(k, q) == Probe(k - 1, q + 1)
    ensures Probe(k, SEEN - 1) == (k - 1) % SEEN
  {
    KeySlots(k, k);
    KeySlots(k - 1, k);
  }

  /** Going all the way round from behind the even cell means that the table is full. */
  lemma AllTheWayRound(seen: Table, k: nat, p: nat)
    requires Key(k) == k && p < SEEN && Probe(k, p) == (k - 1) % SEEN && seen[(k - 1) % SEEN] != 0
    requires forall q :: 0 <= q < p ==> seen[Probe(k, q)] != 0
    ensures Full(seen)
  {
    OneAhead(k, 0);
    forall i | 0 <= i < SEEN ensures seen[i] != 0 {
      EveryCellProbed(k, i);
      var q :| 0 <= q < SEEN && Probe(k, q) == i;
      if q >= p { SameCellSameProbe(k, p, SEEN - 1); }
    }
  }

  lemma SameCellSameProbe(h: nat, p: nat, q: nat)
    requires p < SEEN && q < SEEN && Probe(h, p) == Probe(h, q)
    ensures p == q
  {}

  /** Whether a table with a free cell takes `t` for seen, from the names offered and one of its cells:
      some name has the key, and the hash too, or the even start cell holds another key. */
  lemma RecordedExactly(seen: Table, names: set<Token>, t: Token)
    requires Placed(seen, names) && AllRecorded(seen, names) && !Full(seen)
    ensures Recorded(seen, t) <==>
              exists u :: u in names && KeyOf(u) == KeyOf(t) && (Hash(u) == Hash(t) || StartTaken(seen, KeyOf(t)))
  {
    hide Recorded, Placed, Hash, Full, StartTaken, Probe, Key;
    if Recorded(seen, t) {
      var u := RecordedFrom(seen, names, t);
    }
    forall u | u in names && KeyOf(u) == KeyOf(t) && (Hash(u) == Hash(t) || StartTaken(seen, KeyOf(t)))
      ensures Recorded(seen, t)
    {
      assert Recorded(seen, u);
      if Hash(u) == Hash(t) { SameHashSameCells(seen, t, u); } else { TakenStart(seen, u, t); }
    }
  }

  lemma TakenStart(seen: Table, u: Token, t: Token)
    requires Recorded(seen, u) && KeyOf(u) == KeyOf(t) && Hash(u) != Hash(t) && StartTaken(seen, KeyOf(t))
    ensures Recorded(seen, t)
  {
    var k := KeyOf(t);
    KeySlots(Hash(u), k);
    KeySlots(Hash(t), k);
    forall q: nat ensures Probe(k, q) == Probe(k - 1, q + 1) { OneAhead(k, q); }
    OneAhead(k, 0);
    hide Probe, Hash, Key;
    var p :| 0 <= p < SEEN && seen[Probe(Hash(u), p)] == KeyOf(u)
             && forall q :: 0 <= q < p ==> seen[Probe(Hash(u), q)] != 0;
    if Hash(t) == k {
      assert p > 0;
      forall q | 0 <= q < p - 1 ensures seen[Probe(Hash(t), q)] != 0 {
        assert seen[Probe(Hash(u), q + 1)] != 0;
      }
      assert Probe(k, p - 1) == Probe(k - 1, p);
      RecordedAt(seen, t, p - 1);
    } else {
      assert p != SEEN - 1;
      forall q | 0 <= q < p + 1 ensures seen[Probe(Hash(t), q)] != 0 {
        if q > 0 { assert seen[Probe(Hash(u), q - 1)] != 0 && Probe(k, q - 1) == Probe(k - 1, q); }
      }
      RecordedAt(seen, t, p + 1);
    }
  }

  lemma RecordedFrom(seen: Table, names: set<Token>, t: Token) returns (u: Token)
    requires Recorded(seen, t) && Placed(seen, names) && !Full(seen)
    ensures u in names && KeyOf(u) == KeyOf(t) && (Hash(u) == Hash(t) || StartTaken(seen, KeyOf(t)))
  {
    var k := KeyOf(t);
    KeySlots(Hash(t), k);
    OneAhead(k, 0);
    var s := (k - 1) % SEEN;
    hide Probe, Hash, Key, Full;
    var p :| 0 <= p < SEEN && seen[Probe(Hash(t), p)] == k
             && forall q :: 0 <= q < p ==> seen[Probe(Hash(t), q)] != 0;
    var w, r := Owner(seen, names, Probe(Hash(t), p));
    KeyHashes(w, k);
    u := w;
    if Hash(w) != Hash(t) {
      if Hash(t) == k {
        if r == 0 { AllTheWayRound(seen, k, p); }
      } else if seen[s] == k {
        var v, q := Owner(seen, names, s);
        KeyHashes(v, k);
        if Hash(v) == k { AllTheWayRound(seen, k, q); }
        u := v;
      }
    }
  }

  lemma Owner(seen: Table, names: set<Token>, c: nat) returns (v: Token, p: nat)
    requires Placed(seen, names) && c < SEEN && seen[c] != 0
    ensures v in names && PutAt(seen, v, p, c)
  {
    hide PutAt;
    assert PutBySome(seen, names, c);
    v, p :| v in names && PutAt(seen, v, p, c);
  }

  lemma KeyHashes(v: Token, k: nat)
    requires KeyOf(v) == k
    ensures Hash(v) == k || Hash(v) == k - 1
  {
    KeySlots(Hash(v), k);
  }

  /** The exact test for one identifier of a list: if the table has a free cell and none was turned away,
      a new identifier that fits is lost exactly when an earlier one has its key, and its hash too unless
      the even cell where probing for the key starts holds another key. */
  lemma LostExactly(idents: seq<Token>, n: nat)
    requires n < |idents| && !Full(Run(idents, n).seen)
    requires var c, t := Run(idents, n), idents[n];
             |c.tokens| < MAX_IDENTS && Wanted(t) && t !in Names(idents, n) && Fits(c.tokens, t)
    ensures var seen, t := Run(idents, n).seen, idents[n];
            Lost(idents, n) <==>
            exists u :: u in Names(idents, n) && KeyOf(u) == KeyOf(t)
                        && (Hash(u) == Hash(t) || StartTaken(seen, KeyOf(t)))
  {
    forall k | 0 <= k < n ensures !TurnedAway(idents, k) { FreeBefore(idents, k, n); }
    RunRoom(idents, n);
    RunPlaced(idents, n);
    hide Run, Names, Recorded, Placed, AllRecorded, Fits, Full, StartTaken, KeyOf;
    RecordedExactly(Run(idents, n).seen, Names(idents, n), idents[n]);
  }

  ghost predicate DifferInOne(t: Token, u: Token) {
    |t| == |u| && exists i :: 0 <= i < |t| && t[i] != u[i] && forall j :: 0 <= j < |t| && j != i ==> t[j] == u[j]
  }

  /** An identifier whose key only names have that differ from it in one byte is lost exactly when there is
      such a name and the even start cell holds another key. */
  lemma OneByteLost(idents: seq<Token>, n: nat)
    requires n < |idents| && !Full(Run(idents, n).seen)
    requires var c, t := Run(idents, n), idents[n];
             |c.tokens| < MAX_IDENTS && Wanted(t) && t !in Names(idents, n) && Fits(c.tokens, t)
    requires forall u :: u in Names(idents, n) && KeyOf(u) == KeyOf(idents[n]) ==> DifferInOne(u, idents[n])
    ensures Lost(idents, n) <==>
              StartTaken(Run(idents, n).seen, KeyOf(idents[n]))
              && exists u :: u in Names(idents, n) && KeyOf(u) == KeyOf(idents[n])
  {
    LostExactly(idents, n);
    hide *;
    forall u | u in Names(idents, n) && KeyOf(u) == KeyOf(idents[n]) ensures Hash(u) != Hash(idents[n]) {
      OneByteHashes(u, idents[n]);
    }
  }

  lemma OneByteHashes(t: Token, u: Token)
    requires DifferInOne(t, u)
    ensures Hash(t) != Hash(u)
  {
    hide Hash;
    var i :| 0 <= i < |t| && t[i] != u[i] && forall j :: 0 <= j < |t| && j != i ==> t[j] == u[j];
    OneByteApart(t, u, i);
  }

  lemma TwoBytes(a: Byte, b: Byte)
    ensures Hash([a, b]) == a * 31 + b
  {
    assert [a, b][..1] == [a];
    OneByte(a);
  }

  /** Different hashes do not help: after "ce" and "b" the table takes "c" for seen. */
  lemma DifferentHashesConfused()
    ensures var ce, b, c: Token := [99, 101], [98], [99];
            && Hash(ce) != Hash(b) && Hash(b) != Hash(c) && Hash(c) != Hash(ce)
            && LostTo([ce], b, c) && Collected([ce, b, c], 3) == [ce, b, c]
  {
    var ce, b, c: Token := [99, 101], [98], [99];
    TwoBytes(99, 101);
    OneByte(98);
    OneByte(99);
    SecondRecorded(ce, b, c);
    assert ce != b && b != c && c != ce by { assert |ce| == 2 && b[0] != c[0]; }
    hide Recorded, Insert, Hash, Probe, Fits, LostTo;
    ThirdLost(ce, b, c);
    ShortFit(ce, b, c);
    var idents := [ce, b, c];
    assert Collected(idents, 0) == [];
    assert Collected(idents, 1) == [] + [ce] == [ce];
    assert Collected(idents, 2) == [ce] + [b] == [ce, b];
    assert Collected(idents, 3) == [ce, b] + [c] == [ce, b, c];
  }

  // ---- Reading the text back ----

  /** The text cut at its spaces. */
  function Words(text: Token): (words: seq<Token>)
    ensures words != []
  {
    if text == [] then [[]]
    else
      var rest := Words(text[1..]);
      if text[0] == 32 then [[]] + rest else [[text[0]] + rest[0]] + rest[1..]
  }

  lemma {:induction false} WordAhead(t: Token, text: Token)
    requires 32 !in t
    ensures Words(t + [32] + text) == [t] + Words(text)
    ensures Words(t) == [t]
  {
    var all := t + [32] + text;
    if t == [] {
      assert all[1..] == text;
    } else {
      assert all[1..] == t[1..] + [32] + text && all[0] == t[0] != 32;
      WordAhead(t[1..], text);
      assert [t[0]] + t[1..] == t;
    }
  }

  lemma {:induction false} JoinedFront(tokens: seq<Token>)
    requires |tokens| > 1
    ensures Joined(tokens) == tokens[0] + [32] + Joined(tokens[1..])
  {
    var last := |tokens| - 1;
    if last > 1 {
      JoinedFront(tokens[..last]);
      assert tokens[..last][1..] == tokens[1..][..last - 1];
    } else {
      assert tokens[1..] == [tokens[1]] && tokens[..1] == [tokens[0]];
    }
  }

  /** Cut at its spaces, the joined text gives the tokens back. */
  lemma {:induction false} JoinedReadsBack(tokens: seq<Token>)
    requires tokens != [] && forall t :: t in tokens ==> 32 !in t
    ensures Words(Joined(tokens)) == tokens
  {
    hide Joined, Words;
    assert tokens[0] in tokens;
    if |tokens| == 1 {
      JoinedOne(tokens);
      WordAhead(tokens[0], []);
      assert tokens == [tokens[0]];
    } else {
      JoinedReadsBack(tokens[1..]);
      JoinedFront(tokens);
      WordAhead(tokens[0], Joined(tokens[1..]));
      assert tokens == [tokens[0]] + tokens[1..];
    }
  }

  lemma JoinedOne(tokens: seq<Token>)
    requires |tokens| == 1
    ensures Joined(tokens) == tokens[0]
  {}

  // ---- In place ----

  class IdentBuffer {
    const seen: array<nat>
    const buf: array<Byte>
    var pos: nat
    var count: nat
    ghost var tokens: seq<Token>   // what has been appended

    ghost predicate Valid()
      reads this, seen, buf
    {
      && seen.Length == SEEN && buf.Length == BUF && seen as object != buf
      && pos < BUF && count == |tokens| && (pos == 0 <==> tokens == [])
      && buf[..pos] == Joined(tokens)
    }

    ghost function State(): Collector
      requires Valid()
      reads this, seen, buf
    {
      Collector(tokens, seen[..])
    }

    constructor ()
      ensures Valid() && State() == Collector([], Empty()) && fresh(seen) && fresh(buf)
    {
      seen := new nat[SEEN](_ => 0);
      buf := new Byte[BUF](_ => 0);
      pos, count, tokens := 0, 0, [];
      new;
      assert seen[..] == Empty();
    }

    /** The probe of `try_append_ident`: says whether the key is there, and records it if not. */
    method Record(t: Token) returns (dup: bool)
      requires seen.Length == SEEN
      modifies seen
      ensures dup <==> Recorded(old(seen[..]), t)
      ensures seen[..] == Insert(old(seen[..]), t)
    {
      hide Probe, Hash, KeyOf;
      var h := HashSpan(t);
      dup := false;
      ghost var before := seen[..];
      var p := 0;
      while p < SEEN
        invariant p <= SEEN && seen[..] == before && Insert(before, t) == InsertFrom(before, t, p)
        invariant forall q :: 0 <= q < p ==> before[Probe(h, q)] != 0 && before[Probe(h, q)] != KeyOf(t)
      {
        var idx := Probe(h, p);
        if seen[idx] == 0 {
          NotRecorded(before, t, p);
          seen[idx] := KeyOf(t);
          assert seen[..] == before[idx := KeyOf(t)];
          return;
        }
        if seen[idx] == KeyOf(t) {
          RecordedAt(before, t, p);
          dup := true;
          return;
        }
        p := p + 1;
      }
    }

    method CopyToken(at: nat, t: Token)
      requires at + |t| <= buf.Length && seen as object != buf
      modifies buf
      ensures buf[..at] == old(buf[..at]) && buf[at..at + |t|] == t
    {
      for i := 0 to |t|
        invariant forall k :: 0 <= k < i ==> buf[at + k] == t[k]
        invariant buf[..at] == old(buf[..at])
      {
        buf[at + i] := t[i];
      }
    }

    /** `try_append_ident`: a token goes in exactly when it is not recorded and fits; it is recorded
        either way if there is a cell for it. */
    method TryAppend(t: Token) returns (appended: bool)
      requires Valid() && t != []
      modifies this, seen, buf
      ensures Valid()
      ensures appended <==> !Recorded(old(seen[..]), t) && Fits(old(tokens), t)
      ensures tokens == if appended then old(tokens) + [t] else old(tokens)
      ensures seen[..] == Insert(old(seen[..]), t)
    {
      hide Recorded, Joined, Insert;
      var dup := Record(t);
      if dup || pos + |t| + 1 >= BUF {
        return false;
      }
      WriteToken(t);
      count := count + 1;
      tokens := tokens + [t];
      return true;
    }

    /** Separator and token. */
    method WriteToken(t: Token)
      requires seen.Length == SEEN && buf.Length == BUF && seen as object != buf && t != []
      requires pos + |t| + 1 < BUF && (pos == 0 <==> tokens == []) && buf[..pos] == Joined(tokens)
      modifies this`pos, buf
      ensures 0 < pos < BUF && buf[..pos] == Joined(tokens + [t])
    {
      hide Joined;
      JoinedStep(tokens, t);
      ghost var before := buf[..pos];
      if pos > 0 {
        buf[pos] := SPACE;
        pos := pos + 1;
        before := before + [SPACE];
      }
      assert buf[..pos] == before;
      CopyToken(pos, t);
      pos := pos + |t|;
      assert buf[..pos] == before + t;
    }
  }

  /** The loop that collects the identifier leaves of a body, given in walk order. What it takes is Run.
      While the table has a free cell, or with at most 128 different identifiers, and in any case if none
      is turned away, none is taken twice; and then exactly the intended ones are taken if and only if
      none is lost. */
  method CollectIdents(idents: seq<Token>) returns (text: Token, ghost tokens: seq<Token>)
    ensures tokens == Run(idents, |idents|).tokens && text == Joined(tokens) && |text| < 512
    ensures |tokens| <= 40 && forall t :: t in tokens ==> t in idents && 0 < |t| < 64
    ensures tokens == [] ==> text == []
    ensures tokens != [] && (forall t :: t in idents ==> 32 !in t) ==> Words(text) == tokens
    ensures idents == [] || !Full(Run(idents, |idents| - 1).seen) ==> NoneTurnedAway(idents, |idents|)
    ensures RoomFor(idents, |idents|) ==> NoneTurnedAway(idents, |idents|)
    ensures NoneTurnedAway(idents, |idents|) ==> Distinct(tokens)
    ensures NoneTurnedAway(idents, |idents|) ==>
              (tokens == Collected(idents, |idents|) <==> NoneLost(idents, |idents|))
    ensures NoCollision(Names(idents, |idents|)) ==> NoneLost(idents, |idents|)
  {
    hide Joined, Recorded, Insert, NoCollision, Distinct, NoneLost, NoneTurnedAway, Full;
    var b := new IdentBuffer();
    var i := 0;
    while i < |idents| && b.count < MAX_IDENTS
      invariant b.Valid() && fresh(b) && fresh(b.seen) && fresh(b.buf)
      invariant i <= |idents| && b.State() == Run(idents, i) && |b.tokens| <= MAX_IDENTS
    {
      if 0 < |idents[i]| < MAX_TOKEN {
        var appended := b.TryAppend(idents[i]);
      }
      i := i + 1;
    }
    text := b.buf[..b.pos];
    tokens := b.tokens;
    RunStops(idents, i, |idents|);
    RunFacts(idents);
    JoinedNothing();
    if tokens != [] && forall t :: t in idents ==> 32 !in t { JoinedReadsBack(tokens); }
  }

  lemma JoinedNothing()
    ensures Joined([]) == []
  {}

  lemma TakenAreWanted(idents: seq<Token>)
    ensures forall t :: t in Run(idents, |idents|).tokens ==> t in idents && Wanted(t)
  {
    hide Run, Owned;
    RunOwned(idents, |idents|);
  }

  lemma RunFacts(idents: seq<Token>)
    ensures var n, tokens := |idents|, Run(idents, |idents|).tokens;
            && (forall t :: t in tokens ==> t in idents && Wanted(t))
            && (n == 0 || !Full(Run(idents, n - 1).seen) ==> NoneTurnedAway(idents, n))
            && (RoomFor(idents, n) ==> NoneTurnedAway(idents, n))
            && (NoneTurnedAway(idents, n) ==> Distinct(tokens))
            && (NoneTurnedAway(idents, n) ==> (tokens == Collected(idents, n) <==> NoneLost(idents, n)))
            && (NoCollision(Names(idents, n)) ==> NoneLost(idents, n))
  {
    var n := |idents|;
    TakenAreWanted(idents);
    hide Run, Wanted, Names, NoneLost, NoneTurnedAway, Distinct, NoCollision, Full, Collected, RoomFor;
    if n == 0 || !Full(Run(idents, n - 1).seen) { FreeCellSuffices(idents, n); }
    if RoomFor(idents, n) { FewNamesSuffice(idents, n); }
    if NoneTurnedAway(idents, n) {
      RunRoom(idents, n);
      IntendedExactly(idents, n);
    }
    if NoCollision(Names(idents, n)) { DifferentKeysLoseNone(idents, n); }
  }

  /** Nothing is taken once the limit is reached. */
  lemma {:induction false} RunStops(idents: seq<Token>, m: nat, n: nat)
    requires m <= n <= |idents| && (m == n || |Run(idents, m).tokens| >= MAX_IDENTS)
    ensures Run(idents, n) == Run(idents, m)
  {
    hide Recorded, Insert, Fits;
    if m < n { RunStops(idents, m, n - 1); }
  }
}
