/**
 The CPU-affinity codec of nssm/nssm-2.24/src/service.cpp: a mask to a list of
 CPU numbers and ranges, and back. A mask is its bits, lowest CPU first; the width
 is a parameter, at most 100 so that a CPU number has at most two digits.
 */
module Affinity {
  import opened Domain

  datatype Run = Run(first: int, last: int)

  // ----- Runs of set bits -----

  /** CPU `i` lengthens the last run when it is next to it, and starts a new run otherwise. */
  function AddBit(runs: seq<Run>, i: int): seq<Run> {
    var m := |runs| - 1;
    if m >= 0 && runs[m].last == i - 1 then runs[m := Run(runs[m].first, i)] else runs + [Run(i, i)]
  }

  /** The runs among the first `n` bits, found left to right. */
  function RunsOf(bits: seq<bool>, n: nat): seq<Run>
    requires n <= |bits|
  {
    if n == 0 then []
    else if bits[n - 1] then AddBit(RunsOf(bits, n - 1), n - 1)
    else RunsOf(bits, n - 1)
  }

  function Interval(first: int, last: int): set<int>
    decreases last - first
  {
    if last < first then {} else Interval(first, last - 1) + {last}
  }

  /** The CPUs named by a list of entries. */
  function BitsOf(entries: seq<Run>): set<int> {
    if entries == [] then {}
    else
      var m := |entries| - 1;
      BitsOf(entries[..m]) + Interval(entries[m].first, entries[m].last)
  }

  function MaskBits(bits: seq<bool>): set<int> {
    set i | 0 <= i < |bits| && bits[i]
  }

  /** Increasing, with a gap between neighbours: no two runs could be merged. */
  predicate AreRuns(runs: seq<Run>, n: nat) {
    && (forall k :: 0 <= k < |runs| ==> 0 <= runs[k].first <= runs[k].last < n)
    && (forall j, k :: 0 <= j < k < |runs| ==> runs[j].last + 1 < runs[k].first)
  }

  lemma BitsOfSnoc(a: seq<Run>, r: Run)
    ensures BitsOf(a + [r]) == BitsOf(a) + Interval(r.first, r.last)
  {
    assert (a + [r])[..|a|] == a;
  }

  lemma MaskBitsSnoc(bits: seq<bool>, n: nat)
    requires 0 < n <= |bits|
    ensures MaskBits(bits[..n]) == MaskBits(bits[..n - 1]) + (if bits[n - 1] then {n - 1} else {})
  {
  }

  lemma NoBits(bits: seq<bool>)
    ensures AreRuns([], 0) && BitsOf([]) == MaskBits(bits[..0])
  {}

  /** The runs are maximal and cover exactly the set bits. */
  lemma {:induction false} RunsAreMaximal(bits: seq<bool>, n: nat)
    requires n <= |bits|
    ensures AreRuns(RunsOf(bits, n), n)
    ensures BitsOf(RunsOf(bits, n)) == MaskBits(bits[..n])
  {
    NoBits(bits);
    hide MaskBits, BitsOf, AreRuns, AddBit;
    if n > 0 {
      RunsAreMaximal(bits, n - 1);
      MaskBitsSnoc(bits, n);
      AddBitKeepsRuns(RunsOf(bits, n - 1), n - 1);
    }
  }

  lemma IntervalGrows(first: int, i: int)
    requires first <= i
    ensures Interval(first, i) == Interval(first, i - 1) + {i}
    ensures Interval(i, i) == {i}
  {
    assert Interval(i, i - 1) == {};
  }

  lemma AddBitKeepsRuns(runs: seq<Run>, i: nat)
    requires AreRuns(runs, i)
    ensures AreRuns(runs, i + 1)
    ensures AreRuns(AddBit(runs, i), i + 1) && BitsOf(AddBit(runs, i)) == BitsOf(runs) + {i}
  {
    hide BitsOf, Interval;
    var m := |runs| - 1;
    if m >= 0 && runs[m].last == i - 1 {
      var front, r := runs[..m], runs[m];
      assert runs == front + [r];
      assert AddBit(runs, i) == front + [Run(r.first, i)];
      BitsOfSnoc(front, r);
      BitsOfSnoc(front, Run(r.first, i));
      IntervalGrows(r.first, i);
    } else {
      BitsOfSnoc(runs, Run(i, i));
      IntervalGrows(i, i);
    }
  }

  // ----- Printing -----

  function Digit(d: nat): char
    requires d < 10
  {
    ['0', '1', '2', '3', '4', '5', '6', '7', '8', '9'][d]
  }

  function Digits(v: nat): string
    requires v < 100
  {
    if v < 10 then [Digit(v)] else [Digit(v / 10), Digit(v % 10)]
  }

  predicate Printable(r: Run) {
    0 <= r.first <= r.last < 100
  }

  function RenderRun(r: Run): string
    requires Printable(r)
  {
    if r.last == r.first then Digits(r.first)
    else Digits(r.first) + [if r.last == r.first + 1 then ',' else '-'] + Digits(r.last)
  }

  function Render(runs: seq<Run>): string
    requires forall r <- runs :: Printable(r)
  {
    if runs == [] then ""
    else if |runs| == 1 then RenderRun(runs[0])
    else RenderRun(runs[0]) + [','] + Render(runs[1..])
  }

  /** Six characters per run hold the text and its terminator. */
  lemma {:induction false} RenderFits(runs: seq<Run>)
    requires runs != [] && forall r <- runs :: Printable(r)
    ensures |Render(runs)| + 1 <= 6 * |runs|
  {
    if |runs| > 1 {
      RenderFits(runs[1..]);
    }
  }

  // ----- Parsing -----

  function DigitValue(c: char): nat {
    if '0' <= c <= '9' then c as nat - '0' as nat
    else if 'a' <= c <= 'f' then c as nat - 'a' as nat + 10
    else if 'A' <= c <= 'F' then c as nat - 'A' as nat + 10
    else 99
  }

  /** The value and length of the leading digits of `s` in the given base. */
  function Accumulate(s: string, base: nat, acc: nat): (r: (nat, nat))
    ensures r.1 <= |s|
  {
    if s == [] || DigitValue(s[0]) >= base then (acc, 0)
    else
      var rest := Accumulate(s[1..], base, acc * base + DigitValue(s[0]));
      (rest.0, rest.1 + 1)
  }

  /** Digits with base 0: a leading 0x is hexadecimal, a leading 0 octal. */
  function Unsigned(s: string): (r: (nat, nat))
    ensures r.1 <= |s|
  {
    if |s| > 2 && s[0] == '0' && (s[1] == 'x' || s[1] == 'X') && DigitValue(s[2]) < 16 then
      var hex := Accumulate(s[2..], 16, 0);
      (hex.0, hex.1 + 2)
    else Accumulate(s, if s != [] && s[0] == '0' then 8 else 10, 0)
  }

  predicate IsBlank(c: char) {
    c == ' ' || '\t' <= c <= '\r'
  }

  function Blanks(s: string): (n: nat)
    ensures n <= |s|
  {
    if s == [] || !IsBlank(s[0]) then 0 else 1 + Blanks(s[1..])
  }

  const ULONG: nat := 0x1_0000_0000

  /** Too large a value saturates; a minus sign negates within 32 bits. */
  function Clamp(v: nat, negative: bool): nat {
    if v >= ULONG then ULONG - 1 else if negative && v > 0 then ULONG - v else v
  }

  /** The cast of an `unsigned long` to `int`. */
  function ToInt(v: nat): int {
    if v >= ULONG / 2 then v - ULONG else v
  }

  /** `strtoul` with base 0: blanks, a sign, digits. No digits give 0 and no progress. */
  function StrToUl(s: string): (r: (nat, nat))
    ensures r.1 <= |s|
  {
    var b := Blanks(s);
    var sign := if b < |s| && (s[b] == '-' || s[b] == '+') then 1 else 0;
    var (v, used) := Unsigned(s[b + sign..]);
    if used == 0 then (0, 0) else (Clamp(v, sign == 1 && s[b] == '-'), b + sign + used)
  }

  // ----- What numbers mean -----

  predicate Numeral(s: string, base: nat) {
    s != [] && forall c <- s :: DigitValue(c) < base
  }

  /** The value of a numeral, its last character being the units. */
  function Value(s: string, base: nat): nat {
    if s == [] then 0 else Value(s[..|s| - 1], base) * base + DigitValue(s[|s| - 1])
  }

  lemma {:induction false} AccumulateSplits(s: string, t: string, base: nat, acc: nat)
    requires forall c <- s :: DigitValue(c) < base
    ensures var a := Accumulate(s, base, acc);
            var r := Accumulate(t, base, a.0);
            a.1 == |s| && Accumulate(s + t, base, acc) == (r.0, |s| + r.1)
    decreases |s|
  {
    if s == [] {
      assert s + t == t;
    } else {
      assert (s + t)[1..] == s[1..] + t;
      AccumulateSplits(s[1..], t, base, acc * base + DigitValue(s[0]));
    }
  }

  predicate Stops(rest: string, base: nat) {
    rest == [] || DigitValue(rest[0]) >= base
  }

  lemma {:induction false} NumeralIsRead(s: string, base: nat)
    requires forall c <- s :: DigitValue(c) < base
    ensures Accumulate(s, base, 0) == (Value(s, base), |s|)
  {
    hide DigitValue;
    if s != [] {
      var m := |s| - 1;
      NumeralIsRead(s[..m], base);
      assert s == s[..m] + [s[m]];
      AccumulateSplits(s[..m], [s[m]], base, 0);
      assert [s[m]][1..] == [];
    }
  }

  /** A numeral is read to its value, up to the first character that is no digit of the base. */
  lemma NumeralBefore(s: string, base: nat, rest: string)
    requires Numeral(s, base) && Stops(rest, base)
    ensures Accumulate(s + rest, base, 0) == (Value(s, base), |s|)
  {
    hide DigitValue, Accumulate, Value;
    NumeralIsRead(s, base);
    AccumulateSplits(s, rest, base, 0);
    NothingRead(rest, base, Value(s, base));
  }

  lemma NothingRead(rest: string, base: nat, acc: nat)
    requires Stops(rest, base)
    ensures Accumulate(rest, base, acc) == (acc, 0)
  {}

  lemma DigitIsPlain(c: char, base: nat)
    requires DigitValue(c) < base <= 16
    ensures !IsBlank(c) && c != '-' && c != '+' && c != 'x' && c != 'X'
  {}

  lemma DecimalIsRead(s: string, rest: string)
    requires Numeral(s, 10) && s[0] != '0' && Stops(rest, 10)
    ensures Unsigned(s + rest) == (Value(s, 10), |s|)
  {
    hide Accumulate, DigitValue, Value, Stops;
    NumeralBefore(s, 10, rest);
    assert (s + rest)[0] == s[0];
  }

  lemma HexIsRead(s: string, rest: string)
    requires Numeral(s, 16) && Stops(rest, 16)
    ensures Unsigned("0x" + s + rest) == (Value(s, 16), |s| + 2)
  {
    hide Accumulate, DigitValue, Value, Stops, Unsigned;
    NumeralBefore(s, 16, rest);
    PrefixGone(s, rest);
    AfterHexPrefix("0x" + s + rest);
  }

  lemma PrefixGone(s: string, rest: string)
    requires s != []
    ensures var t := "0x" + s + rest; |t| > 2 && t[0] == '0' && t[1] == 'x' && t[2] == s[0] && t[2..] == s + rest
  {
    var t := "0x" + s + rest;
    assert t == "0x" + (s + rest);
  }

  lemma AfterHexPrefix(t: string)
    requires |t| > 2 && t[0] == '0' && t[1] == 'x' && DigitValue(t[2]) < 16
    ensures Unsigned(t) == (Accumulate(t[2..], 16, 0).0, Accumulate(t[2..], 16, 0).1 + 2)
  {
    hide Accumulate, DigitValue;
  }

  lemma OctalIsRead(s: string, rest: string)
    requires Numeral(s, 8) && Stops(rest, 8)
    ensures Unsigned("0" + s + rest) == (Value(s, 8), |s| + 1)
  {
    hide Accumulate, DigitValue, Value, Stops;
    NumeralBefore(s, 8, rest);
    DigitIsPlain(s[0], 8);
    var t := "0" + s + rest;
    assert t[0] == '0' && t[1..] == s + rest && t[1] == s[0];
    ZeroIsSkipped(t);
  }

  lemma ZeroIsSkipped(t: string)
    requires t != [] && t[0] == '0'
    ensures Accumulate(t, 8, 0) == (Accumulate(t[1..], 8, 0).0, Accumulate(t[1..], 8, 0).1 + 1)
  {
    assert 0 * 8 + DigitValue(t[0]) == 0;
  }

  /** Decimal digits, hexadecimal ones after 0x, and octal ones after 0, all to their value. */
  lemma PrefixesSetTheBase(s: string, rest: string)
    ensures Numeral(s, 10) && s[0] != '0' && Stops(rest, 10) ==> Unsigned(s + rest) == (Value(s, 10), |s|)
    ensures Numeral(s, 16) && Stops(rest, 16) ==> Unsigned("0x" + s + rest) == (Value(s, 16), |s| + 2)
    ensures Numeral(s, 8) && Stops(rest, 8) ==> Unsigned("0" + s + rest) == (Value(s, 8), |s| + 1)
  {
    hide Unsigned, Value, Stops, DigitValue;
    if Numeral(s, 10) && s[0] != '0' && Stops(rest, 10) {
      DecimalIsRead(s, rest);
    }
    if Numeral(s, 16) && Stops(rest, 16) {
      HexIsRead(s, rest);
    }
    if Numeral(s, 8) && Stops(rest, 8) {
      OctalIsRead(s, rest);
    }
  }

  /** A decimal number, as the parser takes it: its value, the largest one when it does not fit 32 bits, or its negative. */
  lemma DecimalMeans(s: string, rest: string)
    requires Numeral(s, 10) && s[0] != '0' && Stops(rest, 10)
    ensures StrToUl(s + rest) == (if Value(s, 10) < ULONG then Value(s, 10) else ULONG - 1, |s|)
    ensures StrToUl("-" + s + rest).1 == |s| + 1
    ensures 0 < Value(s, 10) <= ULONG / 2 ==> ToInt(StrToUl("-" + s + rest).0) == -(Value(s, 10) as int)
  {
    hide Unsigned, DigitValue, Value, Stops, StrToUl, Clamp, ToInt, IsBlank, Accumulate;
    DecimalIsRead(s, rest);
    DigitIsPlain(s[0], 10);
    var t, u := s + rest, "-" + s + rest;
    SignGone(s, rest);
    PlainNumber(t);
    NegatedNumber(u);
    Clamped(Value(s, 10));
  }

  lemma SignGone(s: string, rest: string)
    requires s != []
    ensures (s + rest)[0] == s[0]
    ensures var u := "-" + s + rest; u[0] == '-' && u[1..] == s + rest
  {
    var u := "-" + s + rest;
    assert u == "-" + (s + rest);
  }

  lemma Clamped(v: nat)
    ensures Clamp(v, false) == if v < ULONG then v else ULONG - 1
    ensures 0 < v <= ULONG / 2 ==> ToInt(Clamp(v, true)) == -(v as int)
  {}

  lemma PlainNumber(t: string)
    requires t != [] && !IsBlank(t[0]) && t[0] != '-' && t[0] != '+' && Unsigned(t).1 > 0
    ensures StrToUl(t) == (Clamp(Unsigned(t).0, false), Unsigned(t).1)
  {
    hide Unsigned;
    NoBlanks(t);
    assert t[0..] == t;
  }

  lemma NegatedNumber(u: string)
    requires u != [] && u[0] == '-' && Unsigned(u[1..]).1 > 0
    ensures StrToUl(u) == (Clamp(Unsigned(u[1..]).0, true), Unsigned(u[1..]).1 + 1)
  {
    hide Unsigned;
    NoBlanks(u);
  }

  lemma NoBlanks(s: string)
    requires s != [] && !IsBlank(s[0])
    ensures Blanks(s) == 0
  {}

  const UNSET := Run(-1, -1)

  datatype Parsed = Refused(code: nat) | Entries(entries: seq<Run>)

  /** The entry loop on the rest of the string; a trailing comma leaves an unset entry behind. */
  function ParseFrom(s: string, width: nat, done: seq<Run>): Parsed
    decreases |s|
  {
    if s == [] then Entries(done + [UNSET])
    else
      var (number, used) := StrToUl(s);
      var rest := s[used..];
      if number >= width then Refused(2)
      else if rest == [] then Entries(done + [Run(number, number)])
      else if rest[0] == ',' then ParseFrom(rest[1..], width, done + [Run(number, number)])
      else if rest[0] == '-' then
        if rest[1..] == [] then Refused(3)
        else
          var (end, more) := StrToUl(rest[1..]);
          var after := rest[1..][more..];
          if after == [] then Entries(done + [Run(number, ToInt(end))])
          else if after[0] == ',' then ParseFrom(after[1..], width, done + [Run(number, ToInt(end))])
          else Refused(3)
      else Refused(3)
  }

  /** The table when the entry loop ends, accepted or refused: every slot it wrote, and the slot in use. */
  function Table(s: string, width: nat, done: seq<Run>): (t: seq<Run>)
    ensures t != []
    decreases |s|
  {
    if s == [] then done + [UNSET]
    else
      var (number, used) := StrToUl(s);
      var rest := s[used..];
      if number >= width then done + [UNSET]
      else if rest == [] || (rest[0] != ',' && rest[0] != '-') then done + [Run(number, number)]
      else if rest[0] == ',' then Table(rest[1..], width, done + [Run(number, number)])
      else if rest[1..] == [] then done + [Run(number, number)]
      else
        var (end, more) := StrToUl(rest[1..]);
        var after := rest[1..][more..];
        if after == [] then done + [Run(number, ToInt(end))]
        else if after[0] == ',' then Table(after[1..], width, done + [Run(number, ToInt(end))])
        else done + [Run(number, number)]
  }

  // ----- Round trip -----

  lemma UnsignedDigits(v: nat, rest: string)
    requires v < 100 && (rest != [] ==> rest[0] == ',' || rest[0] == '-')
    ensures Unsigned(Digits(v) + rest) == (v, |Digits(v)|)
    ensures (Digits(v) + rest)[|Digits(v)|..] == rest
    ensures 0 < |Digits(v)| <= 2 && '0' <= (Digits(v) + rest)[0] <= '9'
  {
    var s := Digits(v) + rest;
    var base := if v == 0 then 8 else 10;
    assert Accumulate(rest, base, v) == (v, 0);
    if v < 10 {
      assert s[1..] == rest && DigitValue(s[0]) == v;
    } else {
      assert DigitValue(s[0]) == v / 10 && DigitValue(s[1]) == v % 10;
      assert s[1..][1..] == rest && s[1..][0] == s[1];
      assert Accumulate(s[1..], 10, v / 10) == (v, 1);
    }
  }

  lemma DigitsParse(v: nat, rest: string)
    requires v < 100 && (rest != [] ==> rest[0] == ',' || rest[0] == '-')
    ensures StrToUl(Digits(v) + rest) == (v, |Digits(v)|)
    ensures (Digits(v) + rest)[|Digits(v)|..] == rest
  {
    hide Digits, Unsigned;
    UnsignedDigits(v, rest);
    var s := Digits(v) + rest;
    assert Blanks(s) == 0 && s[0..] == s;
  }

  predicate EndsEntry(tail: string) {
    tail != [] ==> tail[0] == ','
  }

  lemma NumberParses(v: nat, tail: string, width: nat, done: seq<Run>)
    requires v < width <= 100 && EndsEntry(tail)
    ensures ParseFrom(Digits(v) + tail, width, done)
         == if tail == [] then Entries(done + [Run(v, v)]) else ParseFrom(tail[1..], width, done + [Run(v, v)])
  {
    DigitsParse(v, tail);
    DigitsSome(v);
    hide StrToUl, Digits;
  }

  lemma DigitsSome(v: nat)
    requires v < 100
    ensures 0 < |Digits(v)| <= 2
  {}

  lemma RangeParses(a: nat, b: nat, tail: string, width: nat, done: seq<Run>)
    requires a < width <= 100 && b < 100 && EndsEntry(tail)
    ensures ParseFrom(Digits(a) + (['-'] + (Digits(b) + tail)), width, done)
         == if tail == [] then Entries(done + [Run(a, b)]) else ParseFrom(tail[1..], width, done + [Run(a, b)])
  {
    var rest := ['-'] + (Digits(b) + tail);
    DigitsParse(a, rest);
    DigitsParse(b, tail);
    DigitsSome(a);
    DigitsSome(b);
    hide StrToUl, Digits;
    assert rest[1..] == Digits(b) + tail;
  }

  /** A run of two is printed as two numbers. */
  function Expanded(r: Run): seq<Run> {
    if r.last == r.first + 1 then [Run(r.first, r.first), Run(r.last, r.last)] else [r]
  }

  function Expand(runs: seq<Run>): seq<Run> {
    if runs == [] then [] else Expanded(runs[0]) + Expand(runs[1..])
  }

  lemma {:induction false} RenderedParses(runs: seq<Run>, width: nat, done: seq<Run>)
    requires runs != [] && width <= 100 && forall r <- runs :: 0 <= r.first <= r.last < width
    ensures ParseFrom(Render(runs), width, done) == Entries(done + Expand(runs))
  {
    hide ParseFrom, RenderRun, Expanded;
    var r, more := runs[0], runs[1..];
    assert r in runs && forall q <- more :: q in runs;
    var now := done + Expanded(r);
    assert now + Expand(more) == done + Expand(runs);
    if more == [] {
      assert RenderRun(r) + [] == Render(runs);
      FirstRunParses(r, [], width, done);
    } else {
      var tail := [','] + Render(more);
      assert RenderRun(r) + tail == Render(runs);
      FirstRunParses(r, tail, width, done);
      assert tail[1..] == Render(more);
      RenderedParses(more, width, now);
    }
  }

  lemma FirstRunParses(r: Run, tail: string, width: nat, done: seq<Run>)
    requires 0 <= r.first <= r.last < width <= 100 && EndsEntry(tail)
    ensures ParseFrom(RenderRun(r) + tail, width, done)
         == if tail == [] then Entries(done + Expanded(r)) else ParseFrom(tail[1..], width, done + Expanded(r))
  {
    hide ParseFrom, Digits, StrToUl;
    if r.last == r.first {
      NumberParses(r.first, tail, width, done);
    } else if r.last == r.first + 1 {
      var rest := [','] + (Digits(r.last) + tail);
      assert RenderRun(r) + tail == Digits(r.first) + rest;
      assert rest[1..] == Digits(r.last) + tail;
      NumberParses(r.first, rest, width, done);
      NumberParses(r.last, tail, width, done + [Run(r.first, r.first)]);
      assert done + [Run(r.first, r.first)] + [Run(r.last, r.last)] == done + Expanded(r);
    } else {
      assert RenderRun(r) + tail == Digits(r.first) + (['-'] + (Digits(r.last) + tail));
      RangeParses(r.first, r.last, tail, width, done);
    }
  }

  lemma BitsOfConcat(a: seq<Run>, b: seq<Run>)
    ensures BitsOf(a + b) == BitsOf(a) + BitsOf(b)
  {
    if b == [] {
      assert a + b == a;
    } else {
      assert (a + b)[..|a + b| - 1] == a + b[..|b| - 1];
      BitsOfConcat(a, b[..|b| - 1]);
    }
  }

  lemma ExpandedKeepsBits(r: Run)
    ensures BitsOf(Expanded(r)) == BitsOf([r]) == Interval(r.first, r.last)
  {
    BitsOfSnoc([], r);
    assert [] + [r] == [r];
    if r.last == r.first + 1 {
      var one := Run(r.first, r.first);
      BitsOfSnoc([], one);
      assert [] + [one] == [one];
      BitsOfSnoc([one], Run(r.last, r.last));
      assert Interval(r.last, r.last - 1) == {};
    }
  }

  lemma {:induction false} ExpandKeepsBits(runs: seq<Run>)
    ensures BitsOf(Expand(runs)) == BitsOf(runs)
  {
    if runs != [] {
      var r, more := runs[0], runs[1..];
      ExpandKeepsBits(more);
      ExpandedKeepsBits(r);
      hide BitsOf, Expanded;
      assert runs == [r] + more;
      BitsOfConcat(Expanded(r), Expand(more));
      BitsOfConcat([r], more);
    }
  }

  /** The parsed entries never outnumber the bits, so they fit the fixed table. */
  lemma {:induction false} EntriesFit(runs: seq<Run>, n: nat)
    requires AreRuns(runs, n)
    ensures |Expand(runs)| <= if runs == [] then 0 else n - runs[0].first
  {
    if runs != [] {
      assert AreRuns(runs[1..], n) by {
        assert forall k :: 0 <= k < |runs| - 1 ==> runs[1..][k] == runs[k + 1];
      }
      EntriesFit(runs[1..], n);
    }
  }

  /** What printing a mask gives: nothing for the empty mask. */
  function Printed(bits: seq<bool>): Option<string>
    requires |bits| <= 100
  {
    RunsAreMaximal(bits, |bits|);
    if RunsOf(bits, |bits|) == [] then None else Some(Render(RunsOf(bits, |bits|)))
  }

  datatype MaskResult = Failure(code: nat) | Mask(cpus: set<int>)

  function MaskOf(text: Option<string>, width: nat): MaskResult {
    if text == None then Mask({})
    else
      match ParseFrom(text.value, width, [])
      case Refused(code) => Failure(code)
      case Entries(entries) => Mask(BitsOf(entries))
  }

  /** Parsing what was printed gives the mask back, the empty one included. */
  lemma RoundTrip(bits: seq<bool>)
    requires |bits| <= 100
    ensures MaskOf(Printed(bits), |bits|) == Mask(MaskBits(bits))
  {
    var runs := RunsOf(bits, |bits|);
    RunsAreMaximal(bits, |bits|);
    assert bits[..|bits|] == bits;
    if runs != [] {
      RenderedParses(runs, |bits|, []);
      ExpandKeepsBits(runs);
      assert [] + Expand(runs) == Expand(runs);
    }
  }

  // ----- The codec -----

  lemma {:induction false} RenderSnoc(runs: seq<Run>, r: Run)
    requires runs != [] && Printable(r) && forall q <- runs :: Printable(q)
    ensures Render(runs + [r]) == Render(runs) + [','] + RenderRun(r)
  {
    hide RenderRun, Printable;
    assert (runs + [r])[1..] == runs[1..] + [r];
    if |runs| > 1 {
      RenderSnoc(runs[1..], r);
    }
  }

  lemma {:induction false} FewerRunsThanBits(bits: seq<bool>, n: nat)
    requires n <= |bits|
    ensures |RunsOf(bits, n)| <= n && forall r <- RunsOf(bits, n) :: r.first >= 0
  {
    if n > 0 {
      FewerRunsThanBits(bits, n - 1);
    }
  }

  /** `_sntprintf_s` of one number into the buffer, terminator included. */
  method PutNumber(buffer: array<char>, at: nat, v: nat) returns (written: nat)
    requires v < 100 && at + 3 <= buffer.Length
    modifies buffer
    ensures written == |Digits(v)| <= 2
    ensures buffer[..at + written] == old(buffer[..at]) + Digits(v)
    ensures buffer[at + written] == '\0'
  {
    if v < 10 {
      buffer[at] := Digit(v);
      written := 1;
    } else {
      buffer[at], buffer[at + 1] := Digit(v / 10), Digit(v % 10);
      written := 2;
    }
    buffer[at + written] := '\0';
  }

  /** One run: its first CPU and, if it has more, a separator and its last. */
  method PutRun(buffer: array<char>, at: nat, r: Run) returns (s: nat)
    requires Printable(r) && at + 6 <= buffer.Length
    modifies buffer
    ensures s == at + |RenderRun(r)| < at + 6
    ensures buffer[..s] == old(buffer[..at]) + RenderRun(r)
    ensures buffer[s] == '\0'
  {
    hide Digits;
    var ret := PutNumber(buffer, at, r.first);
    s := at + ret;
    if r.last != r.first {
      ghost var soFar := buffer[..s];
      buffer[s] := if r.last == r.first + 1 then ',' else '-';
      assert buffer[..s + 1] == soFar + [buffer[s]];
      ret := PutNumber(buffer, s + 1, r.last);
      s := s + 1 + ret;
    }
  }

  /** The table of runs, filled bit by bit; `n` is the slot in use. */
  method FindRuns(mask: seq<bool>) returns (table: array<Run>, n: nat)
    requires exists i :: 0 <= i < |mask| && mask[i]
    ensures n < table.Length && table[..n + 1] == RunsOf(mask, |mask|)
  {
    table := new Run[|mask|](_ => UNSET);
    var i := 0;
    n := 0;
    while i < |mask|
      invariant 0 <= i <= |mask| && n < table.Length == |mask|
      invariant if RunsOf(mask, i) == [] then n == 0 && table[0] == UNSET else table[..n + 1] == RunsOf(mask, i)
      invariant RunsOf(mask, i) == [] ==> forall k :: 0 <= k < i ==> !mask[k]
    {
      FewerRunsThanBits(mask, i);
      if mask[i] {
        if table[n].first == -1 {
          table[n] := Run(i, i);
        } else if table[n].last == i - 1 {
          table[n] := Run(table[n].first, i);
        } else {
          n := n + 1;
          table[n] := Run(i, i);
        }
      }
      i := i + 1;
    }
  }

  /** The printing loop: six characters a run are enough for the text and its terminator. */
  method PrintRuns(runs: seq<Run>) returns (buffer: array<char>)
    requires runs != [] && forall r <- runs :: Printable(r)
    ensures fresh(buffer) && buffer.Length == 6 * |runs|
    ensures |Render(runs)| < buffer.Length
    ensures buffer[..|Render(runs)|] == Render(runs) && buffer[|Render(runs)|] == '\0'
  {
    hide RenderRun, Printable;
    buffer := new char[|runs| * 6](_ => '\0');
    var s, i := 0, 0;
    while i < |runs|
      invariant 0 <= i <= |runs| && fresh(buffer) && buffer.Length == |runs| * 6
      invariant 0 <= s && (if i > 0 then s < 6 * i else s == 0)
      invariant buffer[..s] == Render(runs[..i]) && buffer[s] == '\0'
    {
      ghost var done := runs[..i];
      assert runs[..i + 1] == done + [runs[i]];
      if i > 0 {
        buffer[s] := ',';
        s := s + 1;
        assert buffer[..s] == Render(done) + [','];
        RenderSnoc(done, runs[i]);
      }
      s := PutRun(buffer, s, runs[i]);
      i := i + 1;
    }
    assert runs[..i] == runs;
  }

  /** No string for the empty mask; otherwise a zero-terminated buffer of six characters a run. */
  method AffinityMaskToString(mask: seq<bool>) returns (ret: int, buffer: array?<char>)
    requires |mask| <= 100
    ensures ret == 0
    ensures Printed(mask) == None <==> buffer == null
    ensures buffer != null ==>
      var text := Printed(mask).value;
      && buffer.Length == 6 * |RunsOf(mask, |mask|)| && |text| < buffer.Length
      && buffer[..|text|] == text && buffer[|text|] == '\0'
  {
    ret := 0;
    RunsAreMaximal(mask, |mask|);
    NothingToPrint(mask, |mask|);
    hide Render, RunsOf, BitsOf, MaskBits;
    if forall i :: 0 <= i < |mask| ==> !mask[i] {
      buffer := null;
    } else {
      var table, n := FindRuns(mask);
      buffer := PrintRuns(table[..n + 1]);
    }
  }

  lemma {:induction false} NothingToPrint(bits: seq<bool>, n: nat)
    requires n <= |bits|
    ensures RunsOf(bits, n) == [] <==> forall i :: 0 <= i < n ==> !bits[i]
  {
    if n > 0 {
      NothingToPrint(bits, n - 1);
    }
  }

  /** The entry loop: the table's last slot is the one in use. */
  method ReadEntries(text: string, width: nat) returns (ret: nat, table: seq<Run>)
    ensures ParseFrom(text, width, []) == if ret == 0 then Entries(table) else Refused(ret)
    ensures table == Table(text, width, [])
  {
    hide StrToUl, ToInt;
    var s := text;
    ret, table := 0, [UNSET];
    while s != []
      invariant |table| > 0
      invariant s != [] ==> table[|table| - 1] == UNSET
      invariant ParseFrom(text, width, [])
             == if s == [] then Entries(table) else ParseFrom(s, width, table[..|table| - 1])
      invariant Table(text, width, []) == if s == [] then table else Table(s, width, table[..|table| - 1])
      decreases |s|
    {
      var n := |table| - 1;
      ghost var done := table[..n];
      assert table == done + [UNSET];
      var number, used := StrToUl(s).0, StrToUl(s).1;
      s := s[used..];
      if number >= width { return 2, table; }
      table := table[..n] + [Run(number, number)];
      assert table[..n] == done;
      if s != [] {
        if s[0] == ',' {
          s := s[1..];
          table := table + [UNSET];
        } else if s[0] == '-' {
          s := s[1..];
          if s == [] { return 3, table; }
          var end := StrToUl(s);
          s := s[end.1..];
          if s != [] && s[0] != ',' { return 3, table; }
          table := table[..n] + [Run(number, ToInt(end.0))];
          if s != [] {
            s := s[1..];
            table := table + [UNSET];
          }
        } else {
          return 3, table;
        }
      }
    }
  }

  /** The double loop over entries and CPUs. */
  method CollectMask(table: seq<Run>) returns (mask: set<int>)
    ensures mask == BitsOf(table)
  {
    mask := {};
    var i := 0;
    NoBits([]);
    hide BitsOf;
    while i < |table|
      invariant 0 <= i <= |table|
      invariant mask == BitsOf(table[..i])
    {
      assert table[..i + 1] == table[..i] + [table[i]];
      BitsOfSnoc(table[..i], table[i]);
      var j := table[i].first;
      while j <= table[i].last
        invariant j <= table[i].last + 1 || j == table[i].first
        invariant mask == BitsOf(table[..i]) + Interval(table[i].first, j - 1)
      {
        mask := mask + {j};
        j := j + 1;
      }
      i := i + 1;
    }
    assert table[..i] == table;
  }

  /** A refused string leaves the empty mask. */
  method AffinityStringToMask(text: Option<string>, width: nat) returns (ret: nat, mask: set<int>)
    ensures match MaskOf(text, width)
            case Failure(code) => ret == code != 0 && mask == {}
            case Mask(cpus) => ret == 0 && mask == cpus
  {
    ret, mask := 0, {};
    if text == None { return; }
    var table;
    ret, table := ReadEntries(text.value, width);
    if ret == 0 {
      mask := CollectMask(table);
    }
  }

  /** Refusals carry their own code, never zero. */
  lemma {:induction false} RefusalsAreCoded(s: string, width: nat, done: seq<Run>)
    ensures ParseFrom(s, width, done).Refused? ==> ParseFrom(s, width, done).code in {2, 3}
    decreases |s|
  {
    hide StrToUl;
    if s != [] {
      var number, used := StrToUl(s).0, StrToUl(s).1;
      var rest := s[used..];
      if number < width && rest != [] {
        if rest[0] == ',' {
          RefusalsAreCoded(rest[1..], width, done + [Run(number, number)]);
        } else if rest[0] == '-' && rest[1..] != [] {
          var end, more := StrToUl(rest[1..]).0, StrToUl(rest[1..]).1;
          var after := rest[1..][more..];
          if after != [] && after[0] == ',' {
            RefusalsAreCoded(after[1..], width, done + [Run(number, ToInt(end))]);
          }
        }
      }
    }
  }

  // ----- When the table and the shifts are in bounds -----

  function Commas(s: string): nat {
    if s == [] then 0 else Commas(s[1..]) + if s[0] == ',' then 1 else 0
  }

  predicate EndsInComma(s: string) {
    s != [] && s[|s| - 1] == ','
  }

  lemma {:induction false} CommasSplit(a: string, b: string)
    ensures Commas(a + b) == Commas(a) + Commas(b)
  {
    if a == [] {
      assert a + b == b;
    } else {
      assert (a + b)[1..] == a[1..] + b;
      CommasSplit(a[1..], b);
    }
  }

  lemma {:induction false} DigitsHaveNoComma(s: string, base: nat, acc: nat)
    requires base <= 16
    ensures ',' !in s[..Accumulate(s, base, acc).1]
  {
    if s != [] && DigitValue(s[0]) < base {
      DigitsHaveNoComma(s[1..], base, acc * base + DigitValue(s[0]));
      var n := Accumulate(s[1..], base, acc * base + DigitValue(s[0])).1;
      assert s[..n + 1] == [s[0]] + s[1..][..n];
    }
  }

  lemma {:induction false} BlanksHaveNoComma(s: string)
    ensures ',' !in s[..Blanks(s)]
  {
    if s != [] && IsBlank(s[0]) {
      BlanksHaveNoComma(s[1..]);
      assert s[..Blanks(s)] == [s[0]] + s[1..][..Blanks(s[1..])];
    }
  }

  lemma UnsignedHasNoComma(s: string)
    ensures ',' !in s[..Unsigned(s).1]
  {
    hide Accumulate;
    DigitsHaveNoComma(s, 8, 0);
    DigitsHaveNoComma(s, 10, 0);
    if |s| > 2 && s[0] == '0' && (s[1] == 'x' || s[1] == 'X') && DigitValue(s[2]) < 16 {
      DigitsHaveNoComma(s[2..], 16, 0);
      var n := Accumulate(s[2..], 16, 0).1;
      assert s[..n + 2] == [s[0], s[1]] + s[2..][..n];
    }
  }

  /** A number token holds no comma. */
  lemma TokenHasNoComma(s: string)
    ensures ',' !in s[..StrToUl(s).1]
  {
    hide Blanks, Unsigned, Clamp;
    BlanksHaveNoComma(s);
    var b := Blanks(s);
    var sign := if b < |s| && (s[b] == '-' || s[b] == '+') then 1 else 0;
    UnsignedHasNoComma(s[b + sign..]);
    var used := Unsigned(s[b + sign..]).1;
    assert s[..b + sign + used] == s[..b] + s[b..b + sign] + s[b + sign..][..used];
  }

  lemma {:induction false} NoCommas(s: string)
    requires ',' !in s
    ensures Commas(s) == 0
  {
    if s != [] { NoCommas(s[1..]); }
  }

  lemma LastOfSplit(a: string, b: string)
    requires ',' !in a
    ensures EndsInComma(a + b) <==> EndsInComma(b)
  {
    if b == [] {
      assert a + b == a;
    }
  }

  /** Passing a token leaves the commas, and the last one, to the rest. */
  lemma PassToken(s: string, used: nat)
    requires used <= |s| && ',' !in s[..used]
    ensures Commas(s) == Commas(s[used..]) && (EndsInComma(s) <==> EndsInComma(s[used..]))
  {
    hide Commas, EndsInComma;
    assert s == s[..used] + s[used..];
    CommasSplit(s[..used], s[used..]);
    NoCommas(s[..used]);
    LastOfSplit(s[..used], s[used..]);
  }

  predicate Started(e: Run, width: nat) {
    0 <= e.first < width
  }

  /** The shape of accepted entries: one more than there are commas; only a last one can be unset. */
  predicate Shaped(s: string, width: nat, done: seq<Run>, es: seq<Run>) {
    && |es| == |done| + 1 + Commas(s) && done <= es
    && (forall k :: |done| <= k < |es| - 1 ==> Started(es[k], width))
    && (es[|es| - 1] == UNSET <==> s == "" || EndsInComma(s))
    && (es[|es| - 1] != UNSET ==> Started(es[|es| - 1], width))
  }

  lemma LastShaped(s: string, width: nat, done: seq<Run>, e: Run, token: nat)
    requires 0 < |s| == token && ',' !in s[..token] && Started(e, width)
    ensures Shaped(s, width, done, done + [e])
  {
    PassToken(s, token);
    NoCommas("");
  }

  lemma NextShaped(s: string, width: nat, done: seq<Run>, e: Run, token: nat, es: seq<Run>)
    requires token < |s| && ',' !in s[..token] && s[token] == ',' && Started(e, width)
    requires Shaped(s[token + 1..], width, done + [e], es)
    ensures Shaped(s, width, done, es)
  {
    hide Commas, EndsInComma, Started;
    PassToken(s, token);
    PassComma(s[token..]);
    assert s[token..][1..] == s[token + 1..];
    assert es[|done|] == (done + [e])[|done|] == e;
  }

  /** The range token: a number, a minus sign, another number. */
  lemma RangeHasNoComma(s: string, used: nat)
    requires used == StrToUl(s).1 < |s| && s[used] != ','
    ensures ',' !in s[..used + 1 + StrToUl(s[used + 1..]).1]
  {
    hide StrToUl;
    TokenHasNoComma(s);
    TokenHasNoComma(s[used + 1..]);
    var more := StrToUl(s[used + 1..]).1;
    assert s[..used + 1 + more] == s[..used] + [s[used]] + s[used + 1..][..more];
  }

  /** One entry more than there are commas; only a last one can be unset, and is if the text is empty or ends in a comma. */
  lemma {:induction false} ParsedShape(s: string, width: nat, done: seq<Run>)
    requires ParseFrom(s, width, done).Entries?
    ensures Shaped(s, width, done, ParseFrom(s, width, done).entries)
    decreases |s|
  {
    hide StrToUl, ToInt, Commas, EndsInComma, Shaped;
    if s == "" {
      EmptyShaped(width, done);
    } else {
      var number, used := StrToUl(s).0, StrToUl(s).1;
      var rest := s[used..];
      TokenHasNoComma(s);
      if rest == [] {
        LastShaped(s, width, done, Run(number, number), used);
      } else if rest[0] == ',' {
        assert s[used + 1..] == rest[1..];
        ParsedShape(rest[1..], width, done + [Run(number, number)]);
        NextShaped(s, width, done, Run(number, number), used, ParseFrom(s, width, done).entries);
      } else {
        assert s[used + 1..] == rest[1..];
        RangeHasNoComma(s, used);
        var end, more := StrToUl(rest[1..]).0, StrToUl(rest[1..]).1;
        var e, token := Run(number, ToInt(end)), used + 1 + more;
        assert s[token..] == rest[1..][more..];
        if s[token..] == [] {
          LastShaped(s, width, done, e, token);
        } else {
          assert s[token + 1..] == s[token..][1..];
          ParsedShape(s[token + 1..], width, done + [e]);
          NextShaped(s, width, done, e, token, ParseFrom(s, width, done).entries);
        }
      }
    }
  }

  lemma EmptyShaped(width: nat, done: seq<Run>)
    ensures Shaped("", width, done, done + [UNSET])
  {}

  lemma PassComma(s: string)
    requires s != [] && s[0] == ','
    ensures Commas(s) == 1 + Commas(s[1..])
    ensures EndsInComma(s) <==> s[1..] == [] || EndsInComma(s[1..])
  {}

  lemma IntervalMembers(first: int, last: int)
    ensures forall j :: j in Interval(first, last) <==> first <= j <= last
    decreases last - first
  {
    if first <= last { IntervalMembers(first, last - 1); }
  }

  /** Every entry, and every shift it causes, lies within the width. */
  predicate InBounds(entries: seq<Run>, width: nat) {
    |entries| <= width && forall j <- BitsOf(entries) :: 0 <= j < width
  }

  lemma {:induction false} ShiftsInWidthIff(entries: seq<Run>, width: nat)
    ensures (forall j <- BitsOf(entries) :: 0 <= j < width)
       <==> forall e <- entries :: e.first <= e.last ==> 0 <= e.first && e.last < width
  {
    if entries != [] {
      var m := |entries| - 1;
      var e := entries[m];
      assert entries == entries[..m] + [e];
      ShiftsInWidthIff(entries[..m], width);
      IntervalMembers(e.first, e.last);
      BitsOfSnoc(entries[..m], e);
      hide Interval, BitsOf;
      assert e.first <= e.last ==> e.first in BitsOf(entries) && e.last in BitsOf(entries);
    }
  }

  /**
   A text the parser accepts stays within the table and the shift width if and only if it has fewer
   commas than the width, is not empty, does not end in a comma, and no entry ends beyond the width.
   */
  lemma AcceptedTextInBoundsIff(text: string, width: nat)
    requires ParseFrom(text, width, []).Entries?
    ensures var es := ParseFrom(text, width, []).entries;
            InBounds(es, width)
            <==> Commas(text) < width && text != "" && !EndsInComma(text) && forall e <- es :: e.last < width
  {
    hide ParseFrom, BitsOf, Commas, EndsInComma;
    var es := ParseFrom(text, width, []).entries;
    ParsedShape(text, width, []);
    ShiftsInWidthIff(es, width);
    var m := |es| - 1;
    assert es[m] in es;
    assert forall k :: 0 <= k < m ==> Started(es[k], width);
    if es[m] != UNSET {
      assert forall k :: 0 <= k < |es| ==> Started(es[k], width);
    }
  }

  lemma AfterToken(s: string, token: nat)
    requires token < |s| && ',' !in s[..token] && s[token] == ','
    ensures Commas(s) == 1 + Commas(s[token + 1..])
  {
    hide Commas;
    PassToken(s, token);
    PassComma(s[token..]);
    assert s[token..][1..] == s[token + 1..];
  }

  /** The loop never uses more slots than there are commas, and one; an accepted table is the parsed one. */
  lemma {:induction false} TableIsBounded(s: string, width: nat, done: seq<Run>)
    ensures |Table(s, width, done)| <= |done| + 1 + Commas(s)
    ensures ParseFrom(s, width, done).Entries? ==> ParseFrom(s, width, done).entries == Table(s, width, done)
    decreases |s|
  {
    hide StrToUl, ToInt, Commas;
    if s != "" {
      var number, used := StrToUl(s).0, StrToUl(s).1;
      var rest := s[used..];
      TokenHasNoComma(s);
      if number < width && rest != [] {
        if rest[0] == ',' {
          assert rest[1..] == s[used + 1..];
          AfterToken(s, used);
          TableIsBounded(rest[1..], width, done + [Run(number, number)]);
        } else if rest[0] == '-' && rest[1..] != [] {
          assert rest[1..] == s[used + 1..];
          RangeHasNoComma(s, used);
          var end, more := StrToUl(rest[1..]).0, StrToUl(rest[1..]).1;
          var token := used + 1 + more;
          var after := rest[1..][more..];
          assert after == s[token..];
          if after != [] && after[0] == ',' {
            assert after[1..] == s[token + 1..];
            AfterToken(s, token);
            TableIsBounded(after[1..], width, done + [Run(number, ToInt(end))]);
          }
        }
      }
    }
  }

  /** Any text, refused ones included, with fewer commas than the width stays within the table while it is read. */
  lemma FewCommasStayInTable(text: string, width: nat)
    requires Commas(text) < width
    ensures |Table(text, width, [])| <= width
  {
    TableIsBounded(text, width, []);
  }
}
