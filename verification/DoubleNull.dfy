/**
 The double-NUL codecs of nssm/nssm-2.24/src/registry.cpp: a block of NUL-terminated
 strings to CRLF text, and back, the latter editing its input buffer in place.
 */
module DoubleNull {

  const NUL := '\0'
  const CR := '\r'
  const LF := '\n'
  const CRLF := [CR, LF]

  predicate IsCrlf(s: seq<char>, k: int) {
    0 <= k && k + 1 < |s| && s[k] == CR && s[k + 1] == LF
  }

  predicate EndsInCr(s: seq<char>) {
    s != [] && s[|s| - 1] == CR
  }

  predicate EndsCrlf(s: seq<char>) {
    IsCrlf(s, |s| - 2)
  }

  // ----- Lines of text and blocks of strings -----

  function Split(s: seq<char>): (lines: seq<seq<char>>)
    ensures |lines| >= 1
  {
    if s == [] then [[]]
    else if IsCrlf(s, 0) then [[]] + Split(s[2..])
    else
      var rest := Split(s[1..]);
      [[s[0]] + rest[0]] + rest[1..]
  }

  function Join(lines: seq<seq<char>>): seq<char> {
    if lines == [] then []
    else if |lines| == 1 then lines[0]
    else lines[0] + CRLF + Join(lines[1..])
  }

  function Nonempty(lines: seq<seq<char>>): (kept: seq<seq<char>>)
    ensures forall x <- kept :: x in lines && x != []
  {
    if lines == [] then [] else (if lines[0] == [] then [] else [lines[0]]) + Nonempty(lines[1..])
  }

  /** The text with its blank lines gone; a final CRLF stays. */
  function Clean(s: seq<char>): seq<char> {
    Join(Nonempty(Split(s))) + if EndsCrlf(s) then CRLF else []
  }

  /** Drop CR, turn LF into NUL. */
  function Strip(s: seq<char>): seq<char> {
    if s == [] then []
    else (if s[0] == CR then [] else if s[0] == LF then [NUL] else [s[0]]) + Strip(s[1..])
  }

  /** The double-NUL block of a list of strings. */
  function Block(xs: seq<seq<char>>): seq<char> {
    if xs == [] then [NUL] else xs[0] + [NUL] + Block(xs[1..])
  }

  /** The strings a reader finds in a block: up to the first empty one. */
  function ReadString(s: seq<char>): (n: nat)
    ensures n <= |s|
    ensures forall k :: 0 <= k < n ==> s[k] != NUL
    ensures n < |s| ==> s[n] == NUL
  {
    if s == [] || s[0] == NUL then 0 else 1 + ReadString(s[1..])
  }

  function ReadBlock(s: seq<char>): seq<seq<char>>
    decreases |s|
  {
    var n := ReadString(s);
    if n == 0 || n == |s| then [] else [s[..n]] + ReadBlock(s[n + 1..])
  }

  /** A string without NUL, CR or LF. */
  predicate Plain(x: seq<char>) {
    forall k :: 0 <= k < |x| ==> x[k] != NUL && x[k] != CR && x[k] != LF
  }

  // ----- Formatting -----

  /** Every NUL that is followed by a character other than NUL becomes CRLF. */
  function Formatted(s: seq<char>): seq<char> {
    if s == [] then []
    else (if s[0] == NUL && |s| > 1 && s[1] != NUL then CRLF else [s[0]]) + Formatted(s[1..])
  }

  function Breaks(s: seq<char>): nat {
    if s == [] then 0
    else (if s[0] == NUL && |s| > 1 && s[1] != NUL then 1 else 0) + Breaks(s[1..])
  }

  lemma {:induction false} FormattedLength(s: seq<char>)
    ensures |Formatted(s)| == |s| + Breaks(s)
  {
    if s != [] {
      FormattedLength(s[1..]);
    }
  }

  lemma {:induction false} FormattedPlain(x: seq<char>, rest: seq<char>)
    requires Plain(x)
    ensures Formatted(x + rest) == x + Formatted(rest)
  {
    if x == [] {
      assert x + rest == rest;
    } else {
      assert (x + rest)[1..] == x[1..] + rest && (x + rest)[0] == x[0];
      FormattedPlain(x[1..], rest);
      assert [x[0]] + (x[1..] + Formatted(rest)) == x + Formatted(rest);
    }
  }

  predicate PlainStrings(xs: seq<seq<char>>) {
    forall x <- xs :: x != [] && Plain(x)
  }

  lemma FormattedNul(rest: seq<char>)
    requires rest != []
    ensures Formatted([NUL] + rest) == (if rest[0] != NUL then CRLF else [NUL]) + Formatted(rest)
  {
    assert ([NUL] + rest)[1..] == rest;
  }

  lemma JoinCons(x: seq<char>, xs: seq<seq<char>>)
    ensures Join([x] + xs) == if xs == [] then x else x + CRLF + Join(xs)
  {
    assert ([x] + xs)[1..] == xs;
  }

  lemma BlockCons(x: seq<char>, xs: seq<seq<char>>)
    ensures Block([x] + xs) == x + ([NUL] + Block(xs))
  {
    assert ([x] + xs)[1..] == xs;
    assert x + [NUL] + Block(xs) == x + ([NUL] + Block(xs));
  }

  lemma BlockStart(xs: seq<seq<char>>)
    requires PlainStrings(xs)
    ensures Block(xs) != [] && (Block(xs)[0] == NUL <==> xs == [])
  {
    if xs != [] {
      assert xs[0] in xs;
      assert Block(xs)[0] == xs[0][0];
    }
  }

  /** Formatting the block of a list gives its lines and the two closing NULs. */
  lemma {:induction false} FormattedBlock(xs: seq<seq<char>>)
    requires PlainStrings(xs) && xs != []
    ensures Formatted(Block(xs)) == Join(xs) + [NUL, NUL]
  {
    hide Formatted, Block, Join;
    var x, more := xs[0], xs[1..];
    assert x in xs && xs == [x] + more;
    BlockCons(x, more);
    BlockStart(more);
    FormattedPlain(x, [NUL] + Block(more));
    FormattedNul(Block(more));
    JoinCons(x, more);
    if more != [] {
      FormattedBlock(more);
      assert x + (CRLF + (Join(more) + [NUL, NUL])) == (x + CRLF + Join(more)) + [NUL, NUL];
    } else {
      EmptyBlock();
    }
  }

  lemma EmptyBlock()
    ensures Block([]) == [NUL] && Formatted([NUL]) == [NUL]
  {
    assert [NUL][1..] == [] && Formatted([]) == [];
  }

  method FormattedSize(dn: array<char>, dnlen: nat) returns (newlen: nat)
    requires dnlen < dn.Length && dn[dnlen] == NUL
    ensures newlen == |Formatted(dn[..dnlen])|
  {
    newlen := dnlen;
    ghost var s := dn[..dnlen];
    for i := 0 to dnlen
      invariant newlen + Breaks(s[i..]) == dnlen + Breaks(s)
    {
      assert s[i..][1..] == s[i + 1..];
      if dn[i] == NUL && dn[i + 1] != NUL {
        newlen := newlen + 1;
      }
    }
    FormattedLength(s);
  }

  /** One step of the filling loop. */
  lemma FormattedStep(s: seq<char>, i: nat)
    requires i < |s|
    ensures Formatted(s[i..])
         == (if s[i] == NUL && i + 1 < |s| && s[i + 1] != NUL then CRLF else [s[i]]) + Formatted(s[i + 1..])
  {
    assert s[i..][1..] == s[i + 1..];
  }

  /** `format_double_null`; the slot after the block is read and must hold NUL. */
  method FormatDoubleNull(dn: array<char>, dnlen: nat) returns (formatted: array?<char>, newlen: nat)
    requires dnlen < dn.Length && dn[dnlen] == NUL
    ensures dnlen == 0 ==> formatted == null && newlen == 0
    ensures dnlen > 0 ==> formatted != null && fresh(formatted)
                          && formatted[..] == Formatted(dn[..dnlen]) && newlen == formatted.Length
  {
    if dnlen == 0 {
      return null, 0;
    }
    newlen := FormattedSize(dn, dnlen);
    formatted := new char[newlen](_ => NUL);
    Fill(dn, dnlen, formatted);
  }

  /** The filling loop. */
  method Fill(dn: array<char>, dnlen: nat, out: array<char>)
    requires dnlen < dn.Length && dn[dnlen] == NUL && dn != out
    requires out.Length == |Formatted(dn[..dnlen])|
    modifies out
    ensures out[..] == Formatted(dn[..dnlen])
  {
    hide Formatted;
    ghost var s := dn[..dnlen];
    ghost var done: seq<char> := [];
    var j := 0;
    assert s[0..] == s;
    for i := 0 to dnlen
      invariant j == |done| <= out.Length
      invariant done + Formatted(s[i..]) == Formatted(s)
      invariant out[..j] == done
    {
      FormattedStep(s, i);
      ghost var piece := if s[i] == NUL && i + 1 < |s| && s[i + 1] != NUL then CRLF else [s[i]];
      assert done + piece + Formatted(s[i + 1..]) == Formatted(s);
      out[j] := dn[i];
      if dn[i] == NUL {
        if dn[i + 1] != NUL {
          out[j] := CR;
          j := j + 1;
          out[j] := LF;
        }
      }
      j := j + 1;
      done := done + piece;
    }
    FormattedEmpty(s[dnlen..]);
    assert out[..j] == out[..];
  }

  lemma FormattedEmpty(s: seq<char>)
    ensures s == [] ==> Formatted(s) == []
  {
  }

  // ----- Blank lines -----

  lemma {:induction false} SplitAppend(a: seq<char>, r: seq<char>)
    ensures Split(a + CRLF + r) == Split(a) + Split(r)
    decreases |a|
  {
    if a == [] {
      assert a + CRLF + r == CRLF + r && (CRLF + r)[2..] == r;
    } else if IsCrlf(a, 0) {
      assert (a + CRLF + r)[2..] == a[2..] + CRLF + r;
      SplitAppend(a[2..], r);
    } else {
      assert (a + CRLF + r)[1..] == a[1..] + CRLF + r;
      SplitAppend(a[1..], r);
    }
  }

  lemma {:induction false} NonemptyAppend(a: seq<seq<char>>, b: seq<seq<char>>)
    ensures Nonempty(a + b) == Nonempty(a) + Nonempty(b)
  {
    if a == [] {
      assert a + b == b;
    } else {
      assert (a + b)[1..] == a[1..] + b;
      NonemptyAppend(a[1..], b);
    }
  }

  lemma EmptyLineDrops(lines: seq<seq<char>>)
    ensures Nonempty([[]] + lines) == Nonempty(lines)
  {
    assert ([[]] + lines)[1..] == lines;
    assert [] + Nonempty(lines) == Nonempty(lines);
  }

  /** Taking out a CRLF that starts the text changes no line. */
  lemma RemovingFirst(r: seq<char>)
    requires r != []
    ensures Clean(r) == Clean(CRLF + r)
  {
    SplitAppend([], r);
    assert [] + CRLF + r == CRLF + r;
    EmptyLineDrops(Split(r));
    assert (CRLF + r)[2..] == r;
    assert EndsCrlf(r) <==> EndsCrlf(CRLF + r);
  }

  /** Taking out one of two CRLFs in a row changes no line. */
  lemma RemovingDoubled(a: seq<char>, q: seq<char>)
    ensures Clean(a + CRLF + q) == Clean(a + CRLF + (CRLF + q))
  {
    SplitAppend(a, q);
    SplitAppend(a, CRLF + q);
    SplitAppend([], q);
    assert [] + CRLF + q == CRLF + q;
    NonemptyAppend(Split(a), Split(q));
    NonemptyAppend(Split(a), [[]] + Split(q));
    EmptyLineDrops(Split(q));
    var t := a + CRLF + q;
    assert EndsCrlf(t) <==> EndsCrlf(a + CRLF + (CRLF + q));
  }

  lemma RemovingBlank(s: seq<char>, i: nat)
    requires IsCrlf(s, i) && i + 2 < |s| && (i == 0 || IsCrlf(s, i + 2))
    ensures Clean(s[..i] + s[i + 2..]) == Clean(s)
  {
    if i == 0 {
      assert s == CRLF + s[2..] && s[..0] + s[2..] == s[2..];
      RemovingFirst(s[2..]);
    } else {
      var a, q := s[..i], s[i + 4..];
      assert s == a + CRLF + (CRLF + q);
      assert s[..i] + s[i + 2..] == a + CRLF + q;
      RemovingDoubled(a, q);
    }
  }

  // ----- Text without blank lines is left alone -----

  /** No CRLF starts a line. */
  predicate NoBlank(s: seq<char>, atStart: bool) {
    if s == [] then true
    else if IsCrlf(s, 0) then !atStart && NoBlank(s[2..], true)
    else NoBlank(s[1..], false)
  }

  /** What follows the first line: each nonempty line after its CRLF, and a final CRLF if the last is empty. */
  function Tail(lines: seq<seq<char>>): seq<char> {
    if lines == [] then []
    else if |lines| == 1 then CRLF + lines[0]
    else (if lines[0] == [] then [] else CRLF + lines[0]) + Tail(lines[1..])
  }

  lemma SplitStep(s: seq<char>)
    ensures s == [] ==> Split(s) == [[]]
    ensures IsCrlf(s, 0) ==> Split(s) == [[]] + Split(s[2..])
    ensures s != [] && !IsCrlf(s, 0) ==> Split(s) == [[s[0]] + Split(s[1..])[0]] + Split(s[1..])[1..]
  {}

  lemma NoBlankStep(s: seq<char>, atStart: bool)
    requires s != [] && NoBlank(s, atStart)
    ensures if IsCrlf(s, 0) then !atStart && NoBlank(s[2..], true) else NoBlank(s[1..], false)
  {}

  lemma {:induction false} NoBlankTail(s: seq<char>, atStart: bool)
    requires NoBlank(s, atStart)
    ensures var lines := Split(s);
            s == lines[0] + Tail(lines[1..]) && (atStart && lines[0] == [] ==> s == [])
    decreases |s|
  {
    hide Split, Tail, NoBlank;
    var lines := Split(s);
    SplitStep(s);
    if s == [] {
      EmptyLists();
      assert lines[1..] == [] && lines[0] + Tail([]) == s;
    } else {
      NoBlankStep(s, atStart);
      if IsCrlf(s, 0) {
        var rest := Split(s[2..]);
        NoBlankTail(s[2..], true);
        SplitStep(s[2..]);
        TailOfLines(rest);
        assert lines[0] == [] && lines[1..] == rest;
        assert s == CRLF + s[2..] == Tail(rest) == [] + Tail(rest);
      } else {
        var rest := Split(s[1..]);
        NoBlankTail(s[1..], false);
        assert lines[0] == [s[0]] + rest[0] && lines[1..] == rest[1..];
        assert s == [s[0]] + s[1..] == ([s[0]] + rest[0]) + Tail(rest[1..]);
      }
    }
  }

  lemma TailOfLines(lines: seq<seq<char>>)
    requires |lines| == 1 || (|lines| > 1 && lines[0] != [])
    ensures Tail(lines) == CRLF + (lines[0] + Tail(lines[1..]))
  {
  }

  lemma NonemptyCons(first: seq<char>, lines: seq<seq<char>>)
    ensures Nonempty([first] + lines) == if first == [] then Nonempty(lines) else [first] + Nonempty(lines)
  {
    assert ([first] + lines)[1..] == lines;
    assert [] + Nonempty(lines) == Nonempty(lines);
  }

  lemma TailCons(first: seq<char>, lines: seq<seq<char>>)
    ensures Tail([first] + lines)
         == if lines == [] then CRLF + first else (if first == [] then Tail(lines) else CRLF + first + Tail(lines))
  {
    assert ([first] + lines)[1..] == lines;
    assert [] + Tail(lines) == Tail(lines);
  }

  lemma Reassociate(a: seq<char>, b: seq<char>, c: seq<char>, d: seq<char>, e: seq<char>)
    requires b + c == d + e
    ensures a + (CRLF + b + c) == (a + CRLF + d) + e
    ensures a + (CRLF + b) + c == (a + CRLF + d) + e
  {
    assert a + (CRLF + b + c) == a + CRLF + (b + c);
    assert (a + CRLF + d) + e == a + CRLF + (d + e);
    assert a + (CRLF + b) + c == a + CRLF + (b + c);
  }

  lemma {:induction false} TailIsJoin(first: seq<char>, lines: seq<seq<char>>)
    requires first != []
    ensures first + Tail(lines)
         == Join([first] + Nonempty(lines)) + if |lines| > 0 && lines[|lines| - 1] == [] then CRLF else []
    decreases |lines|
  {
    hide Tail, Join, Nonempty;
    if lines == [] {
      EmptyLists();
      JoinCons(first, []);
    } else {
      var second, rest := lines[0], lines[1..];
      assert lines == [second] + rest;
      TailCons(second, rest);
      NonemptyCons(second, rest);
      if second != [] {
        TailIsJoin(second, rest);
        JoinCons(first, Nonempty(lines));
        EmptyLists();
        Reassociate(first, second, Tail(rest), Join(Nonempty(lines)), if lines[|lines| - 1] == [] then CRLF else []);
      } else if rest == [] {
        EmptyLists();
        JoinCons(first, []);
      } else {
        TailIsJoin(first, rest);
      }
    }
  }

  lemma EmptyLists()
    ensures Tail([]) == [] && Nonempty([]) == []
  {
  }

  lemma EndsCrlfSuffix(s: seq<char>, k: nat)
    requires k + 2 <= |s|
    ensures EndsCrlf(s[k..]) <==> EndsCrlf(s)
  {
  }

  lemma {:induction false} LastLineEmpty(s: seq<char>)
    requires s != []
    ensures EndsCrlf(s) <==> |Split(s)| > 1 && Split(s)[|Split(s)| - 1] == []
    decreases |s|
  {
    var k := if IsCrlf(s, 0) then 2 else 1;
    if |s| > k {
      LastLineEmpty(s[k..]);
      if |s| >= k + 2 {
        EndsCrlfSuffix(s, k);
      } else {
        assert s[k..] == [s[k]];
        LineOfOne(s[k]);
      }
    } else if k == 2 {
      assert s == CRLF;
      LinesOfCrlf();
    } else {
      assert s == [s[0]];
      LineOfOne(s[0]);
    }
  }

  lemma LineOfOne(c: char)
    ensures Split([c]) == [[c]]
  {
    assert [c][1..] == [];
    assert [c] + [] == [c];
  }

  lemma LinesOfCrlf()
    ensures Split(CRLF) == [[], []]
  {
    assert CRLF[2..] == [];
  }

  lemma BlankLines()
    ensures Nonempty([[], []]) == []
  {
    var one: seq<seq<char>>, none: seq<seq<char>> := [[]], [];
    EmptyLineDrops(one);
    EmptyLineDrops(none);
    assert one + one == [[], []] && one + none == one;
  }

  lemma CleanIsFixed(s: seq<char>)
    requires s != [] && (s == CRLF || NoBlank(s, true))
    ensures Clean(s) == s
  {
    if s == CRLF {
      BlankLines();
      LinesOfCrlf();
    } else {
      var lines := Split(s);
      NoBlankTail(s, true);
      LastLineEmpty(s);
      TailIsJoin(lines[0], lines[1..]);
      assert [lines[0]] + lines[1..] == lines;
      NonemptyCons(lines[0], lines[1..]);
    }
  }

  // ----- Unformatting -----

  lemma {:induction false} StripAppend(a: seq<char>, b: seq<char>)
    ensures Strip(a + b) == Strip(a) + Strip(b)
  {
    if a == [] {
      assert a + b == b;
    } else {
      assert (a + b)[1..] == a[1..] + b;
      StripAppend(a[1..], b);
    }
  }

  lemma StripCrlf()
    ensures Strip(CRLF) == [NUL]
  {
    assert CRLF[1..] == [LF] && [LF][1..] == [];
    assert Strip([LF]) == [NUL] + Strip([]);
  }

  lemma StripStep(s: seq<char>, i: nat)
    requires i < |s|
    ensures Strip(s[i..]) == (if s[i] == CR then [] else if s[i] == LF then [NUL] else [s[i]]) + Strip(s[i + 1..])
  {
    assert s[i..][1..] == s[i + 1..];
  }

  lemma StripEmpty()
    ensures Strip([]) == []
  {
  }

  /** The CRLFs before `i` neither start the text nor stand before another. */
  predicate Scanned(s: seq<char>, i: nat) {
    forall k :: 0 <= k < i && IsCrlf(s, k) ==> k > 0 && !IsCrlf(s, k + 2)
  }

  lemma AfterAnyLine(s: seq<char>)
    requires NoBlank(s, true)
    ensures NoBlank(s, false)
  {
  }

  lemma {:induction false} ScannedHasNoBlank(s: seq<char>, i: nat, k: nat)
    requires Scanned(s, i) && k <= |s| && (i == |s| || i == |s| - 2) && s != CRLF
    requires i == |s| - 2 ==> IsCrlf(s, i)
    ensures NoBlank(s[k..], k == 0 || IsCrlf(s, k - 2))
    decreases |s| - k
  {
    if k < |s| {
      assert IsCrlf(s[k..], 0) <==> IsCrlf(s, k);
      if IsCrlf(s, k) {
        ScannedHasNoBlank(s, i, k + 2);
        assert s[k..][2..] == s[k + 2..];
        assert k == 0 ==> |s| == 2 && s == CRLF;
        assert IsCrlf(s, k - 2) ==> k - 2 < i;
      } else {
        ScannedHasNoBlank(s, i, k + 1);
        assert s[k..][1..] == s[k + 1..];
        if IsCrlf(s, k - 1) {
          AfterAnyLine(s[k + 1..]);
        }
      }
    }
  }

  lemma ScannedIsClean(s: seq<char>, i: nat)
    requires s != [] && Scanned(s, i)
    requires i == |s| || (i == |s| - 2 && IsCrlf(s, i))
    ensures Clean(s) == s
  {
    if s != CRLF {
      ScannedHasNoBlank(s, i, 0);
      assert s[0..] == s;
    }
    CleanIsFixed(s);
  }

  /** Move the characters from `i + 2` on two places left, and clear the two slots past the end. */
  method ShiftLeft(dn: array<char>, len: nat, i: nat)
    requires i + 2 < len < dn.Length
    modifies dn
    ensures dn[..len - 2] == old(dn[..i]) + old(dn[i + 2..len])
  {
    for j := i + 2 to len
      invariant forall x :: 0 <= x < i ==> dn[x] == old(dn[x])
      invariant forall x :: i <= x < j - 2 ==> dn[x] == old(dn[x + 2])
      invariant forall x :: j - 2 <= x < dn.Length ==> dn[x] == old(dn[x])
    {
      dn[j - 2] := dn[j];
    }
    dn[len] := NUL;
    dn[len - 1] := NUL;
  }

  /** Taking one blank line out before position `i` of the scan. */
  lemma RemoveStep(s: seq<char>, i: nat)
    requires IsCrlf(s, i) && i + 2 < |s| && (i == 0 || IsCrlf(s, i + 2)) && !EndsInCr(s) && Scanned(s, i)
    ensures var t := s[..i] + s[i + 2..];
            && t != [] && Clean(t) == Clean(s) && !EndsInCr(t) && |Strip(t)| == |Strip(s)| - 1 && Scanned(t, i)
  {
    hide Clean, Strip;
    RemovingBlank(s, i);
    StripAppend(s[..i] + CRLF, s[i + 2..]);
    StripAppend(s[..i], CRLF);
    StripAppend(s[..i], s[i + 2..]);
    StripCrlf();
    assert s == s[..i] + CRLF + s[i + 2..];
    ScannedCut(s, i);
  }

  lemma ScannedCut(s: seq<char>, i: nat)
    requires IsCrlf(s, i) && i + 2 < |s| && (i == 0 || IsCrlf(s, i + 2)) && Scanned(s, i)
    ensures Scanned(s[..i] + s[i + 2..], i)
  {
    var t := s[..i] + s[i + 2..];
    forall k | 0 <= k < i && IsCrlf(t, k)
      ensures k > 0 && !IsCrlf(t, k + 2)
    {
      assert k + 1 < i && IsCrlf(s, k);
      assert IsCrlf(t, k + 2) ==> IsCrlf(s, k + 2);
    }
  }

  /** The blank-line loop, with the running count of characters that are not CR. */
  method SkipBlankLines(dn: array<char>, dnlen: nat, count: nat) returns (len: nat, newlen: nat)
    requires 0 < dnlen < dn.Length && !EndsInCr(dn[..dnlen]) && count == |Strip(dn[..dnlen])|
    modifies dn
    ensures len < dn.Length
    ensures dn[..len] == Clean(old(dn[..dnlen]))
    ensures newlen == |Strip(dn[..len])|
  {
    hide Clean, Strip;
    len, newlen := dnlen, count;
    var i := 0;
    ghost var s := dn[..dnlen];
    while i < len
      invariant 0 < len < dn.Length && i <= len && dn[..len] == s && |s| == len
      invariant !EndsInCr(s) && Clean(s) == Clean(old(dn[..dnlen])) && newlen == |Strip(s)|
      invariant Scanned(s, i)
      decreases len - i
    {
      if dn[i] == CR && dn[i + 1] == LF {
        assert IsCrlf(s, i);
        if i >= len - 2 {
          break;
        }
        if i == 0 || (dn[i + 2] == CR && dn[i + 3] == LF) {
          assert i > 0 ==> IsCrlf(s, i + 2);
          RemoveStep(s, i);
          ShiftLeft(dn, len, i);
          s := s[..i] + s[i + 2..];
          len := len - 2;
          newlen := newlen - 1;
        } else {
          i := i + 1;
        }
      } else {
        i := i + 1;
      }
    }
    ScannedIsClean(s, i);
  }

  /**
   `unformat_double_null` on text that does not end in a CR: the blank lines are
   taken out in place, and what is left becomes a block with two closing NULs.
   */
  method UnformatDoubleNull(dn: array<char>, dnlen: nat) returns (unformatted: array?<char>, newlen: nat)
    requires dnlen < dn.Length && !EndsInCr(dn[..dnlen])
    modifies dn
    ensures dnlen == 0 ==> unformatted == null && newlen == 0
    ensures dnlen > 0 ==> unformatted != null && fresh(unformatted) && newlen == unformatted.Length
                          && unformatted[..] == Strip(Clean(old(dn[..dnlen]))) + [NUL, NUL]
  {
    if dnlen == 0 {
      return null, 0;
    }
    var count := 0;
    ghost var text := dn[..dnlen];
    assert text[0..] == text;
    for i := 0 to dnlen
      invariant count + |Strip(text[i..])| == |Strip(text)| && dn[..dnlen] == text
    {
      StripStep(text, i);
      if dn[i] != CR {
        count := count + 1;
      }
    }
    var len;
    len, newlen := SkipBlankLines(dn, dnlen, count);
    newlen := newlen + 2;
    unformatted := new char[newlen](_ => NUL);
    FillBlock(dn, len, unformatted);
  }

  /** The filling loop; the output starts zeroed. */
  method FillBlock(dn: array<char>, len: nat, out: array<char>)
    requires len < dn.Length && dn != out && out.Length == |Strip(dn[..len])| + 2
    requires forall k :: 0 <= k < out.Length ==> out[k] == NUL
    modifies out
    ensures out[..] == Strip(dn[..len]) + [NUL, NUL]
  {
    hide Strip;
    ghost var s := dn[..len];
    ghost var done: seq<char> := [];
    var j := 0;
    assert s[0..] == s;
    for i := 0 to len
      invariant j == |done| && |done| + |Strip(s[i..])| + 2 == out.Length
      invariant done + Strip(s[i..]) == Strip(s)
      invariant out[..j] == done
      invariant forall k :: j <= k < out.Length ==> out[k] == NUL
    {
      StripStep(s, i);
      ghost var piece := if s[i] == CR then [] else if s[i] == LF then [NUL] else [s[i]];
      assert done + piece + Strip(s[i + 1..]) == Strip(s);
      if dn[i] != CR {
        if dn[i] == LF {
          out[j] := NUL;
        } else {
          out[j] := dn[i];
        }
        j := j + 1;
      }
      done := done + piece;
    }
    StripEmpty();
    assert s[len..] == [];
    assert out[j..] == [NUL, NUL];
    assert out[..] == out[..j] + out[j..];
  }

  // ----- Round trips -----

  lemma PlainHasNoCr(x: seq<char>)
    requires Plain(x)
    ensures !EndsInCr(x) && Strip(x) == x && Split(x) == [x]
  {
    if x != [] {
      PlainHasNoCr(x[1..]);
      assert x == [x[0]] + x[1..];
      assert [[x[0]] + x[1..]] + [] == [x];
    }
  }

  /** Joined plain lines are text that splits into them again. */
  lemma {:induction false} SplitJoin(xs: seq<seq<char>>)
    requires xs != [] && forall x <- xs :: Plain(x)
    ensures Split(Join(xs)) == xs && !EndsInCr(Join(xs))
  {
    var x, more := xs[0], xs[1..];
    assert xs == [x] + more && x in xs;
    JoinCons(x, more);
    PlainHasNoCr(x);
    if more != [] {
      SplitJoin(more);
      SplitAppend(x, Join(more));
    }
  }

  lemma {:induction false} NonemptyFixed(xs: seq<seq<char>>)
    requires forall x <- xs :: x != []
    ensures Nonempty(xs) == xs
  {
    if xs != [] {
      assert xs[0] in xs && forall x <- xs[1..] :: x in xs;
      NonemptyFixed(xs[1..]);
    }
  }

  /** Stripping joined plain lines gives their block, short of its closing NULs. */
  lemma {:induction false} StripJoin(xs: seq<seq<char>>)
    requires xs != [] && forall x <- xs :: Plain(x)
    ensures Strip(Join(xs)) + [NUL, NUL] == Block(xs)
  {
    hide Strip, Join, Block;
    var x, more := xs[0], xs[1..];
    assert xs == [x] + more && x in xs;
    JoinCons(x, more);
    BlockCons(x, more);
    PlainHasNoCr(x);
    if more == [] {
      EmptyBlock();
    } else {
      StripJoin(more);
      StripAppend(x + CRLF, Join(more));
      StripAppend(x, CRLF);
      StripCrlf();
      assert (x + [NUL] + Strip(Join(more))) + [NUL, NUL] == x + ([NUL] + (Strip(Join(more)) + [NUL, NUL]));
    }
  }

  lemma PlainMembers(xs: seq<seq<char>>)
    requires PlainStrings(xs)
    ensures forall x <- xs :: Plain(x) && NUL !in x && x != []
  {}

  /**
   For every nonempty list of plain nonempty strings, formatting its block and
   unformatting the text before the closing NULs restores the block exactly.
   */
  lemma RoundTrip(xs: seq<seq<char>>)
    requires PlainStrings(xs) && xs != []
    ensures Formatted(Block(xs)) == Join(xs) + [NUL, NUL]
    ensures !EndsInCr(Join(xs)) && NUL !in Join(xs)
    ensures Strip(Clean(Join(xs))) + [NUL, NUL] == Block(xs)
  {
    hide Formatted, Strip, Join, Block, Split, Nonempty, PlainStrings;
    PlainMembers(xs);
    FormattedBlock(xs);
    SplitJoin(xs);
    NonemptyFixed(xs);
    JoinMembers(xs);
    LastLineEmpty(Join(xs));
    assert xs[|xs| - 1] in xs;
    assert Join(xs) + [] == Join(xs);
    StripJoin(xs);
  }

  lemma {:induction false} JoinMembers(xs: seq<seq<char>>)
    requires xs != [] && PlainStrings(xs)
    ensures NUL !in Join(xs) && Join(xs) != []
  {
    var x, more := xs[0], xs[1..];
    assert xs == [x] + more && x in xs;
    JoinCons(x, more);
    if more != [] {
      JoinMembers(more);
    }
  }

  lemma {:induction false} FirstLength(x: seq<char>, tail: seq<char>)
    requires NUL !in x
    ensures ReadString(x + ([NUL] + tail)) == |x|
  {
    if x != [] {
      assert (x + ([NUL] + tail))[1..] == x[1..] + ([NUL] + tail);
      FirstLength(x[1..], tail);
    }
  }

  lemma ReadFirst(x: seq<char>, tail: seq<char>)
    requires NUL !in x && x != []
    ensures ReadBlock(x + ([NUL] + tail)) == [x] + ReadBlock(tail)
  {
    hide ReadString;
    FirstLength(x, tail);
    var s := x + ([NUL] + tail);
    assert s[..|x|] == x && s[|x| + 1..] == tail;
  }

  lemma {:induction false} ReadWritten(xs: seq<seq<char>>, more: seq<char>)
    requires PlainStrings(xs)
    ensures ReadBlock(Block(xs) + more) == xs
  {
    hide ReadBlock, Block, PlainStrings;
    if xs == [] {
      EmptyBlock();
      NothingToRead([NUL] + more);
    } else {
      var x, rest := xs[0], xs[1..];
      PlainMembers(xs);
      PlainRest(xs);
      assert xs == [x] + rest && x in xs;
      BlockCons(x, rest);
      assert Block(xs) + more == x + ([NUL] + (Block(rest) + more));
      ReadFirst(x, Block(rest) + more);
      ReadWritten(rest, more);
    }
  }

  lemma PlainRest(xs: seq<seq<char>>)
    requires PlainStrings(xs) && xs != []
    ensures PlainStrings(xs[1..])
  {
    assert forall x <- xs[1..] :: x in xs;
  }

  /** What unformatting leaves, for CRLF text with plain lines: a reader finds exactly the nonempty lines. */
  lemma ReaderFindsLines(text: seq<char>)
    requires text != [] && forall x <- Split(text) :: Plain(x)
    ensures var kept := Nonempty(Split(text));
            var block := Strip(Clean(text)) + [NUL, NUL];
            && ReadBlock(block) == kept
            && (kept != [] ==> block == Block(kept) + if EndsCrlf(text) then [NUL] else [])
  {
    hide Strip, Join, Block, Split, Nonempty, ReadBlock;
    var kept := Nonempty(Split(text));
    var stripped, end := Strip(Join(kept)), if EndsCrlf(text) then CRLF else [];
    StripAppend(Join(kept), end);
    StripCrlf();
    StripEmpty();
    if kept == [] {
      NothingToRead(stripped + Strip(end) + [NUL, NUL]);
      assert Join(kept) == [] by { EmptyJoin(); }
    } else {
      StripJoin(kept);
      var extra := if EndsCrlf(text) then [NUL] else [];
      assert stripped + extra + [NUL, NUL] == (stripped + [NUL, NUL]) + extra;
      ReadWritten(kept, extra);
    }
  }

  lemma EmptyJoin()
    ensures Join([]) == []
  {
  }

  lemma NothingToRead(s: seq<char>)
    ensures s != [] && s[0] == NUL ==> ReadBlock(s) == []
  {
  }
}
