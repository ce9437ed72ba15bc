/** The integer parser, and the decimal part of the float parser. */
module Numparse {
  import opened Arithmetic
  import opened Wrappers
  import opened Codec
  import opened Swar

  const MINUS: byte := 45
  const PLUS: byte := 43
  const DOT: byte := 46

  function Pow10(k: nat): (p: nat)
    ensures p > 0
  {
    if k == 0 then 1 else 10 * Pow10(k - 1)
  }

  // ---------- the naive meaning ----------

  /** End of the run of digits from i on. */
  function RunEnd(s: seq<byte>, i: nat): (e: nat)
    requires i <= |s|
    ensures i <= e <= |s| && (forall k :: i <= k < e ==> IsDigit(s[k])) && (e < |s| ==> !IsDigit(s[e]))
    decreases |s| - i
  {
    if i < |s| && IsDigit(s[i]) then RunEnd(s, i + 1) else i
  }

  function SignLength(s: seq<byte>): nat {
    if s != [] && (s[0] == MINUS || s[0] == PLUS) then 1 else 0
  }

  /** Length and value of the integer s starts with: a sign and the digits that follow; it
      is there if there is a digit and the value fits 64 bits. */
  function Integer(s: seq<byte>): Option<(nat, int)> {
    var i := SignLength(s);
    var e := RunEnd(s, i);
    var n := Number(s, i, e);
    var v := if s != [] && s[0] == MINUS then -n else n;
    if e == i || v > INT64_MAX || v < -INT64_MAX - 1 then None else Some((e, v))
  }

  // ---------- numbers written by digits ----------

  lemma {:induction false} NumberBounds(s: seq<byte>, i: nat, j: nat)
    requires i <= j <= |s| && forall k :: i <= k < j ==> IsDigit(s[k])
    ensures 0 <= Number(s, i, j) < Pow10(j - i)
    decreases j
  {
    if i < j { NumberBounds(s, i, j - 1); }
  }

  /** Leading zeros do not count. */
  lemma {:induction false} NumberZeros(s: seq<byte>, i: nat, z: nat, j: nat)
    requires i <= z <= j <= |s| && forall k :: i <= k < z ==> s[k] == ZERO
    ensures Number(s, i, j) == Number(s, z, j)
    decreases j
  {
    if i < j {
      if z < j { NumberZeros(s, i, z, j - 1); } else { NumberZeros(s, i, z - 1, j - 1); assert Number(s, z - 1, j - 1) == 0; }
    }
  }

  lemma Tenfold(a: int, p: int)
    ensures a * (10 * p) == 10 * (a * p)
  {
  }

  lemma {:induction false} NumberSplit(s: seq<byte>, i: nat, m: nat, j: nat)
    requires i <= m <= j <= |s|
    ensures Number(s, i, j) == Number(s, i, m) * Pow10(j - m) + Number(s, m, j)
    decreases j
  {
    if m < j {
      NumberSplit(s, i, m, j - 1);
      Tenfold(Number(s, i, m), Pow10(j - 1 - m));
    }
  }

  /** The number written by a slice, where it stands. */
  lemma {:induction false} NumberSlice(s: seq<byte>, i: nat, n: nat, k: nat)
    requires i + n <= |s| && k <= n
    ensures Number(s[i..i + n], 0, k) == Number(s, i, i + k)
    decreases k
  {
    if k > 0 { NumberSlice(s, i, n, k - 1); }
  }

  lemma EightDigits(s: seq<byte>, i: nat)
    requires i + 8 <= |s| && AllDigits(s[i..i + 8])
    ensures Fold8(Load(s[i..i + 8])) == Number(s, i, i + 8) && 0 <= Number(s, i, i + 8) < 100000000
    ensures forall k :: i <= k < i + 8 ==> IsDigit(s[k])
  {
    var p := s[i..i + 8];
    Fold8IsNumber(p);
    NumberSlice(s, i, 8, 8);
    forall k | i <= k < i + 8 ensures IsDigit(s[k]) { assert p[k - i] == s[k]; }
  }

  /** Many digits without a leading zero make a large number. */
  lemma {:induction false} NumberLarge(s: seq<byte>, i: nat, j: nat)
    requires i < j <= |s| && (forall k :: i <= k < j ==> IsDigit(s[k])) && s[i] != ZERO
    ensures Number(s, i, j) >= Pow10(j - i - 1)
    decreases j
  {
    if j == i + 1 {
      assert Number(s, i, i) == 0;
    } else {
      NumberLarge(s, i, j - 1);
    }
  }

  /** Eight digits at i: a word is loaded and tested at once. */
  method Word8(s: seq<byte>, i: nat) returns (ok: bool, v: nat)
    requires i <= |s|
    ensures ok <==> i + 8 <= |s| && forall k :: i <= k < i + 8 ==> IsDigit(s[k])
    ensures ok ==> v == Number(s, i, i + 8) < 100000000
  {
    ok, v := false, 0;
    if i + 8 > |s| { return; }
    var p := s[i..i + 8];
    TestIsExact(p);
    if !AllDigitsTest(Load(p), 8) {
      var k :| 0 <= k < 8 && !IsDigit(p[k]);
      assert s[i + k] == p[k];
      return;
    }
    EightDigits(s, i);
    return true, Fold8(Load(p));
  }

  method SkipZeros(s: seq<byte>, start: nat) returns (i: nat)
    requires start <= |s|
    ensures start <= i <= RunEnd(s, start) && (forall k :: start <= k < i ==> s[k] == ZERO) && (i < |s| ==> s[i] != ZERO)
    ensures RunEnd(s, i) == RunEnd(s, start)
  {
    i := start;
    while i < |s| && s[i] == ZERO
      invariant start <= i <= RunEnd(s, start) && RunEnd(s, i) == RunEnd(s, start) && forall k :: start <= k < i ==> s[k] == ZERO
    {
      i := i + 1;
    }
  }

  lemma {:induction false} RunOn(s: seq<byte>, i: nat, j: nat)
    requires i <= j <= |s| && forall k :: i <= k < j ==> IsDigit(s[k])
    ensures RunEnd(s, i) == RunEnd(s, j)
    decreases j - i
  {
    if i < j { RunOn(s, i + 1, j); }
  }

  const U64: nat := 0x1_0000_0000_0000_0000

  /** Up to 16 digits, in words of eight. */
  method Words(s: seq<byte>, sig: nat) returns (i: nat, result: nat)
    requires sig <= |s|
    ensures sig <= i <= RunEnd(s, sig) && i <= sig + 16 && RunEnd(s, i) == RunEnd(s, sig)
    ensures result == Number(s, sig, i) < U64
  {
    i, result := sig, 0;
    var swar, v := Word8(s, i);
    if !swar { return; }
    result, i := v, i + 8;
    RunOn(s, sig, i);
    swar, v := Word8(s, i);
    if swar && result <= 922337203 {
      NumberSplit(s, sig, i, i + 8);
      PowTable();
      result, i := result * 100000000 + v, i + 8;
      RunOn(s, sig, i);
    }
  }

  /** Nineteen digits fit the unsigned accumulator. */
  lemma NoWrap(s: seq<byte>, sig: nat, i: nat)
    requires sig <= i <= |s| && i - sig <= 19 && forall k :: sig <= k < i ==> IsDigit(s[k])
    ensures 0 <= Number(s, sig, i) < U64
  {
    NumberBounds(s, sig, i);
    PowMono(i - sig, 19);
    PowTable();
  }

  /** The first digits in words, the rest one by one; more than 19 significant digits are
      refused before the accumulator could wrap. */
  method Accumulate(s: seq<byte>, sig: nat) returns (i: nat, result: nat, ok: bool)
    requires sig <= |s|
    ensures ok <==> RunEnd(s, sig) - sig <= 19
    ensures ok ==> i == RunEnd(s, sig) && result == Number(s, sig, i) < U64
  {
    i, result := Words(s, sig);
    while i < |s| && IsDigit(s[i])
      invariant sig <= i <= RunEnd(s, sig) && i - sig <= 19 && RunEnd(s, i) == RunEnd(s, sig)
      invariant result == Number(s, sig, i) < U64
    {
      if i - sig >= 19 { return i, 0, false; }
      NoWrap(s, sig, i + 1);
      result := result * 10 + Digit(s[i]);
      i := i + 1;
    }
    ok := true;
  }

  lemma {:induction false} PowMono(i: nat, j: nat)
    requires i <= j
    ensures Pow10(i) <= Pow10(j)
  {
    if i < j { PowMono(i, j - 1); }
  }

  lemma PowTable()
    ensures Pow10(8) == 100000000 && Pow10(15) == 1000000000000000 && Pow10(16) == 10000000000000000
    ensures Pow10(18) == 1000000000000000000 && Pow10(19) == 10000000000000000000
  {
    assert Pow10(4) == 10000;
    assert Pow10(8) == 10000 * Pow10(4);
    assert Pow10(12) == 10000 * Pow10(8);
    assert Pow10(15) == 1000 * Pow10(12);
    assert Pow10(16) == 10 * Pow10(15);
    assert Pow10(18) == 100 * Pow10(16);
  }

  /** The length parsed and the value stored; 0, and nothing stored, if there is none. */
  method ParseI64(s: seq<byte>, dst: array<int>) returns (n: nat)
    requires dst.Length == 1
    modifies dst
    ensures match Integer(s)
      case None => n == 0 && dst[0] == old(dst[0])
      case Some(r) => n == r.0 > 0 && dst[0] == r.1
  {
    if |s| == 0 { return 0; }
    var neg := s[0] == MINUS;
    var start := if neg || s[0] == PLUS then 1 else 0;
    if start == |s| { return 0; }
    var sig := SkipZeros(s, start);
    var i, result, ok := Accumulate(s, sig);
    ghost var e := RunEnd(s, start);
    NumberZeros(s, start, sig, e);
    if !ok {
      TooLarge(s, sig, e);
      return 0;
    }
    if i == start { return 0; }
    if neg {
      if result > INT64_MAX + 1 { return 0; }
      dst[0] := -result;
    } else {
      if result > INT64_MAX { return 0; }
      dst[0] := result;
    }
    return i;
  }

  /** Twenty significant digits never fit. */
  lemma TooLarge(s: seq<byte>, sig: nat, e: nat)
    requires sig <= e <= |s| && e - sig > 19 && (forall k :: sig <= k < e ==> IsDigit(s[k])) && s[sig] != ZERO
    ensures Number(s, sig, e) > INT64_MAX + 1
  {
    NumberLarge(s, sig, e);
    PowMono(19, e - sig - 1);
    PowTable();
  }

  // ---------- the decimal part of a float ----------

  /** n with the digits s[i..j] written behind it. */
  function Append(n: int, s: seq<byte>, i: nat, j: nat): int
    requires j <= |s|
    decreases j
  {
    if j <= i then n else Append(n, s, i, j - 1) * 10 + Digit(s[j - 1])
  }

  lemma {:induction false} AppendIs(n: int, s: seq<byte>, i: nat, j: nat)
    requires i <= j <= |s|
    ensures Append(n, s, i, j) == n * Pow10(j - i) + Number(s, i, j)
    decreases j
  {
    if i < j {
      AppendIs(n, s, i, j - 1);
      Tenfold(n, Pow10(j - 1 - i));
    }
  }

  lemma {:induction false} AppendMore(n: int, s: seq<byte>, i: nat, m: nat, j: nat)
    requires i <= m <= j <= |s|
    ensures Append(n, s, i, j) == Append(Append(n, s, i, m), s, m, j)
    decreases j
  {
    if m < j { AppendMore(n, s, i, m, j - 1); }
  }

  const MAX_DIGITS: nat := 18

  /** mantissa * 10^dropped <= n < (mantissa + 1) * 10^dropped. */
  ghost predicate Bracket(mantissa: int, dropped: nat, n: int) {
    mantissa * Pow10(dropped) <= n < (mantissa + 1) * Pow10(dropped)
  }

  /** A mantissa of so many digits stands for n, of which the last `dropped` digits are lost;
      digits are lost only once there are 18. */
  ghost predicate Extracted(mantissa: int, digits: nat, dropped: nat, n: int) {
    && digits <= MAX_DIGITS && 0 <= mantissa < Pow10(digits) && (digits > 0 ==> mantissa > 0)
    && (dropped > 0 ==> digits == MAX_DIGITS) && Bracket(mantissa, dropped, n)
  }

  lemma ExactUntilDropped(mantissa: int, n: int)
    requires Bracket(mantissa, 0, n)
    ensures mantissa == n
  {
  }

  lemma KeepDigit(mantissa: int, digits: nat, n: int, digit: int)
    requires Extracted(mantissa, digits, 0, n) && digits < MAX_DIGITS && 0 <= digit < 10 && (digits == 0 ==> digit > 0)
    ensures Extracted(mantissa * 10 + digit, digits + 1, 0, n * 10 + digit)
  {
  }

  lemma DropDigit(mantissa: int, dropped: nat, n: int, digit: int)
    requires Extracted(mantissa, MAX_DIGITS, dropped, n) && 0 <= digit < 10
    ensures Extracted(mantissa, MAX_DIGITS, dropped + 1, n * 10 + digit)
  {
    Tenfold(mantissa, Pow10(dropped));
    Tenfold(mantissa + 1, Pow10(dropped));
  }

  /** Eight digits at once, behind a mantissa that has room for them. */
  lemma KeepEight(s: seq<byte>, i: nat, mantissa: int, digits: nat, n: int)
    requires i + 8 <= |s| && (forall k :: i <= k < i + 8 ==> IsDigit(s[k])) && (digits == 0 ==> s[i] != ZERO)
    requires Extracted(mantissa, digits, 0, n) && digits + 8 <= MAX_DIGITS
    ensures Extracted(mantissa * 100000000 + Number(s, i, i + 8), digits + 8, 0, Append(n, s, i, i + 8))
  {
    AppendIs(n, s, i, i + 8);
    NumberBounds(s, i, i + 8);
    if digits == 0 { NumberLarge(s, i, i + 8); }
    PowTable();
    PowSplit(digits, 8);
  }

  lemma {:induction false} PowSplit(i: nat, j: nat)
    ensures Pow10(i + j) == Pow10(i) * Pow10(j)
    decreases j
  {
    if j > 0 {
      PowSplit(i, j - 1);
      Tenfold(Pow10(i), Pow10(j - 1));
    }
  }

  /** The integer part: leading zeros skipped, words of eight first, then digit by digit. */
  method IntegerPart(s: seq<byte>, start: nat) returns (i: nat, mantissa: int, digits: nat, offset: int)
    requires start <= |s|
    ensures i == RunEnd(s, start) && offset >= 0 && Extracted(mantissa, digits, offset, Number(s, start, i))
  {
    var sig := SkipZeros(s, start);
    i, mantissa, digits, offset := sig, 0, 0, 0;
    NumberZeros(s, start, sig, sig);
    i, mantissa, digits := IntegerWords(s, start, sig);
    while i < |s| && IsDigit(s[i])
      invariant sig <= i <= RunEnd(s, start) && RunEnd(s, i) == RunEnd(s, start) && offset >= 0
      invariant digits == 0 ==> i == sig
      invariant Extracted(mantissa, digits, offset, Number(s, start, i))
    {
      hide Extracted;
      if digits < MAX_DIGITS {
        KeepInteger(s, start, i, mantissa, digits, offset);
        mantissa := mantissa * 10 + Digit(s[i]);
        digits := digits + 1;
      } else {
        DropInteger(s, start, i, mantissa, digits, offset);
        offset := offset + 1;
      }
      i := i + 1;
    }
  }

  lemma KeepInteger(s: seq<byte>, start: nat, i: nat, mantissa: int, digits: nat, offset: nat)
    requires start <= i < |s| && IsDigit(s[i]) && digits < MAX_DIGITS && (digits == 0 ==> s[i] != ZERO)
    requires Extracted(mantissa, digits, offset, Number(s, start, i))
    ensures Extracted(mantissa * 10 + Digit(s[i]), digits + 1, offset, Number(s, start, i + 1))
  {
    hide Bracket;
    KeepDigit(mantissa, digits, Number(s, start, i), Digit(s[i]));
  }

  lemma DropInteger(s: seq<byte>, start: nat, i: nat, mantissa: int, digits: nat, offset: nat)
    requires start <= i < |s| && IsDigit(s[i]) && digits >= MAX_DIGITS
    requires Extracted(mantissa, digits, offset, Number(s, start, i))
    ensures Extracted(mantissa, digits, offset + 1, Number(s, start, i + 1))
  {
    hide Bracket;
    DropDigit(mantissa, offset, Number(s, start, i), Digit(s[i]));
  }

  method IntegerWords(s: seq<byte>, start: nat, sig: nat) returns (i: nat, mantissa: int, digits: nat)
    requires start <= sig <= |s| && sig <= RunEnd(s, start) && RunEnd(s, sig) == RunEnd(s, start) && (sig < |s| ==> s[sig] != ZERO)
    requires forall k :: start <= k < sig ==> s[k] == ZERO
    ensures sig <= i <= RunEnd(s, start) && RunEnd(s, i) == RunEnd(s, start) && (digits == 0 ==> i == sig)
    ensures Extracted(mantissa, digits, 0, Number(s, start, i))
  {
    i, mantissa, digits := sig, 0, 0;
    NumberZeros(s, start, sig, sig);
    var swar, v := Word8(s, i);
    if !swar { return; }
    KeepEight(s, i, 0, 0, 0);
    AppendIs(0, s, i, i + 8);
    NumberZeros(s, start, sig, i + 8);
    mantissa, digits, i := v, 8, i + 8;
    RunOn(s, sig, i);
    swar, v := Word8(s, i);
    if !swar { return; }
    SecondWord(s, start, i, mantissa);
    mantissa, digits, i := mantissa * 100000000 + v, 16, i + 8;
  }

  lemma SecondWord(s: seq<byte>, start: nat, i: nat, mantissa: int)
    requires start <= i && i + 8 <= |s| && (forall k :: i <= k < i + 8 ==> IsDigit(s[k]))
    requires Extracted(mantissa, 8, 0, Number(s, start, i))
    ensures Extracted(mantissa * 100000000 + Number(s, i, i + 8), 16, 0, Number(s, start, i + 8))
    ensures RunEnd(s, i + 8) == RunEnd(s, i)
  {
    hide Extracted;
    KeepEight(s, i, mantissa, 8, Number(s, start, i));
    NumberAppend(s, start, i, i + 8);
    RunOn(s, i, i + 8);
  }

  lemma {:induction false} NumberAppend(s: seq<byte>, i: nat, m: nat, j: nat)
    requires i <= m <= j <= |s|
    ensures Number(s, i, j) == Append(Number(s, i, m), s, m, j)
    decreases j
  {
    if m < j { NumberAppend(s, i, m, j - 1); }
  }

  /** How far the fraction is read: so many digits dropped, the point moved accordingly. */
  ghost predicate Reading(s: seq<byte>, start: nat, n: int, i: nat, mantissa: int, digits: nat, offset: int) {
    && start <= i <= |s| && i <= RunEnd(s, start) && RunEnd(s, i) == RunEnd(s, start) && offset + (i - start) >= 0
    && Extracted(mantissa, digits, offset + (i - start), Append(n, s, start, i))
    && (digits == 0 && i < |s| ==> s[i] != ZERO)
  }

  /** While the mantissa is zero, zeros behind the point only move the point. */
  method FractionZeros(s: seq<byte>, start: nat, mantissa: int, digits: nat, offset0: int, ghost n: int) returns (i: nat, offset: int)
    requires start <= |s| && offset0 >= 0 && Extracted(mantissa, digits, offset0, n)
    ensures Reading(s, start, n, i, mantissa, digits, offset)
  {
    i, offset := start, offset0;
    if mantissa == 0 {
      ExactUntilDropped(0, n);
      i := SkipZeros(s, start);
      offset := offset - (i - start);
      AppendIs(n, s, start, i);
      NumberZeros(s, start, i, i);
    }
  }

  method FractionWord(s: seq<byte>, start: nat, ghost n: int, i0: nat, mantissa0: int, digits0: nat, offset0: int)
      returns (i: nat, mantissa: int, digits: nat, offset: int)
    requires Reading(s, start, n, i0, mantissa0, digits0, offset0)
    ensures Reading(s, start, n, i, mantissa, digits, offset)
  {
    i, mantissa, digits, offset := i0, mantissa0, digits0, offset0;
    var swar, v := Word8(s, i);
    if swar && digits + 8 <= MAX_DIGITS {
      KeepEight(s, i, mantissa, digits, Append(n, s, start, i));
      AppendMore(n, s, start, i, i + 8);
      RunOn(s, i, i + 8);
      mantissa, digits, offset, i := mantissa * 100000000 + v, digits + 8, offset - 8, i + 8;
    }
  }

  /** The fraction: a word of eight if there is room, then digit by digit. */
  method FractionPart(s: seq<byte>, start: nat, mantissa0: int, digits0: nat, offset0: int, ghost n: int)
      returns (i: nat, mantissa: int, digits: nat, offset: int)
    requires start <= |s| && offset0 >= 0 && Extracted(mantissa0, digits0, offset0, n)
    ensures i == RunEnd(s, start) && offset + (i - start) >= 0
    ensures Extracted(mantissa, digits, offset + (i - start), Append(n, s, start, i))
  {
    i, offset := FractionZeros(s, start, mantissa0, digits0, offset0, n);
    i, mantissa, digits, offset := FractionWord(s, start, n, i, mantissa0, digits0, offset);
    while i < |s| && IsDigit(s[i])
      invariant Reading(s, start, n, i, mantissa, digits, offset)
    {
      hide Reading;
      if digits < MAX_DIGITS {
        KeepFraction(s, start, n, i, mantissa, digits, offset);
        mantissa := mantissa * 10 + Digit(s[i]);
        digits, offset := digits + 1, offset - 1;
      } else {
        DropFraction(s, start, n, i, mantissa, digits, offset);
      }
      i := i + 1;
    }
    ReadingEnds(s, start, n, i, mantissa, digits, offset);
  }

  lemma ReadingEnds(s: seq<byte>, start: nat, n: int, i: nat, mantissa: int, digits: nat, offset: int)
    requires Reading(s, start, n, i, mantissa, digits, offset) && (i < |s| ==> !IsDigit(s[i]))
    ensures i == RunEnd(s, start) && offset + (i - start) >= 0
    ensures Extracted(mantissa, digits, offset + (i - start), Append(n, s, start, i))
  {
    hide Extracted;
  }

  lemma KeepFraction(s: seq<byte>, start: nat, n: int, i: nat, mantissa: int, digits: nat, offset: int)
    requires Reading(s, start, n, i, mantissa, digits, offset) && i < |s| && IsDigit(s[i]) && digits < MAX_DIGITS
    ensures Reading(s, start, n, i + 1, mantissa * 10 + Digit(s[i]), digits + 1, offset - 1)
  {
    hide Bracket;
    KeepDigit(mantissa, digits, Append(n, s, start, i), Digit(s[i]));
  }

  lemma DropFraction(s: seq<byte>, start: nat, n: int, i: nat, mantissa: int, digits: nat, offset: int)
    requires Reading(s, start, n, i, mantissa, digits, offset) && i < |s| && IsDigit(s[i]) && digits >= MAX_DIGITS
    ensures Reading(s, start, n, i + 1, mantissa, digits, offset)
  {
    hide Bracket;
    DropDigit(mantissa, offset + (i - start), Append(n, s, start, i), Digit(s[i]));
  }

  // ---------- the whole decimal ----------

  /** Digits with at most one point: all of them as one integer, how many are behind the
      point, and where it ends. */
  datatype Decimal = Decimal(n: int, fraction: nat, end: nat, any: bool)

  function Literal10(s: seq<byte>, start: nat): (d: Decimal)
    requires start <= |s|
  {
    var ie := RunEnd(s, start);
    if ie < |s| && s[ie] == DOT then
      var fe := RunEnd(s, ie + 1);
      Decimal(Append(Number(s, start, ie), s, ie + 1, fe), fe - ie - 1, fe, ie > start || fe > ie + 1)
    else Decimal(Number(s, start, ie), 0, ie, ie > start)
  }

  /** mantissa * 10^offset is the literal's value, or the greatest multiple of 10^offset below
      it: exact unless the literal has more than 18 significant digits, and in particular
      whenever the mantissa has at most 15. */
  method ExtractDecimal(s: seq<byte>, start: nat) returns (i: nat, mantissa: int, digits: nat, offset: int, any: bool)
    requires start <= |s|
    ensures var d := Literal10(s, start);
      && i == d.end && any == d.any && 0 <= mantissa < Pow10(digits) && digits <= MAX_DIGITS
      && offset + d.fraction >= 0 && Bracket(mantissa, offset + d.fraction, d.n)
      && (digits < MAX_DIGITS ==> offset == -(d.fraction as int) && mantissa == d.n)
  {
    hide Bracket;
    i, mantissa, digits, offset := IntegerPart(s, start);
    any := i > start;
    if i < |s| && s[i] == DOT {
      ghost var n := Number(s, start, i);
      var fs := i + 1;
      i, mantissa, digits, offset := FractionPart(s, fs, mantissa, digits, offset, n);
      any := any || i > fs;
    }
    ghost var d := Literal10(s, start);
    if offset + d.fraction == 0 { ExactUntilDropped(mantissa, d.n); }
  }

  // ---------- the exponent ----------

  /** What follows an 'e': its digits' value, cut off at 10000, with its sign; without digits
      the 'e' is not part of the number. */
  function Exponent(s: seq<byte>, i: nat): (r: (nat, int))
    requires i <= |s|
    ensures i <= r.0 <= |s|
  {
    if i == |s| || (s[i] != 101 && s[i] != 69) then (i, 0)
    else
      var sign := i + 1 < |s| && (s[i + 1] == MINUS || s[i + 1] == PLUS);
      var st := if sign then i + 2 else i + 1;
      var e := RunEnd(s, st);
      var v := Number(s, st, e);
      var c := if v < 10000 then v else 10000;
      if e == st then (i, 0) else (e, if sign && s[i + 1] == MINUS then -c else c)
  }

  method ParseExponent(s: seq<byte>, start: nat) returns (i: nat, exp: int)
    requires start <= |s|
    ensures (i, exp) == Exponent(s, start)
  {
    i, exp := start, 0;
    if i == |s| || (s[i] != 101 && s[i] != 69) { return; }
    i := i + 1;
    var neg := false;
    if i < |s| {
      if s[i] == MINUS {
        neg := true;
        i := i + 1;
      } else if s[i] == PLUS {
        i := i + 1;
      }
    }
    var first, v, capped := i, 0, false;
    while i < |s| && IsDigit(s[i])
      invariant first <= i <= RunEnd(s, first) && RunEnd(s, i) == RunEnd(s, first)
      invariant 0 <= v < 10000 && (!capped ==> v == Number(s, first, i)) && (capped ==> v >= 1000 && Number(s, first, i) >= 10000)
    {
      if v <= 999 { v := v * 10 + Digit(s[i]); } else { capped := true; }
      i := i + 1;
    }
    if i == first { return start, 0; }
    exp := if capped then 10000 else v;
    if neg { exp := -exp; }
  }
}
