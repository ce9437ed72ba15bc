/** Numbers as they are written, and what the parsers make of them. */
module NumText {
  import opened Arithmetic
  import opened Wrappers
  import opened Codec
  import opened Swar
  import opened Numparse

  // ---------- written numbers ----------

  /** The decimal digits of n. */
  function Text(n: nat): (t: seq<byte>)
    ensures t != []
  {
    if n < 10 then [48 + n] else Text(n / 10) + [48 + n % 10]
  }

  function Zeros(z: nat): (t: seq<byte>)
    ensures |t| == z && forall k :: 0 <= k < z ==> t[k] == 48
  {
    if z == 0 then [] else [48] + Zeros(z - 1)
  }

  predicate IsDecimal(b: byte) { 48 <= b <= 57 }

  /** What follows does not go on with a digit. */
  predicate Ends(rest: seq<byte>) { rest == [] || !IsDecimal(rest[0]) }

  lemma {:induction false} TextDigits(n: nat)
    ensures forall k :: 0 <= k < |Text(n)| ==> IsDecimal(Text(n)[k])
    ensures n > 0 ==> Text(n)[0] != 48
    decreases n
  {
    if n >= 10 { TextDigits(n / 10); }
  }

  /** t stands in s from i on. */
  ghost predicate Stands(s: seq<byte>, i: nat, t: seq<byte>) {
    i + |t| <= |s| && forall k :: 0 <= k < |t| ==> s[i + k] == t[k]
  }

  lemma {:induction false} NumberOfText(s: seq<byte>, i: nat, n: nat)
    requires Stands(s, i, Text(n))
    ensures Number(s, i, i + |Text(n)|) == n
    decreases n
  {
    var e := i + |Text(n)|;
    if n < 10 {
      assert Number(s, i, i) == 0;
      assert s[i + 0] == Text(n)[0];
    } else {
      var t := Text(n / 10);
      assert Stands(s, i, t) by { forall k | 0 <= k < |t| ensures s[i + k] == t[k] { assert Text(n)[k] == t[k]; } }
      NumberOfText(s, i, n / 10);
      assert s[i + |t|] == Text(n)[|t|];
    }
  }

  lemma {:induction false} RunEndIs(s: seq<byte>, i: nat, e: nat)
    requires i <= e <= |s| && (forall k :: i <= k < e ==> IsDecimal(s[k])) && (e < |s| ==> !IsDecimal(s[e]))
    ensures RunEnd(s, i) == e
    decreases e - i
  {
    if i < e { RunEndIs(s, i + 1, e); }
  }

  // ---------- integers ----------

  /** A number behind a sign, or none, and any number of zeros. */
  function Written(sign: seq<byte>, z: nat, n: nat, rest: seq<byte>): seq<byte> {
    sign + Zeros(z) + Text(n) + rest
  }

  /** s is sign, z zeros, t and rest. */
  ghost predicate Shaped(s: seq<byte>, sign: seq<byte>, z: nat, t: seq<byte>, rest: seq<byte>) {
    var i := |sign| + z;
    && |s| == i + |t| + |rest| && (forall k :: 0 <= k < |sign| ==> s[k] == sign[k])
    && (forall k :: |sign| <= k < i ==> s[k] == 48)
    && Stands(s, i, t) && Stands(s, i + |t|, rest)
  }

  lemma WrittenShape(sign: seq<byte>, z: nat, t: seq<byte>, rest: seq<byte>)
    ensures Shaped(sign + Zeros(z) + t + rest, sign, z, t, rest)
  {
    var s, i := sign + Zeros(z) + t + rest, |sign| + z;
    assert s == sign + (Zeros(z) + (t + rest));
    forall k | |sign| <= k < i ensures s[k] == 48 { assert s[k] == Zeros(z)[k - |sign|]; }
  }

  /** Zeros and then a number, from i on. */
  lemma ReadsAs(s: seq<byte>, i: nat, z: nat, n: nat)
    requires i + z <= |s| && (forall k :: i <= k < i + z ==> s[k] == 48) && Stands(s, i + z, Text(n))
    requires var e := i + z + |Text(n)|; e < |s| ==> !IsDecimal(s[e])
    ensures var e := i + z + |Text(n)|; e <= |s| && RunEnd(s, i) == e && Number(s, i, e) == n
  {
    hide Text;
    var e := i + z + |Text(n)|;
    TextDigits(n);
    forall k | i + z <= k < e ensures IsDecimal(s[k]) { assert s[i + z + (k - i - z)] == Text(n)[k - i - z]; }
    RunEndIs(s, i, e);
    NumberOfText(s, i + z, n);
    NumberZeros(s, i, i + z, e);
  }

  lemma WrittenParts(sign: seq<byte>, z: nat, n: nat, rest: seq<byte>)
    requires Ends(rest)
    ensures var s := Written(sign, z, n, rest); var e := |sign| + z + |Text(n)|;
      && |s| == e + |rest| && (forall k :: 0 <= k < |sign| ==> s[k] == sign[k]) && Stands(s, e, rest)
      && RunEnd(s, |sign|) == e && Number(s, |sign|, e) == n
  {
    hide Text, Zeros, RunEnd, Number, Written;
    var s, t := Written(sign, z, n, rest), Text(n);
    assert Shaped(s, sign, z, t, rest) by { WrittenIs(sign, z, n, rest); }
    EndsAt(s, |sign| + z + |t|, rest);
    ReadsAs(s, |sign|, z, n);
  }

  lemma WrittenIs(sign: seq<byte>, z: nat, n: nat, rest: seq<byte>)
    ensures Shaped(Written(sign, z, n, rest), sign, z, Text(n), rest)
  {
    hide Text, Zeros, Shaped;
    WrittenShape(sign, z, Text(n), rest);
  }

  lemma EndsAt(s: seq<byte>, e: nat, rest: seq<byte>)
    requires Ends(rest) && Stands(s, e, rest) && |s| == e + |rest|
    ensures e < |s| ==> !IsDecimal(s[e])
  {
    if rest != [] { assert s[e + 0] == rest[0]; }
  }

  /** 2^63. */
  const TWO63: int := 0x8000_0000_0000_0000

  /** A written integer of 64 bits, with or without a sign, with any leading zeros and whatever
      follows its digits, is parsed to its end with its value; a larger one not at all. */
  lemma IntegerOfText(v: int, z: nat, rest: seq<byte>)
    requires Ends(rest)
    ensures v >= 0 ==> Integer(Written([], z, v, rest)) == if v < TWO63 then Some((z + |Text(v)|, v)) else None
    ensures v >= 0 ==> Integer(Written([43], z, v, rest)) == if v < TWO63 then Some((1 + z + |Text(v)|, v)) else None
    ensures v <= 0 ==> Integer(Written([45], z, -v, rest)) == if v >= -TWO63 then Some((1 + z + |Text(-v)|, v)) else None
  {
    if v >= 0 {
      Unsigned(z, v, rest);
      Signed(43, z, v, rest);
    }
    if v <= 0 { Signed(45, z, -v, rest); }
  }

  lemma Unsigned(z: nat, n: nat, rest: seq<byte>)
    requires Ends(rest)
    ensures Integer(Written([], z, n, rest)) == if n < TWO63 then Some((z + |Text(n)|, n)) else None
  {
    hide Text, Zeros, RunEnd, Number, Written;
    WrittenParts([], z, n, rest);
    FirstByte(z, n, rest);
  }

  lemma Signed(sign: byte, z: nat, n: nat, rest: seq<byte>)
    requires Ends(rest) && (sign == 43 || sign == 45)
    ensures var v: int := if sign == 43 then n else 0 - n;
      Integer(Written([sign], z, n, rest)) == if -TWO63 <= v < TWO63 then Some((1 + z + |Text(n)|, v)) else None
  {
    hide Text, Zeros, RunEnd, Number, Written;
    WrittenParts([sign], z, n, rest);
    assert Written([sign], z, n, rest)[0] == [sign][0];
  }

  lemma FirstByte(z: nat, n: nat, rest: seq<byte>)
    requires Ends(rest)
    ensures var s := Written([], z, n, rest); s != [] && IsDecimal(s[0])
  {
    TextDigits(n);
    var s := Written([], z, n, rest);
    if z > 0 { assert s[0] == Zeros(z)[0]; } else { assert s[0] == Text(n)[0]; }
  }

  /** Without a digit behind the sign there is no integer. */
  lemma NoInteger(sign: seq<byte>, rest: seq<byte>)
    requires (sign == [] || sign == [43] || sign == [45]) && Ends(rest)
    requires sign == [] && rest != [] ==> rest[0] != 43 && rest[0] != 45
    ensures Integer(sign + rest) == None
  {
    var s := sign + rest;
    if |sign| < |s| { assert s[|sign|] == rest[0]; }
    RunEndIs(s, |sign|, |sign|);
  }

  // ---------- decimals ----------

  /** The point and the digits behind it, from ie on. */
  lemma FractionAt(s: seq<byte>, ie: nat, y: nat, m: nat, rest: seq<byte>)
    requires Ends(rest)
    requires var tail := [46] + Zeros(y) + Text(m) + rest; Stands(s, ie, tail) && |s| == ie + |tail|
    ensures var fe := ie + 1 + y + |Text(m)|;
      && fe <= |s| && s[ie] == 46 && RunEnd(s, ie + 1) == fe && Number(s, ie + 1, fe) == m
  {
    var tail := [46] + Zeros(y) + Text(m) + rest;
    WrittenShape([46], y, Text(m), rest);
    ShapedFraction(s, ie, tail, y, m, rest);
  }

  lemma ShapedFraction(s: seq<byte>, ie: nat, tail: seq<byte>, y: nat, m: nat, rest: seq<byte>)
    requires Ends(rest) && Stands(s, ie, tail) && |s| == ie + |tail| && Shaped(tail, [46], y, Text(m), rest)
    ensures var fe := ie + 1 + y + |Text(m)|;
      && fe <= |s| && s[ie] == 46 && RunEnd(s, ie + 1) == fe && Number(s, ie + 1, fe) == m
  {
    hide Text, RunEnd, Number;
    var t, i := Text(m), ie + 1;
    assert s[ie + 0] == tail[0];
    forall j | i <= j < i + y ensures s[j] == 48 { assert s[ie + (j - ie)] == tail[j - ie]; }
    Inner(s, ie, tail, 1 + y, t);
    Inner(s, ie, tail, 1 + y + |t|, rest);
    EndsAt(s, i + y + |t|, rest);
    ReadsAs(s, i, y, m);
  }

  lemma Inner(s: seq<byte>, i: nat, tail: seq<byte>, j: nat, t: seq<byte>)
    requires Stands(s, i, tail) && Stands(tail, j, t)
    ensures Stands(s, i + j, t)
  {
    forall k | 0 <= k < |t| ensures s[i + j + k] == t[k] {
      assert tail[j + k] == t[k];
      assert s[i + (j + k)] == tail[j + k];
    }
  }

  /** A number with a point in it: the digits behind the point are read as further digits of the
      number, and counted. */
  lemma DecimalOfText(sign: seq<byte>, z: nat, n: nat, y: nat, m: nat, rest: seq<byte>)
    requires Ends(rest)
    ensures var f := y + |Text(m)|;
      Literal10(Written(sign, z, n, [46] + Zeros(y) + Text(m) + rest), |sign|)
      == Decimal(n * Pow10(f) + m, f, |sign| + z + |Text(n)| + 1 + f, true)
  {
    hide Text, Zeros, RunEnd, Number, Written, Append, Pow10;
    var tail := [46] + Zeros(y) + Text(m) + rest;
    var s, ie, f := Written(sign, z, n, tail), |sign| + z + |Text(n)|, y + |Text(m)|;
    assert tail[0] == 46;
    WrittenParts(sign, z, n, tail);
    FractionAt(s, ie, y, m, rest);
    AppendIs(n, s, ie + 1, ie + 1 + f);
  }

  /** Without a point the number itself is read; a point alone adds nothing to it. */
  lemma WholeOfText(sign: seq<byte>, z: nat, n: nat, rest: seq<byte>)
    requires Ends(rest)
    ensures var e := |sign| + z + |Text(n)|;
      && (rest == [] || rest[0] != 46 ==> Literal10(Written(sign, z, n, rest), |sign|) == Decimal(n, 0, e, true))
      && Literal10(Written(sign, z, n, [46] + rest), |sign|) == Decimal(n, 0, e + 1, true)
  {
    hide Text, Zeros, RunEnd, Number, Written, Append;
    var e := |sign| + z + |Text(n)|;
    WrittenParts(sign, z, n, rest);
    if rest != [] { assert Written(sign, z, n, rest)[e + 0] == rest[0]; }
    var s, tail := Written(sign, z, n, [46] + rest), [46] + rest;
    WrittenParts(sign, z, n, tail);
    assert s[e + 0] == tail[0];
    if rest != [] { assert s[e + 1] == tail[1]; }
    RunEndIs(s, e + 1, e + 1);
    AppendIs(n, s, e + 1, e + 1);
    assert Pow10(0) == 1 && Number(s, e + 1, e + 1) == 0 by { NumberNone(s, e + 1); }
  }

  /** A number may begin with its point. */
  lemma PointOfText(front: seq<byte>, y: nat, m: nat, rest: seq<byte>)
    requires Ends(rest)
    ensures var f := y + |Text(m)|;
      Literal10(front + ([46] + Zeros(y) + Text(m) + rest), |front|) == Decimal(m, f, |front| + 1 + f, true)
  {
    var tail, i, f := [46] + Zeros(y) + Text(m) + rest, |front|, y + |Text(m)|;
    hide Text, Zeros, RunEnd, Number, Append, Pow10;
    var s := front + tail;
    FractionAt(s, i, y, m, rest);
    RunEndIs(s, i, i);
    NumberNone(s, i);
    AppendIs(0, s, i + 1, i + 1 + f);
  }

  /** Without a digit there is no number, with a point or without. */
  lemma NoDecimal(front: seq<byte>, rest: seq<byte>)
    requires Ends(rest)
    ensures rest == [] || rest[0] != 46 ==> !Literal10(front + rest, |front|).any
    ensures !Literal10(front + ([46] + rest), |front|).any
  {
    var s, t, i := front + rest, front + ([46] + rest), |front|;
    if rest != [] { assert s[i] == rest[0] && t[i + 1] == rest[0]; }
    assert t[i] == 46;
    RunEndIs(s, i, i);
    RunEndIs(t, i, i);
    RunEndIs(t, i + 1, i + 1);
  }

  lemma NumberNone(s: seq<byte>, i: nat)
    requires i <= |s|
    ensures Number(s, i, i) == 0
  {
  }

  // ---------- exponents ----------

  /** An exponent behind e or E: its sign, and its value up to 10000. */
  lemma ExponentOfText(front: seq<byte>, e: byte, sign: seq<byte>, z: nat, v: nat, rest: seq<byte>)
    requires (e == 101 || e == 69) && (sign == [] || sign == [43] || sign == [45]) && Ends(rest)
    ensures var c := if v < 10000 then v else 10000;
      Exponent(Written(front + [e] + sign, z, v, rest), |front|)
      == (|front| + 1 + |sign| + z + |Text(v)|, if sign == [45] then -c else c)
  {
    hide Text, Zeros, RunEnd, Number, Written;
    var head := front + [e] + sign;
    var s := Written(head, z, v, rest);
    WrittenParts(head, z, v, rest);
    assert s[|front|] == head[|front|] == e;
    if sign != [] {
      assert s[|front| + 1] == head[|front| + 1] == sign[0];
    } else {
      NextIsDigit(head, z, v, rest);
    }
  }

  lemma NextIsDigit(sign: seq<byte>, z: nat, n: nat, rest: seq<byte>)
    ensures var s := Written(sign, z, n, rest); |s| > |sign| && IsDecimal(s[|sign|])
  {
    TextDigits(n);
    WrittenShape(sign, z, Text(n), rest);
    var s := Written(sign, z, n, rest);
    if z == 0 { assert s[|sign| + 0] == Text(n)[0]; }
  }

  /** Without an e, or without a digit behind it and its sign, there is no exponent. */
  lemma NoExponent(front: seq<byte>, e: byte, sign: seq<byte>, rest: seq<byte>)
    requires (sign == [] || sign == [43] || sign == [45]) && Ends(rest)
    requires sign == [] && rest != [] ==> rest[0] != 43 && rest[0] != 45
    ensures Exponent(front + [e] + sign + rest, |front|) == (|front|, 0) && Exponent(front, |front|) == (|front|, 0)
  {
    var s, st := front + [e] + sign + rest, |front| + 1 + |sign|;
    assert s[|front|] == e;
    if sign != [] { assert s[|front| + 1] == sign[0]; }
    if st < |s| { assert s[st] == rest[0]; }
    RunEndIs(s, st, st);
  }
}
