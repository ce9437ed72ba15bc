/** Eight digits at a time: a word is loaded from memory, tested and folded with word
    operations, here on natural numbers. */
module Swar {
  import opened Arithmetic
  import opened Codec
  import opened PoolRange

  const ZERO: byte := 48
  const WORD: nat := 0x1_0000_0000_0000_0000

  predicate IsDigit(b: byte) { 48 <= b <= 57 }

  /** Bitwise or. */
  function Or(x: nat, y: nat): nat {
    if x == 0 then y else if y == 0 then x else (if x % 2 == 1 || y % 2 == 1 then 1 else 0) + 2 * Or(x / 2, y / 2)
  }

  // ---------- bit operations by lanes ----------

  /** x shifted left by k bits. */
  function Shift(x: nat, k: nat): nat {
    if k == 0 then x else 2 * Shift(x, k - 1)
  }

  lemma {:induction false} ShiftMore(x: nat, j: nat, k: nat)
    ensures Shift(x, j + k) == Shift(Shift(x, j), k)
    decreases k
  {
    if k > 0 { ShiftMore(x, j, k - 1); }
  }

  lemma ShiftLanes(x: nat)
    ensures Shift(x, 7) == 128 * x && Shift(x, 8) == 256 * x && Shift(x, 16) == 65536 * x && Shift(x, 32) == 0x1_0000_0000 * x
  {
    Shift4(x);
    Shift4(Shift(x, 4));
    ShiftMore(x, 4, 4);
    assert 2 * Shift(x, 7) == Shift(x, 8);
    ShiftMore(x, 8, 8);
    Shift4(Shift(x, 8));
    Shift4(Shift(Shift(x, 8), 4));
    ShiftMore(Shift(x, 8), 4, 4);
    ShiftMore(x, 16, 16);
    var z := Shift(x, 16);
    Shift4(z);
    Shift4(Shift(z, 4));
    ShiftMore(z, 4, 4);
    ShiftMore(z, 8, 8);
    Shift4(Shift(z, 8));
    Shift4(Shift(Shift(z, 8), 4));
    ShiftMore(Shift(z, 8), 4, 4);
  }

  lemma Shift4(x: nat)
    ensures Shift(x, 4) == 16 * x
  {
    assert Shift(x, 1) == 2 * Shift(x, 0);
    assert Shift(x, 2) == 2 * Shift(x, 1);
    assert Shift(x, 3) == 2 * Shift(x, 2);
  }

  lemma AndStep(x: nat, y: nat)
    ensures And(x, y) == (x % 2) * (y % 2) + 2 * And(x / 2, y / 2)
  {
  }

  lemma {:induction false} OrStep(x: nat, y: nat)
    ensures Or(x, y) == (if x % 2 == 1 || y % 2 == 1 then 1 else 0) + 2 * Or(x / 2, y / 2)
  {
    if x == 0 { assert Or(0, y / 2) == y / 2; }
  }

  lemma {:induction false} AndSplit(a: nat, x: nat, b: nat, y: nat, k: nat)
    requires a < Pow2(k) && b < Pow2(k)
    ensures And(a + Shift(x, k), b + Shift(y, k)) == And(a, b) + Shift(And(x, y), k)
    decreases k
  {
    if k == 0 {
      assert And(0, 0) == 0;
    } else {
      AndSplit(a / 2, x, b / 2, y, k - 1);
      AndDouble(a, Shift(x, k - 1), b, Shift(y, k - 1), Shift(And(x, y), k - 1));
    }
  }

  lemma AndDouble(a: nat, e: nat, b: nat, f: nat, high: nat)
    requires And(a / 2 + e, b / 2 + f) == And(a / 2, b / 2) + high
    ensures And(a + 2 * e, b + 2 * f) == And(a, b) + 2 * high
  {
    AndStep(a + 2 * e, b + 2 * f);
    AndStep(a, b);
    assert (a + 2 * e) / 2 == a / 2 + e && (b + 2 * f) / 2 == b / 2 + f;
  }

  lemma {:induction false} OrSplit(a: nat, x: nat, b: nat, y: nat, k: nat)
    requires a < Pow2(k) && b < Pow2(k)
    ensures Or(a + Shift(x, k), b + Shift(y, k)) == Or(a, b) + Shift(Or(x, y), k)
    decreases k
  {
    if k == 0 {
      assert Or(0, 0) == 0;
    } else {
      OrSplit(a / 2, x, b / 2, y, k - 1);
      OrDouble(a, Shift(x, k - 1), b, Shift(y, k - 1), Shift(Or(x, y), k - 1));
    }
  }

  lemma OrDouble(a: nat, e: nat, b: nat, f: nat, high: nat)
    requires Or(a / 2 + e, b / 2 + f) == Or(a / 2, b / 2) + high
    ensures Or(a + 2 * e, b + 2 * f) == Or(a, b) + 2 * high
  {
    OrStep(a + 2 * e, b + 2 * f);
    OrStep(a, b);
    assert (a + 2 * e) / 2 == a / 2 + e && (b + 2 * f) / 2 == b / 2 + f;
  }

  lemma Pow2Small()
    ensures Pow2(1) == 2 && Pow2(4) == 16 && Pow2(7) == 128 && Pow2(8) == 256 && Pow2(16) == 65536 && Pow2(32) == 0x1_0000_0000
  {
    assert Pow2(4) == 16;
    assert Pow2(8) == 16 * Pow2(4);
    assert Pow2(12) == 16 * Pow2(8);
    assert Pow2(16) == 16 * Pow2(12);
    assert Pow2(20) == 16 * Pow2(16);
    assert Pow2(24) == 16 * Pow2(20);
    assert Pow2(28) == 16 * Pow2(24);
    assert Pow2(32) == 16 * Pow2(28);
  }

  /** One byte lane and the rest. */
  lemma AndByte(a: nat, x: nat, b: nat, y: nat)
    requires a < 256 && b < 256
    ensures And(a + 256 * x, b + 256 * y) == And(a, b) + 256 * And(x, y)
  {
    hide And;
    hide Or;
    Pow2Small();
    AndSplit(a, x, b, y, 8);
    ShiftLanes(x);
    ShiftLanes(y);
    ShiftLanes(And(x, y));
  }

  lemma OrByte(a: nat, x: nat, b: nat, y: nat)
    requires a < 256 && b < 256
    ensures Or(a + 256 * x, b + 256 * y) == Or(a, b) + 256 * Or(x, y)
  {
    hide And;
    hide Or;
    Pow2Small();
    OrSplit(a, x, b, y, 8);
    ShiftLanes(x);
    ShiftLanes(y);
    ShiftLanes(Or(x, y));
  }

  // ---------- the digit test ----------

  /** n equal lanes. */
  function Lanes(b: nat, n: nat): nat {
    if n == 0 then 0 else b + 256 * Lanes(b, n - 1)
  }

  /** A word loaded little-endian from memory. */
  function Load(p: seq<byte>): nat {
    if p == [] then 0 else p[0] as int + 256 * Load(p[1..])
  }

  /** Arithmetic on n lanes wraps. */
  function Wrap(x: int, n: nat): nat { x % Pow256(n) }

  /** '0' is taken from every lane and 0x46 added to every lane, in wrapping arithmetic;
      the test passes if no lane of either has its top bit set. */
  predicate AllDigitsTest(chunk: nat, n: nat) {
    Clear(Wrap(chunk - Lanes(0x30, n), n), Wrap(chunk + Lanes(0x46, n), n), n)
  }

  /** No lane has its top bit set in either word. */
  predicate Clear(under: nat, over: nat, n: nat) {
    And(Or(under, over), Lanes(0x80, n)) == 0
  }

  predicate AllDigits(p: seq<byte>) { forall k :: 0 <= k < |p| ==> IsDigit(p[k]) }

  /** Low byte and rest of a wrapped difference or sum. */
  lemma WrapSplit(low: int, rest: int, p: nat)
    requires p > 0
    ensures (low + 256 * rest) % (256 * p) == low % 256 + 256 * ((low / 256 + rest) % p)
  {
    var t := low / 256 + rest;
    var q, r := t / p, t % p;
    assert low + 256 * rest == low % 256 + 256 * t;
    assert t == q * p + r;
    assert 256 * (q * p) == q * (256 * p);
    RemainderIs(low + 256 * rest, 256 * p, q, low % 256 + 256 * r);
  }

  lemma TopBit(u: nat, o: nat)
    requires u < 256 && o < 256
    ensures And(Or(u, o), 128) == 0 <==> u < 128 && o < 128
  {
    var a, x, b, y := u % 128, u / 128, o % 128, o / 128;
    HighOr(a, x, b, y);
    HighAnd(Or(a, b), Or(x, y));
    assert Or(x, y) == (if x == 0 && y == 0 then 0 else 1);
  }

  lemma HighOr(a: nat, x: nat, b: nat, y: nat)
    requires a < 128 && b < 128
    ensures Or(a + 128 * x, b + 128 * y) == Or(a, b) + 128 * Or(x, y) && Or(a, b) < 128
  {
    Pow2Small();
    OrSplit(a, x, b, y, 7);
    ShiftLanes(x);
    ShiftLanes(y);
    ShiftLanes(Or(x, y));
    OrBound(a, b, 7);
  }

  lemma HighAnd(a: nat, x: nat)
    requires a < 128 && x < 2
    ensures And(a + 128 * x, 128) == 128 * x
  {
    Pow2Small();
    AndSplit(a, x, 0, 1, 7);
    ShiftLanes(x);
    ShiftLanes(1);
    assert And(x, 1) == x && And(a, 0) == 0;
  }

  lemma {:induction false} OrBound(a: nat, b: nat, k: nat)
    requires a < Pow2(k) && b < Pow2(k)
    ensures Or(a, b) < Pow2(k)
    decreases k
  {
    if k > 0 {
      OrStep(a, b);
      OrBound(a / 2, b / 2, k - 1);
    }
  }

  /** Testing n lanes tests the lowest, and then the rest with its borrow and carry. */
  lemma TestStep(u: nat, u': nat, o: nat, o': nat, m: nat)
    requires u < 256 && o < 256
    ensures Clear(u + 256 * u', o + 256 * o', m + 1) <==> u < 128 && o < 128 && Clear(u', o', m)
  {
    hide And;
    hide Or;
    OrByte(u, u', o, o');
    OrBound8(u, o);
    AndByte(Or(u, o), Or(u', o'), 128, Lanes(0x80, m));
    TopBit(u, o);
  }

  /** One lane passes exactly if it holds a digit, and then it borrows and carries nothing. */
  lemma LaneTest(b: byte)
    ensures (b as int - 0x30) % 256 < 128 && (b as int + 0x46) % 256 < 128 <==> IsDigit(b)
    ensures IsDigit(b) ==> (b as int - 0x30) / 256 == 0 && (b as int + 0x46) / 256 == 0
  {
  }

  /** The test is exact, whatever the bytes: borrows and carries only leave lanes in which
      the test has failed already. */
  lemma {:induction false} TestIsExact(p: seq<byte>)
    ensures AllDigitsTest(Load(p), |p|) <==> AllDigits(p)
    decreases |p|
  {
    if p != [] {
      var rest, m := Load(p[1..]), |p| - 1;
      LaneTest(p[0]);
      TestFirst(p[0], rest, m);
      AllDigitsFirst(p);
      if IsDigit(p[0]) { TestIsExact(p[1..]); }
    }
  }

  lemma AllDigitsFirst(p: seq<byte>)
    requires p != []
    ensures AllDigits(p) <==> IsDigit(p[0]) && AllDigits(p[1..])
  {
    assert p == [p[0]] + p[1..];
  }

  /** The wrapped words, lane by lane. */
  lemma WordLanes(c: nat, rest: nat, m: nat)
    ensures Wrap(c + 256 * rest - Lanes(0x30, m + 1), m + 1) == (c - 0x30) % 256 + 256 * Wrap((c - 0x30) / 256 + (rest - Lanes(0x30, m)), m)
    ensures Wrap(c + 256 * rest + Lanes(0x46, m + 1), m + 1) == (c + 0x46) % 256 + 256 * Wrap((c + 0x46) / 256 + (rest + Lanes(0x46, m)), m)
  {
    WrapSplit(c - 0x30, rest - Lanes(0x30, m), Pow256(m));
    WrapSplit(c + 0x46, rest + Lanes(0x46, m), Pow256(m));
  }

  /** The test of a word is that of its lowest lane and of the rest. */
  lemma TestFirst(b: byte, rest: nat, m: nat)
    ensures !IsDigit(b) ==> !AllDigitsTest(b as int + 256 * rest, m + 1)
    ensures IsDigit(b) ==> (AllDigitsTest(b as int + 256 * rest, m + 1) <==> AllDigitsTest(rest, m))
  {
    hide And;
    hide Or;
    hide Wrap;
    hide Lanes;
    hide Clear;
    var c := b as int;
    var u', o' := Wrap((c - 0x30) / 256 + (rest - Lanes(0x30, m)), m), Wrap((c + 0x46) / 256 + (rest + Lanes(0x46, m)), m);
    WordLanes(c, rest, m);
    TestStep((c - 0x30) % 256, u', (c + 0x46) % 256, o', m);
    LaneTest(b);
  }

  lemma OrBound8(a: nat, b: nat)
    requires a < 256 && b < 256
    ensures Or(a, b) < 256
  {
    Pow2Small();
    OrBound(a, b, 8);
  }

  // ---------- folding digits into a number ----------

  function Digit(b: byte): int { b as int - 48 }

  /** The number written by the digits s[i..j]. */
  function Number(s: seq<byte>, i: nat, j: nat): int
    requires j <= |s|
    decreases j
  {
    if j <= i then 0 else Number(s, i, j - 1) * 10 + Digit(s[j - 1])
  }

  /** A word by its byte lanes, lowest first. */
  function Word(a: nat, b: nat, c: nat, d: nat, e: nat, f: nat, g: nat, h: nat): nat {
    a + 256 * (b + 256 * (c + 256 * (d + 256 * (e + 256 * (f + 256 * (g + 256 * h))))))
  }

  const NIBBLES: nat := 0x000F_000F_000F_000F
  const BYTES: nat := 0x0000_00FF_0000_00FF

  /** Pairs of digits from digits, in the 16-bit lanes. */
  function FoldPairs(c: nat): nat {
    (And(c, NIBBLES) * 10 + And(c / 256, NIBBLES)) % WORD
  }

  /** Groups of four digits from pairs, in the 32-bit lanes. */
  function FoldQuads(pairs: nat): nat {
    (And(pairs, BYTES) * 100 + And(pairs / 65536, BYTES)) % WORD
  }

  function FoldLast(quads: nat): nat {
    (And(quads, 0xFFFF_FFFF) * 10000 + quads / 0x1_0000_0000) % WORD
  }

  /** Eight digits, in wrapping 64-bit arithmetic. */
  function Fold8(chunk: nat): nat {
    FoldLast(FoldQuads(FoldPairs((chunk - Lanes(0x30, 8)) % WORD)))
  }

  function FoldPairs4(c: nat): nat {
    (And(c, 0x000F_000F) * 10 + And(c / 256, 0x000F_000F)) % 0x1_0000_0000
  }

  function FoldLast4(pairs: nat): nat {
    (And(pairs, 0xFFFF) * 100 + pairs / 65536) % 0x1_0000_0000
  }

  /** Four digits, in wrapping 32-bit arithmetic. */
  function Fold4(chunk: nat): nat {
    FoldLast4(FoldPairs4((chunk - Lanes(0x30, 4)) % 0x1_0000_0000))
  }

  lemma MaskNone(x: nat)
    ensures And(x, 0) == 0
  {
  }

  lemma MaskNibble(x: nat)
    requires x < 16
    ensures And(x, 15) == x
  {
    hide And;
    hide Or;
    Pow2Small();
    MaskIsRemainder(x, 4);
  }

  lemma MaskByte(x: nat)
    requires x < 256
    ensures And(x, 255) == x
  {
    hide And;
    hide Or;
    Pow2Small();
    MaskIsRemainder(x, 8);
  }

  /** A kept lane, a dropped lane, and the rest. */
  lemma MaskTwo(a: nat, b: nat, rest: nat, m: nat, mask: nat)
    requires a < 256 && b < 256 && m < 256
    ensures And(a + 256 * (b + 256 * rest), m + 65536 * mask) == And(a, m) + 65536 * And(rest, mask)
  {
    hide And;
    hide Or;
    AndByte(a, b + 256 * rest, m, 256 * mask);
    AndByte(b, rest, 0, mask);
    MaskNone(b);
  }

  /** Masking lane by lane; every other lane is dropped. */
  lemma MaskWord(a: nat, b: nat, c: nat, d: nat, e: nat, f: nat, g: nat, h: nat, m: nat, n: nat)
    requires a < 256 && b < 256 && c < 256 && d < 256 && e < 256 && f < 256 && g < 256 && h < 256 && m < 256 && n < 256
    ensures And(Word(a, b, c, d, e, f, g, h), m + 65536 * (n + 65536 * (m + 65536 * n)))
         == And(a, m) + 65536 * (And(c, n) + 65536 * (And(e, m) + 65536 * And(g, n)))
  {
    hide And;
    hide Or;
    var r3 := g + 256 * (h + 256 * 0);
    var r2 := e + 256 * (f + 256 * r3);
    var r1 := c + 256 * (d + 256 * r2);
    MaskTwo(g, h, 0, n, 0);
    MaskTwo(e, f, r3, m, n);
    MaskTwo(c, d, r2, n, m + 65536 * n);
    MaskTwo(a, b, r1, m, n + 65536 * (m + 65536 * n));
    MaskNone(0);
  }

  predicate Ten(d: nat) { d < 10 }

  /** The digits in the even lanes of a word of digits. */
  lemma EvenDigits(a: nat, b: nat, c: nat, d: nat, e: nat, f: nat, g: nat, h: nat)
    requires Ten(a) && Ten(b) && Ten(c) && Ten(d) && Ten(e) && Ten(f) && Ten(g) && Ten(h)
    ensures And(Word(a, b, c, d, e, f, g, h), NIBBLES) == a + 65536 * (c + 65536 * (e + 65536 * g))
  {
    hide And;
    hide Or;
    MaskWord(a, b, c, d, e, f, g, h, 15, 15);
    MaskNibble(a);
    MaskNibble(c);
    MaskNibble(e);
    MaskNibble(g);
  }

  lemma WordShift(a: nat, b: nat, c: nat, d: nat, e: nat, f: nat, g: nat, h: nat)
    requires a < 256
    ensures Word(a, b, c, d, e, f, g, h) / 256 == Word(b, c, d, e, f, g, h, 0)
  {
    Shed(a, b + 256 * (c + 256 * (d + 256 * (e + 256 * (f + 256 * (g + 256 * h))))));
  }

  lemma Shed(low: nat, rest: nat)
    requires low < 256
    ensures (low + 256 * rest) / 256 == rest
  {
  }

  lemma PairSum(a: nat, b: nat, c: nat, d: nat, e: nat, f: nat, g: nat, h: nat)
    requires Ten(a) && Ten(b) && Ten(c) && Ten(d) && Ten(e) && Ten(f) && Ten(g) && Ten(h)
    ensures (a + 65536 * (c + 65536 * (e + 65536 * g))) * 10 + (b + 65536 * (d + 65536 * (f + 65536 * h)))
         == Word(10 * a + b, 0, 10 * c + d, 0, 10 * e + f, 0, 10 * g + h, 0) < WORD
  {
  }

  lemma Pairs(a: nat, b: nat, c: nat, d: nat, e: nat, f: nat, g: nat, h: nat)
    requires Ten(a) && Ten(b) && Ten(c) && Ten(d) && Ten(e) && Ten(f) && Ten(g) && Ten(h)
    ensures FoldPairs(Word(a, b, c, d, e, f, g, h)) == Word(10 * a + b, 0, 10 * c + d, 0, 10 * e + f, 0, 10 * g + h, 0)
  {
    hide And;
    hide Or;
    EvenDigits(a, b, c, d, e, f, g, h);
    EvenDigits(b, c, d, e, f, g, h, 0);
    WordShift(a, b, c, d, e, f, g, h);
    PairSum(a, b, c, d, e, f, g, h);
  }

  lemma EvenPairs(p: nat, q: nat, r: nat, s: nat)
    requires p < 100 && q < 100 && r < 100 && s < 100
    ensures And(Word(p, 0, q, 0, r, 0, s, 0), BYTES) == p + 0x1_0000_0000 * r
  {
    MaskWord(p, 0, q, 0, r, 0, s, 0, 255, 0);
    MaskByte(p);
    MaskByte(r);
    MaskNone(q);
    MaskNone(s);
  }

  lemma Quads(p: nat, q: nat, r: nat, s: nat)
    requires p < 100 && q < 100 && r < 100 && s < 100
    ensures FoldQuads(Word(p, 0, q, 0, r, 0, s, 0)) == (100 * p + q) + 0x1_0000_0000 * (100 * r + s)
  {
    hide And;
    hide Or;
    EvenPairs(p, q, r, s);
    EvenPairs(q, r, s, 0);
    assert Word(p, 0, q, 0, r, 0, s, 0) / 65536 == Word(q, 0, r, 0, s, 0, 0, 0);
  }

  lemma Last(u: nat, v: nat)
    requires u < 10000 && v < 10000
    ensures FoldLast(u + 0x1_0000_0000 * v) == 10000 * u + v
  {
    hide And;
    hide Or;
    var w := u + 0x1_0000_0000 * v;
    Pow2Small();
    MaskIsRemainder(w, 32);
    assert w % 0x1_0000_0000 == u && w / 0x1_0000_0000 == v;
  }

  lemma Load8(p: seq<byte>)
    requires |p| == 8
    ensures Load(p) == Word(p[0], p[1], p[2], p[3], p[4], p[5], p[6], p[7])
  {
    var q1, q2, q3, q4, q5, q6, q7 := p[1..], p[2..], p[3..], p[4..], p[5..], p[6..], p[7..];
    assert q1[1..] == q2 && q2[1..] == q3 && q3[1..] == q4 && q4[1..] == q5 && q5[1..] == q6 && q6[1..] == q7 && q7[1..] == [];
    assert Load(q7) == p[7] as int;
    assert Load(q6) == p[6] as int + 256 * Load(q7);
    assert Load(q5) == p[5] as int + 256 * Load(q6);
    assert Load(q4) == p[4] as int + 256 * Load(q5);
    assert Load(q3) == p[3] as int + 256 * Load(q4);
    assert Load(q2) == p[2] as int + 256 * Load(q3);
    assert Load(q1) == p[1] as int + 256 * Load(q2);
  }

  lemma Number8(p: seq<byte>)
    requires |p| == 8
    ensures Number(p, 0, 8) == Digit(p[0]) * 10000000 + Digit(p[1]) * 1000000 + Digit(p[2]) * 100000 + Digit(p[3]) * 10000
                             + Digit(p[4]) * 1000 + Digit(p[5]) * 100 + Digit(p[6]) * 10 + Digit(p[7])
  {
    assert Number(p, 0, 1) == Digit(p[0]);
    assert Number(p, 0, 2) == Number(p, 0, 1) * 10 + Digit(p[1]);
    assert Number(p, 0, 3) == Number(p, 0, 2) * 10 + Digit(p[2]);
    assert Number(p, 0, 4) == Number(p, 0, 3) * 10 + Digit(p[3]);
    assert Number(p, 0, 5) == Number(p, 0, 4) * 10 + Digit(p[4]);
    assert Number(p, 0, 6) == Number(p, 0, 5) * 10 + Digit(p[5]);
    assert Number(p, 0, 7) == Number(p, 0, 6) * 10 + Digit(p[6]);
  }

  /** The three stages, on digits. */
  lemma Fold8Digits(a: nat, b: nat, c: nat, d: nat, e: nat, f: nat, g: nat, h: nat)
    requires Ten(a) && Ten(b) && Ten(c) && Ten(d) && Ten(e) && Ten(f) && Ten(g) && Ten(h)
    ensures FoldLast(FoldQuads(FoldPairs(Word(a, b, c, d, e, f, g, h))))
         == 10000 * (1000 * a + 100 * b + 10 * c + d) + (1000 * e + 100 * f + 10 * g + h)
  {
    hide And;
    hide Or;
    Pairs(a, b, c, d, e, f, g, h);
    Quads(10 * a + b, 10 * c + d, 10 * e + f, 10 * g + h);
    var u, v := 1000 * a + 100 * b + 10 * c + d, 1000 * e + 100 * f + 10 * g + h;
    assert 100 * (10 * a + b) + (10 * c + d) == u && 100 * (10 * e + f) + (10 * g + h) == v;
    Last(u, v);
  }

  lemma WordFits(a: nat, b: nat, c: nat, d: nat, e: nat, f: nat, g: nat, h: nat)
    requires Ten(a) && Ten(b) && Ten(c) && Ten(d) && Ten(e) && Ten(f) && Ten(g) && Ten(h)
    ensures Word(a, b, c, d, e, f, g, h) < WORD
  {
  }

  lemma Load8Digits(p: seq<byte>)
    requires |p| == 8
    ensures AllDigits(p) ==> Load(p) == Word(Digit(p[0]), Digit(p[1]), Digit(p[2]), Digit(p[3]), Digit(p[4]),
                                             Digit(p[5]), Digit(p[6]), Digit(p[7])) + Lanes(0x30, 8)
  {
    Load8(p);
    ZeroWord();
  }

  /** On eight digits the fold is their decimal value, the same as eight scalar steps. */
  lemma Fold8IsNumber(p: seq<byte>)
    requires |p| == 8 && AllDigits(p)
    ensures Fold8(Load(p)) == Number(p, 0, 8) && 0 <= Number(p, 0, 8) < 100000000
  {
    var a, b, c, d := Digit(p[0]), Digit(p[1]), Digit(p[2]), Digit(p[3]);
    var e, f, g, h := Digit(p[4]), Digit(p[5]), Digit(p[6]), Digit(p[7]);
    Load8Digits(p);
    WordFits(a, b, c, d, e, f, g, h);
    assert (Load(p) - Lanes(0x30, 8)) % WORD == Word(a, b, c, d, e, f, g, h);
    Number8(p);
    Fold8Digits(a, b, c, d, e, f, g, h);
  }

  lemma ZeroWord()
    ensures Lanes(0x30, 8) == Word(48, 48, 48, 48, 48, 48, 48, 48) && Lanes(0x30, 4) == 0x30303030
  {
    assert Lanes(0x30, 2) == 0x3030;
    assert Lanes(0x30, 4) == 0x3030 + 65536 * Lanes(0x30, 2);
    assert Lanes(0x30, 6) == 0x3030 + 65536 * Lanes(0x30, 4);
    assert Lanes(0x30, 8) == 0x3030 + 65536 * Lanes(0x30, 6);
  }

  lemma Pairs4(a: nat, b: nat, c: nat, d: nat)
    requires Ten(a) && Ten(b) && Ten(c) && Ten(d)
    ensures FoldPairs4(Word(a, b, c, d, 0, 0, 0, 0)) == (10 * a + b) + 65536 * (10 * c + d)
  {
    hide And;
    hide Or;
    HalfMask(a, b, c, d);
    HalfMask(b, c, d, 0);
    WordShift(a, b, c, d, 0, 0, 0, 0);
  }

  lemma Last4(u: nat, v: nat)
    requires u < 100 && v < 100
    ensures FoldLast4(u + 65536 * v) == 100 * u + v
  {
    hide And;
    hide Or;
    var w := u + 65536 * v;
    Pow2Small();
    MaskIsRemainder(w, 16);
    assert w % 65536 == u && w / 65536 == v;
  }

  lemma HalfMask(a: nat, b: nat, c: nat, d: nat)
    requires Ten(a) && Ten(b) && Ten(c) && Ten(d)
    ensures And(Word(a, b, c, d, 0, 0, 0, 0), 0x000F_000F) == a + 65536 * c
  {
    hide And;
    hide Or;
    MaskTwo(c, d, 0, 15, 0);
    MaskTwo(a, b, c + 256 * (d + 256 * 0), 15, 15);
    MaskNibble(a);
    MaskNibble(c);
    MaskNone(0);
  }

  lemma Fold4IsNumber(p: seq<byte>)
    requires |p| == 4 && AllDigits(p)
    ensures Fold4(Load(p)) == Number(p, 0, 4) && 0 <= Number(p, 0, 4) < 10000
  {
    hide And;
    hide Or;
    var a, b, c, d := Digit(p[0]), Digit(p[1]), Digit(p[2]), Digit(p[3]);
    Load4(p);
    ZeroWord();
    assert Number(p, 0, 1) == a;
    assert Number(p, 0, 2) == 10 * a + b;
    assert Number(p, 0, 3) == 100 * a + 10 * b + c;
    assert (Load(p) - Lanes(0x30, 4)) % 0x1_0000_0000 == Word(a, b, c, d, 0, 0, 0, 0);
    Pairs4(a, b, c, d);
    Last4(10 * a + b, 10 * c + d);
  }

  lemma Load4(p: seq<byte>)
    requires |p| == 4
    ensures Load(p) == Word(p[0], p[1], p[2], p[3], 0, 0, 0, 0)
  {
    var q1, q2, q3 := p[1..], p[2..], p[3..];
    assert q1[1..] == q2 && q2[1..] == q3 && q3[1..] == [];
    assert Load(q3) == p[3] as int;
    assert Load(q2) == p[2] as int + 256 * Load(q3);
    assert Load(q1) == p[1] as int + 256 * Load(q2);
  }
}
