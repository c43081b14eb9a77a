/** Positional notation: big-endian digit strings and their values, powers of
    two, and the division facts the regrouping proofs rest on. */
module Digits {

  function Power(b: nat, k: nat): nat {
    if k == 0 then 1 else Power(b, k - 1) * b
  }

  function Pow2(k: nat): (p: nat)
    ensures p > 0
  {
    if k == 0 then 1 else 2 * Pow2(k - 1)
  }

  ghost predicate InBase(b: nat, s: seq<int>) {
    forall i :: 0 <= i < |s| ==> 0 <= s[i] < b
  }

  function Value(b: nat, s: seq<int>): (v: nat)
    requires InBase(b, s)
  {
    if s == [] then 0 else Value(b, s[..|s| - 1]) * b + s[|s| - 1]
  }

  function ToDigits(b: nat, v: nat, k: nat): (s: seq<nat>)
    requires b > 0
    ensures |s| == k && InBase(b, s)
    decreases k
  {
    if k == 0 then []
    else
      DivModMul(v, b);
      ToDigits(b, v / b, k - 1) + [v % b]
  }

  lemma {:induction false} ValueBound(b: nat, s: seq<int>)
    requires b > 0 && InBase(b, s)
    ensures Value(b, s) < Power(b, |s|)
  {
    if s != [] {
      var t := s[..|s| - 1];
      ValueBound(b, t);
      MulMono(Value(b, t) + 1, Power(b, |t|), b);
      assert Value(b, t) * b + b == (Value(b, t) + 1) * b;
    }
  }

  lemma {:induction false} ValueOfDigits(b: nat, v: nat, k: nat)
    requires b > 0 && v < Power(b, k)
    ensures Value(b, ToDigits(b, v, k)) == v
    decreases k
  {
    if k > 0 {
      var t := ToDigits(b, v / b, k - 1);
      DivStrict(v, Power(b, k - 1), b);
      ValueOfDigits(b, v / b, k - 1);
      var s := ToDigits(b, v, k);
      assert s[..|s| - 1] == t;
      DivModMul(v, b);
    }
  }

  lemma {:induction false} DigitsOfValue(b: nat, s: seq<int>)
    requires b > 0 && InBase(b, s)
    ensures ToDigits(b, Value(b, s), |s|) == s
  {
    if s != [] {
      var t := s[..|s| - 1];
      var x := s[|s| - 1];
      DigitsOfValue(b, t);
      DivModUnique(Value(b, t), b, x);
      assert s == t + [x];
    }
  }

  // ------------------------------------------------------------------
  // Arithmetic

  lemma MulMono(x: nat, y: nat, b: nat)
    requires x <= y
    ensures x * b <= y * b
  {}

  lemma MulStrict(x: nat, y: nat, b: nat)
    requires x < y && b > 0
    ensures x * b < y * b
  {
    MulMono(x + 1, y, b);
    assert (x + 1) * b == x * b + b;
  }

  lemma DivModMul(v: nat, b: nat)
    requires b > 0
    ensures v / b >= 0 && 0 <= v % b < b
    ensures v / b * b + v % b == v
  {
    DivNonNegative(v, b);
  }

  lemma DivNonNegative(v: nat, b: nat)
    requires b > 0
    ensures v / b >= 0
  {}

  lemma DivModUnique(q: nat, b: nat, r: nat)
    requires r < b
    ensures (q * b + r) / b == q && (q * b + r) % b == r
  {
    var v := q * b + r;
    DivModMul(v, b);
    var q' := v / b;
    if q' < q {
      Distribute(q', 1, b);
      MulMono(q' + 1, q, b);
    } else if q < q' {
      Distribute(q, 1, b);
      MulMono(q + 1, q', b);
    }
  }

  lemma DivExact(q: nat, b: nat)
    requires b > 0
    ensures (q * b) / b == q && (q * b) % b == 0
  {
    DivModUnique(q, b, 0);
  }

  lemma DivModExact(v: nat, b: nat)
    requires b > 0 && v % b == 0
    ensures v == v / b * b
  {
    DivModMul(v, b);
  }

  lemma DivStrict(v: nat, y: nat, b: nat)
    requires b > 0 && v < y * b
    ensures v / b < y
  {
    DivModMul(v, b);
    if y <= v / b { MulMono(y, v / b, b); }
  }

  /** Adding a multiple of the divisor adds to the quotient, for any sign. */
  lemma DivShift(e: int, k: int, b: nat)
    requires b > 0
    ensures (e + k * b) / b == e / b + k
  {
    var q, r := e / b, e % b;
    assert e + k * b == (q + k) * b + r;
    var x := (e + k * b) / b;
    var y := (e + k * b) % b;
    assert x * b + y == (q + k) * b + r;
    assert (x - (q + k)) * b == r - y;
    BetweenMultiples(x - (q + k), b);
  }

  lemma ModShift(e: int, k: int, b: nat)
    requires b > 0
    ensures (e + k * b) % b == e % b
  {
    DivShift(e, k, b);
    var q := e / b;
    assert (q + k) * b == q * b + k * b;
  }

  lemma BetweenMultiples(d: int, b: nat)
    requires 0 - b < d * b < b
    ensures d == 0
  {}

  lemma DivDiv(e: nat, x: nat, y: nat)
    requires x > 0 && y > 0
    ensures x * y > 0
    ensures e / x / y == e / (x * y)
  {
    MulStrict(0, x, y);
    var q := e / x / y;
    var r := (e / x) % y;
    DivModMul(e, x);
    DivModMul(e / x, y);
    assert e == (q * y + r) * x + e % x;
    assert (q * y + r) * x == q * (x * y) + r * x by {
      assert (q * y) * x == q * (x * y);
      Distribute(q * y, r, x);
    }
    MulMono(r + 1, y, x);
    Distribute(r, 1, x);
    assert r * x + e % x < x * y;
    DivModUnique(q, x * y, r * x + e % x);
  }

  lemma Distribute(a: nat, b: nat, c: nat)
    ensures (a + b) * c == a * c + b * c
  {}

  lemma {:induction false} Pow2Add(a: nat, b: nat)
    ensures Pow2(a + b) == Pow2(a) * Pow2(b)
  {
    if b > 0 {
      Pow2Add(a, b - 1);
      Twice(Pow2(a), Pow2(b - 1));
    }
  }

  lemma Twice(x: nat, y: nat)
    ensures x * (2 * y) == 2 * (x * y)
  {}

  lemma {:induction false} Pow2Power(e: nat, k: nat)
    ensures Power(Pow2(e), k) == Pow2(e * k)
  {
    if k > 0 {
      Pow2Power(e, k - 1);
      assert e * k == e * (k - 1) + e;
      Pow2Add(e * (k - 1), e);
    }
  }

  lemma Pow2Table()
    ensures Pow2(0) == 1 && Pow2(1) == 2 && Pow2(2) == 4 && Pow2(3) == 8 && Pow2(4) == 16
    ensures Pow2(5) == 32 && Pow2(6) == 64 && Pow2(7) == 128 && Pow2(8) == 256
    ensures Pow2(9) == 512 && Pow2(10) == 1024 && Pow2(11) == 2048 && Pow2(12) == 4096
  {
    assert Pow2(3) == 8;
    assert Pow2(6) == 64;
    assert Pow2(9) == 512;
  }

  // ------------------------------------------------------------------
  // Shifts

  function Up(v: nat, k: nat): nat { v * Pow2(k) }

  function Down(v: nat, k: nat): nat {
    DivNonNegative(v, Pow2(k));
    v / Pow2(k)
  }

  function Low(v: nat, k: nat): nat { v % Pow2(k) }

  lemma UpDown(v: nat, k: nat)
    ensures Down(Up(v, k), k) == v && Low(Up(v, k), k) == 0
  {
    DivExact(v, Pow2(k));
  }

  lemma DownUp(v: nat, k: nat)
    requires Low(v, k) == 0
    ensures Up(Down(v, k), k) == v
  {
    DivModExact(v, Pow2(k));
  }

  lemma UpBound(v: nat, n: nat, k: nat)
    requires v < Pow2(n)
    ensures Up(v, k) < Pow2(n + k)
  {
    hide Pow2;
    MulStrict(v, Pow2(n), Pow2(k));
    Pow2Add(n, k);
  }

  lemma DownBound(v: nat, n: nat, k: nat)
    requires v < Pow2(n + k)
    ensures Down(v, k) < Pow2(n)
  {
    hide Pow2;
    Pow2Add(n, k);
    DivStrict(v, Pow2(n), Pow2(k));
  }

  /** Digit strings in a base that is a power of two, both ways. */
  lemma BinaryValueBound(e: nat, b: nat, s: seq<int>)
    requires b == Pow2(e) && InBase(b, s)
    ensures Value(b, s) < Pow2(e * |s|)
  {
    ValueBound(b, s);
    Pow2Power(e, |s|);
  }

  lemma BinaryDigits(e: nat, b: nat, v: nat, k: nat)
    requires b == Pow2(e) && v < Pow2(e * k)
    ensures Value(b, ToDigits(b, v, k)) == v
  {
    Pow2Power(e, k);
    ValueOfDigits(b, v, k);
  }
}
