/** Floats are read by their value: the eight and four bytes of IEEE 754
    (section 3.4) stand for a real number, and the reader of
    tinyclient/blossom-manifests.js yields a whole number exactly when that is
    one. */
module MsgPackFloat {
  import opened Prelude
  import opened MsgPack
  import opened MsgPackFormat
  import Digits

  /** m times two to the power e. */
  function Times(m: real, e: int): real {
    if e >= 0 then m * Digits.Pow2(e) as real else m / Digits.Pow2(-e) as real
  }

  /** A sign, a biased exponent and a fraction of so many bits, with the implicit
      leading one unless the exponent is zero; None for infinities and NaN. */
  function Ieee(negative: bool, exponent: nat, fraction: nat, width: nat, bias: nat): Option<real> {
    var part := fraction as real / Digits.Pow2(width) as real;
    var size := if exponent == 0 then Times(part, 1 - bias) else Times(1.0 + part, exponent - bias);
    if exponent == 2 * bias + 1 then None else Some(if negative then -size else size)
  }

  /** binary64 and binary32: the bit fields of the big-endian bytes. */
  function Real(bits: Bytes): Option<real> {
    var n := Digits.Value(256, bits);
    if |bits| == 8 then
      Ieee(n / 0x8000_0000_0000_0000 == 1, n / 0x10_0000_0000_0000 % 0x800, n % 0x10_0000_0000_0000, 52, 1023)
    else if |bits| == 4 then
      Ieee(n / 0x8000_0000 == 1, n / 0x80_0000 % 0x100, n % 0x80_0000, 23, 127)
    else None
  }

  lemma Quotient(a: real, p: real, q: real, r: real)
    requires q > 0.0 && r > 0.0 && p == q * r
    ensures a / p * q == a / r && a / q / r == a / p
  {
    assert a / r * r == a && a / p * p == a && a / q * q == a;
    assert (a / p * q) * r == a;
    assert ((a / q / r) * r) * q == a;
    Cancel(a / p * q, a / r, r);
    assert (a / q / r) * p == ((a / q / r) * r) * q;
    Cancel(a / q / r, a / p, p);
  }

  lemma Spread(x: real, q: real)
    ensures (1.0 + x) * q == q + x * q
  {}

  lemma Cancel(x: real, y: real, r: real)
    requires r > 0.0 && x * r == y * r
    ensures x == y
  {}

  lemma RealPow2(a: nat, b: nat)
    ensures Digits.Pow2(a + b) as real == Digits.Pow2(a) as real * Digits.Pow2(b) as real
  {
    Digits.Pow2Add(a, b);
  }

  lemma Grow(m: real, p: real, q: real)
    requires p > 0.0
    ensures m / p * (q * p) == m * q
  {
    assert m / p * p == m;
    assert m / p * (q * p) == (m / p * p) * q;
  }

  lemma TimesUp(m: real, k: nat, e: nat)
    ensures Times(m / Digits.Pow2(k) as real, e + k) == Times(m, e)
  {
    hide Digits.Pow2;
    RealPow2(e, k);
    Grow(m, Digits.Pow2(k) as real, Digits.Pow2(e) as real);
  }

  lemma TimesAcross(m: real, up: nat, down: nat, e: int)
    requires down > 0 && e + down == 0
    ensures Times(m / Digits.Pow2(up + down) as real, up) == Times(m, e)
  {
    hide Digits.Pow2;
    RealPow2(up, down);
    Quotient(m, Digits.Pow2(up + down) as real, Digits.Pow2(up) as real, Digits.Pow2(down) as real);
  }

  lemma TimesDown(m: real, k: nat, down: nat, e: int)
    requires down > 0 && e == -(k + down)
    ensures Times(m / Digits.Pow2(k) as real, e + k) == Times(m, e)
  {
    hide Digits.Pow2;
    RealPow2(k, down);
    Quotient(m, Digits.Pow2(k + down) as real, Digits.Pow2(k) as real, Digits.Pow2(down) as real);
  }

  /** Moving the point. */
  lemma TimesShift(m: real, k: nat, e: int)
    ensures Times(m / Digits.Pow2(k) as real, e + k) == Times(m, e)
  {
    hide Digits.Pow2, Times;
    if e >= 0 {
      TimesUp(m, k, e);
    } else if e + k >= 0 {
      TimesAcross(m, e + k, -e, e);
    } else {
      TimesDown(m, k, -e - k, e);
    }
  }

  lemma ScaledExact(negative: bool, m: nat, e: int, n: int)
    ensures Scaled(negative, m, e) == Some(n) <==> (if negative then -Times(m as real, e) else Times(m as real, e)) == n as real
  {
    hide Digits.Pow2;
    var k := if negative then -n else n;
    if m == 0 {
      Nothing(e);
    } else if e < 0 {
      WholeQuotient(m, Digits.Pow2(-e), k);
    } else {
      WholeProduct(m, Digits.Pow2(e), k);
    }
  }

  lemma Nothing(e: int)
    ensures Times(0.0, e) == 0.0
  {
    hide Digits.Pow2;
  }

  lemma WholeProduct(m: nat, p: nat, n: int)
    ensures m as real * p as real == n as real <==> m * p == n
  {
    assert (m * p) as real == m as real * p as real;
  }

  lemma WholeQuotient(m: nat, p: nat, n: int)
    requires p > 0
    ensures m as real / p as real == n as real <==> m % p == 0 && m / p == n
  {
    var q := p as real;
    Undo(m as real, q);
    RealProduct(n, p);
    if m as real / q == n as real {
      NotNegative(m, n, p);
      Digits.DivExact(n, p);
    }
    if m % p == 0 && m / p == n {
      Digits.DivModExact(m, p);
      Cancel(m as real / q, n as real, q);
    }
  }

  lemma Undo(a: real, q: real)
    requires q > 0.0
    ensures a / q * q == a
  {}

  lemma RealProduct(n: int, p: int)
    ensures n as real * p as real == (n * p) as real
  {}

  lemma NotNegative(m: nat, n: int, p: nat)
    requires p > 0 && m == n * p
    ensures n >= 0
  {}

  /** The fields of the eight bytes, from the top. */
  lemma DoubleFields(b0: Byte, b1: Byte, low: nat)
    requires low < 0x1_0000_0000_0000
    ensures var n := b0 * 0x100_0000_0000_0000 + b1 * 0x1_0000_0000_0000 + low;
      && (n / 0x8000_0000_0000_0000 == 1 <==> b0 >= 128)
      && n / 0x10_0000_0000_0000 % 0x800 == b0 % 128 * 16 + b1 / 16
      && n % 0x10_0000_0000_0000 == b1 % 16 * 0x1_0000_0000_0000 + low
  {
    var n := b0 * 0x100_0000_0000_0000 + b1 * 0x1_0000_0000_0000 + low;
    var q, r := b0 * 16 + b1 / 16, b1 % 16 * 0x1_0000_0000_0000 + low;
    assert n == q * 0x10_0000_0000_0000 + r;
    Digits.DivModUnique(q, 0x10_0000_0000_0000, r);
    Digits.DivDiv(n, 0x10_0000_0000_0000, 0x800);
    TopDoubleBits(b0, b1);
  }

  lemma TopBits(b0: Byte, b1: Byte)
    ensures (b0 * 2 + b1 / 128) / 256 == b0 / 128 && (b0 * 2 + b1 / 128) % 256 == b0 % 128 * 2 + b1 / 128
  {
    Digits.DivModUnique(b0 / 128, 256, b0 % 128 * 2 + b1 / 128);
  }

  lemma TopDoubleBits(b0: Byte, b1: Byte)
    ensures (b0 * 16 + b1 / 16) / 2048 == b0 / 128 && (b0 * 16 + b1 / 16) % 2048 == b0 % 128 * 16 + b1 / 16
  {
    Digits.DivModUnique(b0 / 128, 2048, b0 % 128 * 16 + b1 / 16);
  }

  lemma SingleFields(b0: Byte, b1: Byte, low: nat)
    requires low < 0x1_0000
    ensures var n := b0 * 0x100_0000 + b1 * 0x1_0000 + low;
      && (n / 0x8000_0000 == 1 <==> b0 >= 128)
      && n / 0x80_0000 % 0x100 == b0 % 128 * 2 + b1 / 128
      && n % 0x80_0000 == b1 % 128 * 0x1_0000 + low
  {
    var n := b0 * 0x100_0000 + b1 * 0x1_0000 + low;
    var q, r := b0 * 2 + b1 / 128, b1 % 128 * 0x1_0000 + low;
    assert n == q * 0x80_0000 + r;
    Digits.DivModUnique(q, 0x80_0000, r);
    Digits.DivDiv(n, 0x80_0000, 0x100);
    TopBits(b0, b1);
  }

  /** An IEEE 754 number as a whole significand and a power of two. */
  lemma IeeeScaled(negative: bool, exponent: nat, fraction: nat, width: nat, bias: nat, n: int)
    ensures Ieee(negative, exponent, fraction, width, bias) == Some(n as real) <==>
      exponent != 2 * bias + 1
      && (if exponent == 0 then Scaled(negative, fraction, 1 - bias - width) else Scaled(negative, Digits.Pow2(width) + fraction, exponent - bias - width)) == Some(n)
  {
    hide Scaled, Times, Digits.Pow2;
    var p := Digits.Pow2(width);
    if exponent == 0 {
      TimesShift(fraction as real, width, 1 - bias - width);
      ScaledExact(negative, fraction, 1 - bias - width, n);
    } else {
      One(fraction, p);
      TimesShift((p + fraction) as real, width, exponent - bias - width);
      ScaledExact(negative, p + fraction, exponent - bias - width, n);
    }
  }

  lemma One(fraction: nat, p: nat)
    requires p > 0
    ensures 1.0 + fraction as real / p as real == (p + fraction) as real / p as real
  {
    var q, f := p as real, fraction as real;
    Undo(f, q);
    Undo((p + fraction) as real, q);
    Spread(f / q, q);
    assert (1.0 + f / q) * q == q + f;
    assert (p + fraction) as real == q + f;
    Cancel(1.0 + f / q, (p + fraction) as real / q, q);
  }

  /** The reader's whole number is the number the bytes stand for. */
  lemma WholeExact(bits: Bytes, n: int)
    ensures WholeFloat(bits) == Some(n) <==> Real(bits) == Some(n as real)
  {
    hide Scaled, Ieee, Digits.Value;
    if |bits| == 8 {
      DoubleExact(bits, n);
    } else if |bits| == 4 {
      SingleExact(bits, n);
    }
  }

  lemma DoubleParts(bits: Bytes, b0: nat, b1: nat)
    requires |bits| == 8 && b0 == bits[0] && b1 == bits[1]
    ensures Real(bits) == Ieee(b0 >= 128, b0 % 128 * 16 + b1 / 16, b1 % 16 * 0x1_0000_0000_0000 + Number(bits[2..], 6), 52, 1023)
  {
    hide Ieee, Digits.Value, Number;
    TopBytes(bits);
    DoubleFields(bits[0], bits[1], Number(bits[2..], 6));
  }

  lemma SingleParts(bits: Bytes, b0: nat, b1: nat)
    requires |bits| == 4 && b0 == bits[0] && b1 == bits[1]
    ensures Real(bits) == Ieee(b0 >= 128, b0 % 128 * 2 + b1 / 128, b1 % 128 * 0x1_0000 + Number(bits[2..], 2), 23, 127)
  {
    hide Ieee, Digits.Value, Number;
    TopBytes(bits);
    SingleFields(bits[0], bits[1], Number(bits[2..], 2));
  }

  lemma DoubleExact(bits: Bytes, n: int)
    requires |bits| == 8
    ensures WholeFloat(bits) == Some(n) <==> Real(bits) == Some(n as real)
  {
    hide Scaled, Ieee, Real, Number, Digits.Pow2;
    var b0: nat, b1: nat := bits[0], bits[1];
    DoubleParts(bits, b0, b1);
    PowerIs();
    IeeeScaled(b0 >= 128, b0 % 128 * 16 + b1 / 16, b1 % 16 * 0x1_0000_0000_0000 + Number(bits[2..], 6), 52, 1023, n);
  }

  lemma SingleExact(bits: Bytes, n: int)
    requires |bits| == 4
    ensures WholeFloat(bits) == Some(n) <==> Real(bits) == Some(n as real)
  {
    hide Scaled, Ieee, Real, Number, Digits.Pow2;
    var b0: nat, b1: nat := bits[0], bits[1];
    SingleParts(bits, b0, b1);
    PowerIs();
    IeeeScaled(b0 >= 128, b0 % 128 * 2 + b1 / 128, b1 % 128 * 0x1_0000 + Number(bits[2..], 2), 23, 127, n);
  }

  lemma TopBytes(bits: Bytes)
    requires |bits| == 8 || |bits| == 4
    ensures var k := |bits| - 2; var low := Number(bits[2..], k);
      low < (if |bits| == 8 then 0x1_0000_0000_0000 else 0x1_0000)
      && Digits.Value(256, bits) ==
        if |bits| == 8 then bits[0] * 0x100_0000_0000_0000 + bits[1] * 0x1_0000_0000_0000 + low
        else bits[0] * 0x100_0000 + bits[1] * 0x1_0000 + low
  {
    hide Digits.Value, Digits.Power;
    FirstDigit(bits);
    FirstDigit(bits[1..]);
    assert bits[1..][1..] == bits[2..] && bits[2..][..|bits| - 2] == bits[2..];
    Powers();
    SmallPowers();
    SixBytes();
  }

  lemma SixBytes()
    ensures Digits.Power(256, 6) == 0x1_0000_0000_0000
  {
    assert Digits.Power(256, 3) == 0x100_0000;
    assert Digits.Power(256, 6) == 0x1_0000_0000_0000;
  }

  lemma PowerIs()
    ensures Digits.Pow2(52) == 0x10_0000_0000_0000 && Digits.Pow2(23) == 0x80_0000
  {
    Digits.Pow2Table();
    assert Digits.Pow2(23) == 0x80_0000;
    Digits.Pow2Add(23, 23);
    Digits.Pow2Add(46, 6);
  }

  /** Tags CA and CB read four and eight bytes: as the whole safe number they
      stand for, or as a float when they stand for none. */
  lemma FloatForms(tag: Byte, bits: Bytes, rest: Bytes, depth: nat)
    requires depth <= 64 && (tag, |bits|) in {(0xCA, 4), (0xCB, 8)}
    ensures var read := Read([tag] + (bits + rest), depth);
      && (forall n :: Safe(n) ==> (read == Some(Parsed(Int(n), rest)) <==> Real(bits) == Some(n as real)))
      && ((forall n :: Safe(n) ==> Real(bits) != Some(n as real)) ==> read == Some(Parsed(Float(bits), rest)))
  {
    hide WholeFloat, Real, ReadArr, ReadObj, ReadText, ReadBin;
    var r := bits + rest;
    assert r[..|bits|] == bits && r[|bits|..] == rest;
    assert ([tag] + r)[1..] == r;
    var whole := WholeFloat(bits);
    if whole.Some? { WholeExact(bits, whole.value); }
    forall n | Safe(n) ensures WholeFloat(bits) == Some(n) <==> Real(bits) == Some(n as real) {
      WholeExact(bits, n);
    }
  }

  /** Finite means that the bytes stand for a number. */
  lemma FiniteExact(bits: Bytes)
    ensures Finite(bits) <==> Real(bits).Some?
  {
    hide Digits.Value, Number, Times;
    if |bits| == 8 {
      DoubleParts(bits, bits[0], bits[1]);
    } else if |bits| == 4 {
      SingleParts(bits, bits[0], bits[1]);
    }
  }
}
