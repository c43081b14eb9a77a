/** The MessagePack specification's own formats (sections "int format family" to
    "map format family"), byte by byte on both sides of every boundary, stated
    of the writer's encoding and of the reader. */
module MsgPackFormat {
  import opened Prelude
  import opened Text
  import opened MsgPack
  import Digits

  lemma OneByte(n: nat)
    requires n < 0x100
    ensures BE(n, 1) == [n]
  {
    hide Digits.Value;
    assert Digits.ToDigits(256, n / 256, 0) == [];
  }

  lemma TwoBytes(n: nat)
    requires n < 0x1_0000
    ensures BE(n, 2) == [n / 0x100, n % 0x100]
  {
    OneByte(n / 0x100);
  }

  lemma FourBytes(n: nat)
    requires n < 0x1_0000_0000
    ensures BE(n, 4) == [n / 0x100_0000, n / 0x1_0000 % 0x100, n / 0x100 % 0x100, n % 0x100]
  {
    TwoBytes(n / 0x1_0000);
    assert n / 0x100 / 0x100 == n / 0x1_0000 && n / 0x1_0000 / 0x100 == n / 0x100_0000;
    assert Digits.ToDigits(256, n, 4) == Digits.ToDigits(256, n / 0x100, 3) + [n % 0x100];
    assert Digits.ToDigits(256, n / 0x100, 3) == Digits.ToDigits(256, n / 0x1_0000, 2) + [n / 0x100 % 0x100];
  }

  /** Integers take the shortest form that holds them. */
  lemma IntFormat(n: int)
    requires Safe(n)
    ensures 0 <= n <= 0x7F ==> Enc(Int(n)) == [n]
    ensures -32 <= n < 0 ==> Enc(Int(n)) == [0x100 + n]
    ensures 0x80 <= n <= 0xFF ==> Enc(Int(n)) == [0xCC, n]
    ensures 0x100 <= n <= 0xFFFF ==> Enc(Int(n)) == [0xCD, n / 0x100, n % 0x100]
    ensures 0x1_0000 <= n <= 0xFFFF_FFFF ==>
      Enc(Int(n)) == [0xCE, n / 0x100_0000, n / 0x1_0000 % 0x100, n / 0x100 % 0x100, n % 0x100]
    ensures -0x80 <= n < -32 ==> Enc(Int(n)) == [0xD0, 0x100 + n]
    ensures -0x8000 <= n < -0x80 ==> Enc(Int(n)) == [0xD1, (0x1_0000 + n) / 0x100, (0x1_0000 + n) % 0x100]
    ensures -0x8000_0000 <= n < -0x8000 ==> var u := 0x1_0000_0000 + n;
      Enc(Int(n)) == [0xD2, u / 0x100_0000, u / 0x1_0000 % 0x100, u / 0x100 % 0x100, u % 0x100]
  {
    hide BE;
    if 0 <= n < 0x100 { OneByte(n); }
    if 0 <= n < 0x1_0000 { TwoBytes(n); }
    if 0 <= n < 0x1_0000_0000 { FourBytes(n); }
    if -0x80 <= n < 0 { OneByte(0x100 + n); }
    if -0x8000 <= n < 0 { TwoBytes(0x1_0000 + n); }
    if -0x8000_0000 <= n < 0 { FourBytes(0x1_0000_0000 + n); }
  }

  /** Beyond four bytes they take eight, big-endian, in two's complement. */
  lemma LongIntFormat(n: int)
    requires Safe(n) && !(-0x8000_0000 <= n <= 0xFFFF_FFFF)
    ensures var e := Enc(Int(n)); |e| == 9 && e[0] == (if n > 0 then 0xCF else 0xD3)
    ensures Digits.Value(256, Enc(Int(n))[1..]) == if n > 0 then n else 0x1_0000_0000_0000_0000 + n
  {
    hide Digits.Value, Digits.ToDigits;
    Powers();
    var u := if n > 0 then n else 0x1_0000_0000_0000_0000 + n;
    assert Enc(Int(n))[1..] == Digits.ToDigits(256, u, 8);
    Digits.ValueOfDigits(256, u, 8);
  }

  /** Text, binary data, arrays and maps: the short forms up to 31, 255, 15 and
      15, then the forms with a length of one or two bytes. */
  lemma HeadFormats(n: nat)
    requires n < 0x1_0000
    ensures StrHead(n) == if n <= 31 then [0xA0 + n] else if n <= 255 then [0xD9, n] else [0xDA, n / 0x100, n % 0x100]
    ensures BinHead(n) == if n <= 255 then [0xC4, n] else [0xC5, n / 0x100, n % 0x100]
    ensures ArrHead(n) == if n <= 15 then [0x90 + n] else [0xDC, n / 0x100, n % 0x100]
    ensures ObjHead(n) == if n <= 15 then [0x80 + n] else [0xDE, n / 0x100, n % 0x100]
  {
    hide BE;
    TwoBytes(n);
    if n < 0x100 { OneByte(n); }
  }

  lemma ConstantFormats()
    ensures Enc(Null) == [0xC0] && Enc(Bool(false)) == [0xC2] && Enc(Bool(true)) == [0xC3]
  {}

  // ------------------------------------------------------------------
  // Reading

  lemma {:induction false} FirstDigit(s: seq<int>)
    requires s != [] && Digits.InBase(256, s)
    ensures Digits.InBase(256, s[1..])
    ensures Digits.Value(256, s) == s[0] * Digits.Power(256, |s| - 1) + Digits.Value(256, s[1..])
    ensures Digits.Value(256, s[1..]) < Digits.Power(256, |s| - 1)
  {
    Digits.ValueBound(256, s[1..]);
    if |s| > 1 {
      var t := s[..|s| - 1];
      FirstDigit(t);
      assert s[1..][..|s| - 2] == t[1..];
      Regrouped(s[0], Digits.Power(256, |s| - 2), Digits.Value(256, t[1..]));
    }
  }

  lemma Regrouped(a: nat, p: nat, v: nat)
    ensures (a * p + v) * 256 == a * (p * 256) + v * 256
  {}

  /** Two's complement: a leading bit subtracts the modulus. */
  function TwosComplement(b: Bytes): int
    requires b != []
  {
    if b[0] >= 0x80 then Digits.Value(256, b) - Digits.Power(256, |b|) else Digits.Value(256, b)
  }

  lemma SignBit(b: Bytes)
    requires Width(|b|)
    ensures Signed(Digits.Value(256, b), |b|) == TwosComplement(b)
  {
    hide Digits.Value, Digits.Power;
    Powers();
    FirstDigit(b);
    Digits.ValueBound(256, b);
    SmallPowers();
  }

  lemma SmallPowers()
    ensures Digits.Power(256, 0) == 1 && Digits.Power(256, 3) == 0x100_0000 && Digits.Power(256, 7) == 0x100_0000_0000_0000
  {
    assert Digits.Power(256, 3) == 0x100_0000;
    assert Digits.Power(256, 5) == 0x100_0000_0000;
    assert Digits.Power(256, 7) == 0x100_0000_0000_0000;
  }

  /** Integers are read in every form, also a longer one than the writer takes:
      tags CC to CF are unsigned, D0 to D3 signed, of one, two, four and eight
      bytes; only the eight-byte forms can leave the safe range. */
  lemma IntForms(tag: Byte, b: Bytes, rest: Bytes, depth: nat)
    requires depth <= 64
    requires (tag, |b|) in {(0xCC, 1), (0xCD, 2), (0xCE, 4), (0xCF, 8), (0xD0, 1), (0xD1, 2), (0xD2, 4), (0xD3, 8)}
    ensures var n := if tag >= 0xD0 then TwosComplement(b) else Digits.Value(256, b);
      Read([tag] + (b + rest), depth) == if |b| == 8 && !Safe(n) then None else Some(Parsed(Int(n), rest))
  {
    hide Digits.Value, Digits.Power, ReadArr, ReadObj, ReadText, ReadBin;
    SignBit(b);
    var r := b + rest;
    assert r[..|b|] == b && r[|b|..] == rest;
    assert ([tag] + r)[1..] == r;
  }
}
