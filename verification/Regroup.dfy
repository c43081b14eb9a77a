/** Regrouping bytes into five-bit words and back, as the Go server
    (tinyclient/connections.go, tinyclient/open.go) and the browser
    (tinyclient/tiny.js) do it. The specification is exact integer base
    conversion; the loops keep fixed-width accumulators that overflow. */
module Regroup {
  import opened Prelude
  import opened Digits

  type Word = w: int | 0 <= w < 32

  // ------------------------------------------------------------------
  // Regrouping, specified on unbounded integers

  /** The number of five-bit words that hold n bytes. */
  function WordCount(n: nat): nat { (8 * n + 4) / 5 }

  /** The bytes read as one big-endian number, padded with zero bits on the
      right, written in base 32. */
  function Words(data: Bytes): (words: seq<Word>)
    ensures |words| == WordCount(|data|)
  {
    var k := WordCount(|data|);
    ToDigits(32, Up(Value(256, data), 5 * k - 8 * |data|), k)
  }

  /** The inverse: at most four padding bits, all of them zero. */
  function Unwords(words: seq<Word>): Option<Bytes> {
    var left := 5 * |words| % 8;
    var v := Value(32, words);
    if left >= 5 || Low(v, left) != 0 then None
    else Some(ToDigits(256, Down(v, left), 5 * |words| / 8))
  }

  lemma WordsThenBytes(data: Bytes)
    ensures Unwords(Words(data)) == Some(data)
  {
    Pow2Table();
    hide Up, Down, Low, Value, ToDigits, Pow2;
    var n := |data|;
    var k := WordCount(n);
    var pad := 5 * k - 8 * n;
    var v := Value(256, data);
    BinaryValueBound(8, 256, data);
    UpBound(v, 8 * n, pad);
    BinaryDigits(5, 32, Up(v, pad), k);
    assert 5 * k % 8 == pad && 5 * k / 8 == n;
    UpDown(v, pad);
    DigitsOfValue(256, data);
  }

  lemma BytesThenWords(words: seq<Word>)
    requires Unwords(words).Some?
    ensures Words(Unwords(words).value) == words
  {
    Pow2Table();
    hide Up, Down, Low, Value, ToDigits, Pow2;
    var k := |words|;
    var left := 5 * k % 8;
    var n := 5 * k / 8;
    var v := Value(32, words);
    BinaryValueBound(5, 32, words);
    assert 8 * n + left == 5 * k;
    DownBound(v, 8 * n, left);
    BinaryDigits(8, 256, Down(v, left), n);
    DownUp(v, left);
    assert WordCount(n) == k;
    DigitsOfValue(32, words);
  }

  // ------------------------------------------------------------------
  // Regrouping, as the loops do it with fixed-width accumulators

  const TWO63: int := 0x8000_0000_0000_0000
  const TWO64: int := 0x1_0000_0000_0000_0000
  const TWO32: int := 0x1_0000_0000

  /** Two's complement 64-bit wrap-around of Go's int. */
  function Wrap64(x: int): int { (x + TWO63) % TWO64 - TWO63 }

  lemma Mod16(x: int, k: int)
    ensures (x + 65536 * k) % 65536 == x % 65536
  {
    ModShift(x, k, 65536);
  }

  lemma Wrap64Low(x: int)
    ensures Wrap64(x) % 65536 == x % 65536
  {
    var q := (x + TWO63) / TWO64;
    assert Wrap64(x) == x + 65536 * (-q * 0x1_0000_0000_0000);
    Mod16(x, -q * 0x1_0000_0000_0000);
  }

  lemma Wrap32Low(x: int)
    ensures (x % TWO32) % 65536 == x % 65536
  {
    var q := x / TWO32;
    assert x % TWO32 == x + 65536 * (-q * 65536);
    Mod16(x, -q * 65536);
  }

  /** Only the low sixteen bits of an accumulator ever reach a word. */
  lemma LowBits(a: int, e: int, k: nat)
    requires a % 65536 == e % 65536 && k <= 7
    ensures (a / Pow2(k)) % 32 == (e / Pow2(k)) % 32
    ensures (a / Pow2(k)) % 256 == (e / Pow2(k)) % 256
  {
    var q := a / 65536 - e / 65536;
    assert a == e + 65536 * q;
    Pow2Table();
    if k == 0 { Shifted(e, q, 1, 65536); }
    else if k == 1 { Shifted(e, q, 2, 32768); }
    else if k == 2 { Shifted(e, q, 4, 16384); }
    else if k == 3 { Shifted(e, q, 8, 8192); }
    else if k == 4 { Shifted(e, q, 16, 4096); }
    else if k == 5 { Shifted(e, q, 32, 2048); }
    else if k == 6 { Shifted(e, q, 64, 1024); }
    else { Shifted(e, q, 128, 512); }
  }

  lemma Shifted(e: int, q: int, p: nat, r: nat)
    requires p > 0 && p * r == 65536 && r % 256 == 0
    ensures ((e + 65536 * q) / p) % 32 == (e / p) % 32
    ensures ((e + 65536 * q) / p) % 256 == (e / p) % 256
  {
    var h := r / 256;
    assert 65536 * q == (r * q) * p;
    DivShift(e, r * q, p);
    assert r * q == 256 * (h * q);
    Mod8(e / p, h * q);
  }

  lemma Mod8(x: int, k: int)
    ensures (x + 256 * k) % 32 == x % 32
    ensures (x + 256 * k) % 256 == x % 256
  {
    ModShift(x, 8 * k, 32);
    ModShift(x, k, 256);
  }

  lemma ShiftLow(a: int, e: int, p: nat, v: int)
    requires a % 65536 == e % 65536
    ensures (a * p + v) % 65536 == (e * p + v) % 65536
    ensures (a * p) % 256 == (e * p) % 256 && (a * p) % 32 == (e * p) % 32
  {
    var q := a / 65536 - e / 65536;
    assert a == e + 65536 * q;
    assert a * p == e * p + 65536 * (q * p);
    Mod16(e * p + v, q * p);
    assert 65536 * (q * p) == 256 * (256 * (q * p));
    Mod8(e * p, 256 * (q * p));
  }

  lemma LowFive(x: int, y: int)
    requires x % 65536 == y % 65536
    ensures x % 32 == y % 32 && x % 256 == y % 256
  {
    var q := x / 65536 - y / 65536;
    assert x == y + 256 * (256 * q);
    Mod8(y, 256 * q);
  }

  /** Appending a byte keeps everything above the pending bits. */
  lemma AppendKeeps(e: nat, v: Byte, bits: nat)
    requires bits < 5
    ensures (e * 256 + v) / Pow2(bits + 8) == e / Pow2(bits)
  {
    Pow2Table();
    if bits == 0 {} else if bits == 1 {} else if bits == 2 {} else if bits == 3 {} else {}
  }

  lemma AppendWordKeeps(e: nat, v: Word, bits: nat)
    requires bits < 8
    ensures (e * 32 + v) / Pow2(bits + 5) == e / Pow2(bits)
  {
    Pow2Table();
    if bits == 0 {} else if bits == 1 {} else if bits == 2 {} else if bits == 3 {}
    else if bits == 4 {} else if bits == 5 {} else if bits == 6 {} else {}
  }

  lemma DivFive(e: nat, bits: nat)
    requires bits < 8
    ensures (e / Pow2(bits)) / 32 == e / Pow2(bits + 5)
    ensures (e / Pow2(bits)) / 256 == e / Pow2(bits + 8)
  {
    Pow2Add(bits, 5);
    Pow2Add(bits, 8);
    Pow2Table();
    DivDiv(e, Pow2(bits), 32);
    DivDiv(e, Pow2(bits), 256);
  }

  lemma PadLast(e: nat, bits: nat)
    requires 0 < bits < 5
    ensures (e * Pow2(5 - bits)) / 32 == e / Pow2(bits)
  {
    Pow2Table();
    if bits == 1 {} else if bits == 2 {} else if bits == 3 {} else {}
  }

  lemma ValueSnoc(b: nat, s: seq<int>, i: nat)
    requires i < |s| && b > 0 && InBase(b, s)
    ensures InBase(b, s[..i]) && InBase(b, s[..i + 1])
    ensures Value(b, s[..i + 1]) == Value(b, s[..i]) * b + s[i]
  {
    assert s[..i + 1][..i] == s[..i];
  }

  lemma LowAdd(x: int, y: int, v: int)
    requires x % 65536 == y % 65536
    ensures (x + v) % 65536 == (y + v) % 65536
  {
    var q := x / 65536 - y / 65536;
    assert x + v == y + v + 65536 * q;
    Mod16(y + v, q);
  }

  /** What both encoders maintain: the words so far are the bits of the n bytes
      read, whose number is e, except the last `bits` of them. */
  ghost predicate Regrouping(acc: int, bits: int, e: nat, n: nat, words: seq<Word>) {
    && 0 <= bits <= 12 && bits == 8 * n - 5 * |words|
    && acc % 65536 == e % 65536
    && words == ToDigits(32, Down(e, bits), |words|)
  }

  /** accumulator >> bits & 31 */
  function Digit(acc: int, bits: nat): Word { (acc / Pow2(bits)) % 32 }

  lemma PushByte(acc: int, next: int, bits: int, e: nat, n: nat, words: seq<Word>, v: Byte)
    requires Regrouping(acc, bits, e, n, words) && bits < 5
    requires next % 65536 == (acc * 256) % 65536
    ensures Regrouping(next + v, bits + 8, e * 256 + v, n + 1, words)
  {
    hide ToDigits;
    ShiftLow(acc, e, 256, 0);
    LowAdd(next, e * 256, v);
    AppendKeeps(e, v, bits);
  }

  lemma TakeWord(acc: int, bits: int, e: nat, n: nat, words: seq<Word>)
    requires Regrouping(acc, bits, e, n, words) && bits >= 5
    ensures Regrouping(acc, bits - 5, e, n, words + [Digit(acc, bits - 5)])
  {
    LowBits(acc, e, bits - 5);
    DivFive(e, bits - 5);
  }

  lemma LastWord(acc: int, last: int, bits: int, data: Bytes, words: seq<Word>)
    requires Regrouping(acc, bits, Value(256, data), |data|, words) && 0 < bits < 5
    requires last % 65536 == (acc * Pow2(5 - bits)) % 65536
    ensures words + [last % 32] == Words(data)
  {
    var e := Value(256, data);
    ShiftLow(acc, e, Pow2(5 - bits), 0);
    LowFive(last, acc * Pow2(5 - bits));
    PadLast(e, bits);
    assert WordCount(|data|) == |words| + 1 && 5 * (|words| + 1) - 8 * |data| == 5 - bits;
  }

  lemma NoLastWord(acc: int, data: Bytes, words: seq<Word>)
    requires Regrouping(acc, 0, Value(256, data), |data|, words)
    ensures words == Words(data)
  {
    var e := Value(256, data);
    assert Pow2(0) == 1;
    assert WordCount(|data|) == |words|;
  }

  lemma StartRegrouping()
    ensures Regrouping(0, 0, Value(256, []), 0, [])
  {}

  /** The Go loop: a signed 64-bit accumulator that is never masked. */
  method ConvertBits(data: Bytes) returns (result: seq<Word>)
    ensures result == Words(data)
  {
    hide Regrouping, Digit, Words;
    StartRegrouping();
    result := [];
    var accumulator, bits := 0, 0;
    for i := 0 to |data|
      invariant 0 <= bits < 5 && Regrouping(accumulator, bits, Value(256, data[..i]), i, result)
    {
      ValueSnoc(256, data, i);
      Wrap64Low(accumulator * 256);
      PushByte(accumulator, Wrap64(accumulator * 256), bits, Value(256, data[..i]), i, result, data[i]);
      accumulator := Wrap64(accumulator * 256) + data[i];
      bits := bits + 8;
      while bits >= 5
        invariant 0 <= bits && Regrouping(accumulator, bits, Value(256, data[..i + 1]), i + 1, result)
      {
        TakeWord(accumulator, bits, Value(256, data[..i + 1]), i + 1, result);
        bits := bits - 5;
        result := result + [Digit(accumulator, bits)];
      }
    }
    assert data[..|data|] == data;
    if bits > 0 {
      var last := Wrap64(accumulator * Pow2(5 - bits));
      Wrap64Low(accumulator * Pow2(5 - bits));
      LastWord(accumulator, last, bits, data, result);
      result := result + [last % 32];
    } else {
      NoLastWord(accumulator, data, result);
    }
  }

  /** The browser's loop: an unsigned 32-bit accumulator. */
  method ConvertBitsBrowser(data: Bytes) returns (words: seq<Word>)
    ensures words == Words(data)
  {
    hide Regrouping, Digit, Words;
    StartRegrouping();
    words := [];
    var accumulator, bits := 0, 0;
    for i := 0 to |data|
      invariant 0 <= bits < 5 && Regrouping(accumulator, bits, Value(256, data[..i]), i, words)
    {
      ValueSnoc(256, data, i);
      Wrap32Low(accumulator * 256);
      PushByte(accumulator, accumulator * 256 % TWO32, bits, Value(256, data[..i]), i, words, data[i]);
      accumulator := accumulator * 256 % TWO32 + data[i];
      bits := bits + 8;
      while bits >= 5
        invariant 0 <= bits && Regrouping(accumulator, bits, Value(256, data[..i + 1]), i + 1, words)
      {
        TakeWord(accumulator, bits, Value(256, data[..i + 1]), i + 1, words);
        bits := bits - 5;
        words := words + [Digit(accumulator, bits)];
      }
    }
    assert data[..|data|] == data;
    if bits > 0 {
      var last := accumulator * Pow2(5 - bits) % TWO32;
      Wrap32Low(accumulator * Pow2(5 - bits));
      LastWord(accumulator, last, bits, data, words);
      words := words + [last % 32];
    } else {
      NoLastWord(accumulator, data, words);
    }
  }

  lemma PaddingZero(e: nat, bits: nat)
    requires bits < 5
    ensures (e * Pow2(8 - bits)) % 256 == 0 <==> e % Pow2(bits) == 0
  {
    var p, r := Pow2(bits), Pow2(8 - bits);
    Pow2Add(bits, 8 - bits);
    Pow2Table();
    var q, m := e / p, e % p;
    DivModMul(e, p);
    Distribute(q * p, m, r);
    assert q * p * r == q * 256;
    MulStrict(m, p, r);
    DivModUnique(q, 256, m * r);
    if m != 0 { MulStrict(0, m, r); }
  }

  /** What the decoder maintains over the first n words, whose number is e. */
  ghost predicate Unpacking(acc: int, bits: int, e: nat, n: nat, out: Bytes) {
    && 0 <= bits <= 12 && bits == 5 * n - 8 * |out|
    && acc % 65536 == e % 65536
    && out == ToDigits(256, Down(e, bits), |out|)
  }

  /** accumulator >> bits & 255 */
  function Octet(acc: int, bits: nat): Byte { (acc / Pow2(bits)) % 256 }

  lemma PushWord(acc: int, next: int, bits: int, e: nat, n: nat, out: Bytes, v: Word)
    requires Unpacking(acc, bits, e, n, out) && bits < 8
    requires next % 65536 == (acc * 32) % 65536
    ensures Unpacking(next + v, bits + 5, e * 32 + v, n + 1, out)
  {
    hide ToDigits;
    ShiftLow(acc, e, 32, 0);
    LowAdd(next, e * 32, v);
    AppendWordKeeps(e, v, bits);
  }

  lemma TakeByte(acc: int, bits: int, e: nat, n: nat, out: Bytes)
    requires Unpacking(acc, bits, e, n, out) && bits >= 8
    ensures Unpacking(acc, bits - 8, e, n, out + [Octet(acc, bits - 8)])
  {
    LowBits(acc, e, bits - 8);
    DivFive(e, bits - 8);
  }

  lemma Leftover(acc: int, last: int, bits: int, words: seq<Word>, out: Bytes)
    requires Unpacking(acc, bits, Value(32, words), |words|, out) && bits < 8
    requires bits < 5 ==> last % 65536 == (acc * Pow2(8 - bits)) % 65536
    ensures bits >= 5 || last % 256 != 0 ==> Unwords(words) == None
    ensures bits < 5 && last % 256 == 0 ==> Unwords(words) == Some(out)
  {
    hide ToDigits, Down;
    var e := Value(32, words);
    assert bits == 5 * |words| % 8 && |out| == 5 * |words| / 8;
    if bits < 5 {
      ShiftLow(acc, e, Pow2(8 - bits), 0);
      LowFive(last, acc * Pow2(8 - bits));
      PaddingZero(e, bits);
    }
  }

  lemma StartUnpacking()
    ensures Unpacking(0, 0, Value(32, []), 0, [])
  {}

  /** The regrouping half of bech32Decode. */
  method RegroupWords(data: seq<Word>) returns (result: Option<Bytes>)
    ensures result == Unwords(data)
  {
    hide Unpacking, Octet, Unwords;
    StartUnpacking();
    var accumulator, bits := 0, 0;
    var out: Bytes := [];
    for i := 0 to |data|
      invariant 0 <= bits < 8 && Unpacking(accumulator, bits, Value(32, data[..i]), i, out)
    {
      ValueSnoc(32, data, i);
      Wrap64Low(accumulator * 32);
      PushWord(accumulator, Wrap64(accumulator * 32), bits, Value(32, data[..i]), i, out, data[i]);
      accumulator := Wrap64(accumulator * 32) + data[i];
      bits := bits + 5;
      if bits >= 8 {
        TakeByte(accumulator, bits, Value(32, data[..i + 1]), i + 1, out);
        bits := bits - 8;
        out := out + [Octet(accumulator, bits)];
      }
    }
    assert data[..|data|] == data;
    var last := if bits >= 5 then 0 else Wrap64(accumulator * Pow2(8 - bits));
    if bits < 5 {
      Wrap64Low(accumulator * Pow2(8 - bits));
    }
    Leftover(accumulator, last, bits, data, out);
    result := if bits >= 5 || last % 256 != 0 then None else Some(out);
  }
}
