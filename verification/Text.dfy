/** Text as the browser code sees it. A Dafny `string` is a sequence of Unicode
    scalar values, so it is exactly a well-formed JavaScript string; UTF-8
    encoding, fatal decoding with its removal of a leading byte order mark, and
    the byte order used to sort names are defined here. */
module Text {
  import opened Prelude

  // ------------------------------------------------------------------
  // UTF-8

  function EncodeChar(c: char): (b: Bytes)
    ensures 1 <= |b| <= 4
  {
    var n := c as int;
    if n < 0x80 then [n]
    else if n < 0x800 then [0xC0 + n / 64, 0x80 + n % 64]
    else if n < 0x1_0000 then [0xE0 + n / 4096, 0x80 + n / 64 % 64, 0x80 + n % 64]
    else [0xF0 + n / 0x4_0000, 0x80 + n / 4096 % 64, 0x80 + n / 64 % 64, 0x80 + n % 64]
  }

  function Utf8(s: string): Bytes {
    if s == [] then [] else EncodeChar(s[0]) + Utf8(s[1..])
  }

  predicate Continuation(b: Byte) { 0x80 <= b < 0xC0 }

  predicate Scalar(n: int) { 0 <= n < 0xD800 || 0xE000 <= n < 0x11_0000 }

  function Payload(b: Byte, mark: int): int { b - mark }

  datatype Decoded = Decoded(c: char, size: nat)

  /** Accepts a code point only in its shortest form. */
  function Shortest(n: int, least: int, size: nat): (r: Option<Decoded>) {
    if n < least || !Scalar(n) then None else Some(Decoded(n as char, size))
  }

  function DecodeChar(b: Bytes): (r: Option<Decoded>)
    ensures r.Some? ==> 1 <= r.value.size <= |b|
  {
    if |b| == 0 then None
    else if b[0] < 0x80 then Some(Decoded(b[0] as char, 1))
    else if b[0] < 0xC0 then None
    else if b[0] < 0xE0 then
      if |b| < 2 || !Continuation(b[1]) then None
      else Shortest(64 * Payload(b[0], 0xC0) + Payload(b[1], 0x80), 0x80, 2)
    else if b[0] < 0xF0 then
      if |b| < 3 || !Continuation(b[1]) || !Continuation(b[2]) then None
      else Shortest(4096 * Payload(b[0], 0xE0) + 64 * Payload(b[1], 0x80) + Payload(b[2], 0x80), 0x800, 3)
    else if b[0] < 0xF8 then
      if |b| < 4 || !Continuation(b[1]) || !Continuation(b[2]) || !Continuation(b[3]) then None
      else Shortest(0x4_0000 * Payload(b[0], 0xF0) + 4096 * Payload(b[1], 0x80) + 64 * Payload(b[2], 0x80)
                    + Payload(b[3], 0x80), 0x1_0000, 4)
    else None
  }

  function FromUtf8(b: Bytes): Option<string> {
    if b == [] then Some("")
    else match DecodeChar(b)
      case None => None
      case Some(Decoded(c, n)) =>
        match FromUtf8(b[n..])
        case None => None
        case Some(s) => Some([c] + s)
  }

  lemma SixBitGroups(n: int)
    requires 0 <= n < 0x11_0000
    ensures n == 64 * (n / 64) + n % 64
    ensures n == 4096 * (n / 4096) + 64 * (n / 64 % 64) + n % 64
    ensures n == 0x4_0000 * (n / 0x4_0000) + 4096 * (n / 4096 % 64) + 64 * (n / 64 % 64) + n % 64
  {}

  lemma CharRoundTrip(c: char, rest: Bytes)
    ensures DecodeChar(EncodeChar(c) + rest) == Some(Decoded(c, |EncodeChar(c)|))
  {
    var n := c as int;
    SixBitGroups(n);
    var b := EncodeChar(c) + rest;
    if n < 0x80 {
      assert b[0] == n;
    } else if n < 0x800 {
      assert b[0] == 0xC0 + n / 64 && b[1] == 0x80 + n % 64;
    } else if n < 0x1_0000 {
      assert b[0] == 0xE0 + n / 4096 && b[1] == 0x80 + n / 64 % 64 && b[2] == 0x80 + n % 64;
    } else {
      assert b[0] == 0xF0 + n / 0x4_0000 && b[1] == 0x80 + n / 4096 % 64;
      assert b[2] == 0x80 + n / 64 % 64 && b[3] == 0x80 + n % 64;
    }
  }

  lemma {:induction false} Utf8RoundTrip(s: string)
    ensures FromUtf8(Utf8(s)) == Some(s)
  {
    hide EncodeChar, DecodeChar;
    if s != [] {
      CharRoundTrip(s[0], Utf8(s[1..]));
      Utf8RoundTrip(s[1..]);
      assert Utf8(s)[|EncodeChar(s[0])|..] == Utf8(s[1..]);
      assert s == [s[0]] + s[1..];
    }
  }

  /** A decoded character stood in the bytes in its one encoding. */
  lemma DecodedChar(b: Bytes)
    requires DecodeChar(b).Some?
    ensures b[..DecodeChar(b).value.size] == EncodeChar(DecodeChar(b).value.c)
  {
    if b[0] < 0x80 {
    } else if b[0] < 0xE0 {
      Groups(0, 0, b[0] as int - 0xC0, b[1] as int - 0x80);
    } else if b[0] < 0xF0 {
      Groups(0, b[0] as int - 0xE0, b[1] as int - 0x80, b[2] as int - 0x80);
    } else {
      Groups(b[0] as int - 0xF0, b[1] as int - 0x80, b[2] as int - 0x80, b[3] as int - 0x80);
    }
  }

  lemma Groups(a: int, b: int, c: int, d: int)
    requires 0 <= a < 64 && 0 <= b < 64 && 0 <= c < 64 && 0 <= d < 64
    ensures var n := 0x4_0000 * a + 4096 * b + 64 * c + d;
      && n / 0x4_0000 == a && n / 4096 == 64 * a + b && n / 4096 % 64 == b
      && n / 64 == 4096 * a + 64 * b + c && n / 64 % 64 == c && n % 64 == d
  {
    var n := 0x4_0000 * a + 4096 * b + 64 * c + d;
    assert n == 64 * (4096 * a + 64 * b + c) + d;
    assert n == 4096 * (64 * a + b) + (64 * c + d);
  }

  /** The decoder accepts exactly the encodings: no longer forms, no surrogates,
      nothing cut short. */
  lemma {:induction false} FromUtf8Exact(b: Bytes, s: string)
    ensures FromUtf8(b) == Some(s) <==> b == Utf8(s)
    decreases |b|
  {
    hide EncodeChar, DecodeChar;
    if b == Utf8(s) {
      Utf8RoundTrip(s);
    }
    if FromUtf8(b) == Some(s) && b != [] {
      var d := DecodeChar(b).value;
      DecodedChar(b);
      FromUtf8Exact(b[d.size..], s[1..]);
      assert b == b[..d.size] + b[d.size..];
    }
  }

  /** The examples of section 7 of RFC 3629. */
  lemma Utf8Examples()
    ensures Utf8("A\U{2262}\U{391}.") == [0x41, 0xE2, 0x89, 0xA2, 0xCE, 0x91, 0x2E]
    ensures Utf8("\U{D55C}\U{AD6D}") == [0xED, 0x95, 0x9C, 0xEA, 0xB5, 0xAD]
    ensures Utf8("\U{FEFF}\U{233B4}") == [0xEF, 0xBB, 0xBF, 0xF0, 0xA3, 0x8E, 0xB4]
  {
    var a, b, c := "A\U{2262}\U{391}.", "\U{D55C}\U{AD6D}", "\U{FEFF}\U{233B4}";
    assert a[1..][1..][1..][1..] == [] && b[1..][1..] == [] && c[1..][1..] == [];
    assert EncodeChar('\U{2262}') == [0xE2, 0x89, 0xA2] && EncodeChar('\U{391}') == [0xCE, 0x91];
    assert Utf8(a) == EncodeChar(a[0]) + (EncodeChar(a[1]) + (EncodeChar(a[2]) + (EncodeChar(a[3]) + [])));
    assert Utf8(b) == EncodeChar(b[0]) + (EncodeChar(b[1]) + []);
    assert Utf8(c) == EncodeChar(c[0]) + (EncodeChar(c[1]) + []);
  }

  lemma Utf8Injective(s: string, t: string)
    requires Utf8(s) == Utf8(t)
    ensures s == t
  {
    Utf8RoundTrip(s);
    Utf8RoundTrip(t);
  }

  lemma {:induction false} Utf8Length(s: string)
    ensures |s| <= |Utf8(s)| <= 4 * |s|
  {
    if s != [] {
      Utf8Length(s[1..]);
    }
  }

  predicate Ascii(s: string) { forall i :: 0 <= i < |s| ==> s[i] < 128 as char }

  lemma {:induction false} AsciiLength(s: string)
    requires Ascii(s)
    ensures |Utf8(s)| == |s|
  {
    if s != [] {
      AsciiLength(s[1..]);
    }
  }

  // ------------------------------------------------------------------
  // The browser's decoder

  const BOM: char := '\U{FEFF}'

  predicate StartsWithBom(s: string) { |s| > 0 && s[0] == BOM }

  function StripText(s: string): string { if StartsWithBom(s) then s[1..] else s }

  lemma StripTextClean(s: string)
    ensures StripText(s) == s <==> !StartsWithBom(s)
  {
    if StartsWithBom(s) {
      assert |s[1..]| < |s|;
    }
  }

  /** TextDecoder in fatal mode: ill-formed input fails, and one leading byte
      order mark is dropped. */
  function TextDecode(b: Bytes): Option<string> {
    match FromUtf8(b)
    case None => None
    case Some(s) => Some(StripText(s))
  }

  lemma TextRoundTrip(s: string)
    ensures TextDecode(Utf8(s)) == Some(StripText(s))
  {
    Utf8RoundTrip(s);
  }

  /** Exactly one mark is dropped, and only from the front. */
  lemma MarkDropped(b: Bytes, s: string)
    ensures TextDecode([0xEF, 0xBB, 0xBF] + b) == FromUtf8(b)
    ensures !([0xEF, 0xBB, 0xBF] <= b) ==> TextDecode(b) == FromUtf8(b)
  {
    hide EncodeChar, DecodeChar, Utf8;
    var mark: Bytes := [0xEF, 0xBB, 0xBF];
    MarkEncoded();
    CharRoundTrip(BOM, b);
    assert (mark + b)[3..] == b;
    if FromUtf8(b).Some? && StartsWithBom(FromUtf8(b).value) {
      MarkFirst(b);
    }
  }

  lemma MarkEncoded()
    ensures EncodeChar(BOM) == [0xEF, 0xBB, 0xBF]
  {}

  lemma MarkFirst(b: Bytes)
    requires FromUtf8(b).Some? && StartsWithBom(FromUtf8(b).value)
    ensures [0xEF, 0xBB, 0xBF] <= b
  {
    hide EncodeChar, DecodeChar;
    DecodedChar(b);
    MarkEncoded();
  }

  // ------------------------------------------------------------------
  // The order of names

  /** At the first difference x has the smaller byte, or x ends there. */
  ghost predicate FirstDiffers(x: Bytes, y: Bytes, k: nat) {
    && k <= |x| && k < |y| && x[..k] == y[..k]
    && (k == |x| || x[k] < y[k])
  }

  /** a comes before b, byte by byte of their UTF-8. */
  ghost predicate Precedes(a: string, b: string) {
    exists k: nat :: FirstDiffers(Utf8(a), Utf8(b), k)
  }

  /** The sign of this number orders byte strings. */
  function CompareBytes(x: Bytes, y: Bytes): int {
    if x == [] || y == [] then |x| - |y|
    else if x[0] != y[0] then x[0] - y[0]
    else CompareBytes(x[1..], y[1..])
  }

  function Compare(a: string, b: string): int { CompareBytes(Utf8(a), Utf8(b)) }

  predicate Before(a: string, b: string) { Compare(a, b) < 0 }

  lemma {:induction false} CompareBytesOrder(x: Bytes, y: Bytes)
    ensures CompareBytes(x, y) == -CompareBytes(y, x)
    ensures CompareBytes(x, y) == 0 <==> x == y
  {
    if x != [] && y != [] && x[0] == y[0] {
      CompareBytesOrder(x[1..], y[1..]);
      if x[1..] == y[1..] {
        assert x == [x[0]] + x[1..] && y == [y[0]] + y[1..];
      }
    }
  }

  lemma {:induction false} CompareBytesTransitive(x: Bytes, y: Bytes, z: Bytes)
    requires CompareBytes(x, y) < 0 && CompareBytes(y, z) < 0
    ensures CompareBytes(x, z) < 0
  {
    if x != [] && y != [] && z != [] && x[0] == y[0] == z[0] {
      CompareBytesTransitive(x[1..], y[1..], z[1..]);
    }
  }

  /** The order of names is a strict total order. */
  lemma BeforeTotal(a: string, b: string)
    ensures Compare(a, b) == -Compare(b, a)
    ensures Compare(a, b) == 0 <==> a == b
  {
    CompareBytesOrder(Utf8(a), Utf8(b));
    if Utf8(a) == Utf8(b) {
      Utf8Injective(a, b);
    }
  }

  lemma BeforeTransitive(a: string, b: string, c: string)
    requires Before(a, b) && Before(b, c)
    ensures Before(a, c)
  {
    CompareBytesTransitive(Utf8(a), Utf8(b), Utf8(c));
  }

  lemma {:induction false} CompareBytesExact(x: Bytes, y: Bytes)
    ensures CompareBytes(x, y) < 0 <==> exists k: nat :: FirstDiffers(x, y, k)
  {
    if x == [] || y == [] {
      if x == [] && y != [] { assert FirstDiffers(x, y, 0); }
    } else if x[0] != y[0] {
      if x[0] < y[0] { assert FirstDiffers(x, y, 0); }
      FirstsSame(x, y);
    } else {
      CompareBytesExact(x[1..], y[1..]);
      if k: nat :| FirstDiffers(x[1..], y[1..], k) {
        assert x[..k + 1] == [x[0]] + x[1..][..k] && y[..k + 1] == [y[0]] + y[1..][..k];
        assert FirstDiffers(x, y, k + 1);
      }
      if k: nat :| FirstDiffers(x, y, k) {
        TailDiffers(x, y, k);
      }
    }
  }

  lemma FirstsSame(x: Bytes, y: Bytes)
    requires x != [] && y != []
    ensures forall k: nat :: k > 0 && FirstDiffers(x, y, k) ==> x[0] == y[0]
  {
    forall k: nat | k > 0 && FirstDiffers(x, y, k) ensures x[0] == y[0] {
      assert x[..k][0] == y[..k][0];
    }
  }

  lemma TailDiffers(x: Bytes, y: Bytes, k: nat)
    requires x != [] && y != [] && x[0] == y[0] && FirstDiffers(x, y, k)
    ensures k > 0 && FirstDiffers(x[1..], y[1..], k - 1)
  {
    assert x[1..][..k - 1] == x[..k][1..] && y[1..][..k - 1] == y[..k][1..];
  }

  /** The comparison is negative exactly when the first differing byte is
      smaller, or the first text is a proper prefix. */
  lemma BeforeExact(a: string, b: string)
    ensures Before(a, b) <==> Precedes(a, b)
  {
    CompareBytesExact(Utf8(a), Utf8(b));
  }

  /** utf8cmp. */
  method Utf8Cmp(a: string, b: string) returns (r: int)
    ensures r == Compare(a, b) && (r < 0 <==> Precedes(a, b)) && (r == 0 <==> a == b)
  {
    hide Utf8, CompareBytes;
    var x, y := Utf8(a), Utf8(b);
    BeforeExact(a, b);
    BeforeTotal(a, b);
    var n := if |x| < |y| then |x| else |y|;
    assert x[0..] == x && y[0..] == y;
    for i := 0 to n
      invariant CompareBytes(x, y) == CompareBytes(x[i..], y[i..])
    {
      CompareNext(x[i..], y[i..]);
      if x[i] != y[i] {
        return x[i] as int - y[i] as int;
      }
      assert x[i..][1..] == x[i + 1..] && y[i..][1..] == y[i + 1..];
    }
    CompareEnd(x[n..], y[n..]);
    return |x| - |y|;
  }

  lemma CompareNext(x: Bytes, y: Bytes)
    requires x != [] && y != []
    ensures CompareBytes(x, y) == if x[0] != y[0] then x[0] as int - y[0] as int else CompareBytes(x[1..], y[1..])
  {}

  lemma CompareEnd(x: Bytes, y: Bytes)
    requires x == [] || y == []
    ensures CompareBytes(x, y) == |x| - |y|
  {}
}
