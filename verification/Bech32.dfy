/** bech32 strings (BIP-173, sections "Bech32" and "Checksum") as
    tinyclient/connections.go writes them, tinyclient/tiny.js writes them and
    tinyclient/open.go reads them. Go strings are Dafny strings; their length in
    Go is the length of their UTF-8 form. */
module Bech32 {
  import opened Prelude
  import opened Text
  import opened Regroup
  import opened Checksum

  const CHARSET: string := "qpzry9x8gf2tvdw0s3jn54khce6mua7l"

  function Find(s: string, c: char): (i: int)
    ensures -1 <= i < |s|
    ensures i >= 0 ==> s[i] == c
    ensures i < 0 <==> c !in s
  {
    if s == [] then -1
    else if s[0] == c then 0
    else
      var r := Find(s[1..], c);
      if r < 0 then -1 else r + 1
  }

  lemma CharsetDistinct(i: nat, j: nat)
    requires i < j < 32
    ensures CHARSET[i] != CHARSET[j]
  {
    if i < 4 {
    } else if i < 8 {
    } else if i < 12 {
    } else if i < 16 {
    } else if i < 24 {
    } else {
    }
  }

  // ------------------------------------------------------------------
  // Letters and symbols

  function Letter(w: Word): char { CHARSET[w] }

  /** The position of a character in the alphabet, or -1. */
  function Position(c: char): (i: int)
    ensures -1 <= i < 32
  {
    Find(CHARSET, c)
  }

  lemma PositionOfLetter(w: Word)
    ensures Position(Letter(w)) == w
  {
    var i := Find(CHARSET, CHARSET[w]);
    if i < w { CharsetDistinct(i, w); } else if w < i { CharsetDistinct(w, i); }
  }

  lemma LetterOfPosition(c: char)
    requires Position(c) >= 0
    ensures Letter(Position(c)) == c
  {}

  lemma LetterPlain(w: Word)
    ensures Letter(w) != '1' && Letter(w) < 128 as char
  {}

  function Letters(words: seq<Word>): (s: string)
    ensures |s| == |words|
  {
    seq(|words|, i requires 0 <= i < |words| => Letter(words[i]))
  }

  predicate InAlphabet(s: string) { forall i :: 0 <= i < |s| ==> Position(s[i]) >= 0 }

  function Values(s: string): Option<seq<Word>> {
    if InAlphabet(s) then Some(seq(|s|, i requires 0 <= i < |s| => Position(s[i]))) else None
  }

  lemma ValuesOfLetters(words: seq<Word>)
    ensures Values(Letters(words)) == Some(words)
  {
    hide Position, Letter;
    var s := Letters(words);
    forall i | 0 <= i < |s| ensures Position(s[i]) == words[i] {
      PositionOfLetter(words[i]);
    }
    assert Values(s).value == words;
  }

  lemma LettersOfValues(s: string)
    requires Values(s).Some?
    ensures Letters(Values(s).value) == s
  {
    hide Position, Letter;
    var v := Values(s).value;
    forall i | 0 <= i < |s| ensures Letters(v)[i] == s[i] {
      LetterOfPosition(s[i]);
    }
    assert Letters(v) == s;
  }

  lemma LettersPlain(words: seq<Word>)
    ensures '1' !in Letters(words) && Ascii(Letters(words))
  {
    hide Letter;
    forall i | 0 <= i < |words| ensures Letters(words)[i] != '1' && Letters(words)[i] < 128 as char {
      LetterPlain(words[i]);
    }
  }

  lemma ValuesPlain(s: string)
    requires Values(s).Some?
    ensures '1' !in s && |Utf8(s)| == |s|
  {
    hide Position, Letter;
    LettersOfValues(s);
    LettersPlain(Values(s).value);
    AsciiLength(s);
  }

  /** The index of the last occurrence, or -1. */
  function LastIndex(s: string, c: char): (i: int)
    ensures -1 <= i < |s|
    ensures i >= 0 ==> s[i] == c
  {
    if s == [] then -1
    else if s[|s| - 1] == c then |s| - 1
    else LastIndex(s[..|s| - 1], c)
  }

  lemma {:induction false} SeparatorFound(hrp: string, rest: string)
    requires '1' !in rest
    ensures LastIndex(hrp + "1" + rest, '1') == |hrp|
  {
    var s := hrp + "1" + rest;
    if rest != [] {
      var init := rest[..|rest| - 1];
      assert s[|s| - 1] == rest[|rest| - 1];
      SeparatorFound(hrp, init);
      assert s[..|s| - 1] == hrp + "1" + init;
    }
  }

  // ------------------------------------------------------------------
  // Encoding and decoding

  function Code(c: char): int { c as int % 256 }

  /** The prefix as symbols: high bits, a zero, low bits. */
  function Expand(hrp: string): seq<Word> {
    seq(|hrp|, i requires 0 <= i < |hrp| => Code(hrp[i]) / 32) + [0]
    + seq(|hrp|, i requires 0 <= i < |hrp| => Code(hrp[i]) % 32)
  }

  function Encode(hrp: string, data: Bytes): string {
    var words := Words(data);
    hrp + "1" + Letters(words + ChecksumOf(Expand(hrp) + words))
  }

  datatype Decoding = Decoding(hrp: string, data: Bytes)

  function Decode(value: string): Option<Decoding> {
    var separator := LastIndex(value, '1');
    if separator < 1 || |Utf8(value[separator + 1..])| < 6 || |Utf8(value)| > 5000 then None
    else
      var hrp, encoded := value[..separator], value[separator + 1..];
      match Values(encoded)
      case None => None
      case Some(values) =>
        ValuesPlain(encoded);
        if Polymod(Expand(hrp) + values) != 1 then None
        else
          match Unwords(values[..|values| - 6])
          case None => None
          case Some(data) => Some(Decoding(hrp, data))
  }

  /** The decoder accepts exactly the encoder's output of what it returns. */
  lemma DecodeExact(value: string, hrp: string, data: Bytes)
    ensures Decode(value) == Some(Decoding(hrp, data))
       <==> hrp != "" && value == Encode(hrp, data) && |Utf8(value)| <= 5000
  {
    if hrp != "" && value == Encode(hrp, data) && |Utf8(value)| <= 5000 {
      DecodeEncoded(hrp, data);
    }
    if Decode(value) == Some(Decoding(hrp, data)) {
      EncodeDecoded(value);
    }
  }

  lemma DecodeEncoded(hrp: string, data: Bytes)
    requires hrp != "" && |Utf8(Encode(hrp, data))| <= 5000
    ensures Decode(Encode(hrp, data)) == Some(Decoding(hrp, data))
  {
    hide Polymod, ChecksumOf, Words, Unwords, Expand, Values, Letters, Utf8, LastIndex;
    var words := Words(data);
    var sum := ChecksumOf(Expand(hrp) + words);
    var rest := Letters(words + sum);
    var value := Encode(hrp, data);
    LettersPlain(words + sum);
    AsciiLength(rest);
    SeparatorFound(hrp, rest);
    assert value[..|hrp|] == hrp && value[|hrp| + 1..] == rest;
    ValuesOfLetters(words + sum);
    ChecksumExact(Expand(hrp) + words, sum);
    assert Expand(hrp) + (words + sum) == Expand(hrp) + words + sum;
    assert (words + sum)[..|words|] == words;
    WordsThenBytes(data);
  }

  lemma EncodeDecoded(value: string)
    requires Decode(value).Some?
    ensures Decode(value).value.hrp != ""
    ensures value == Encode(Decode(value).value.hrp, Decode(value).value.data)
  {
    hide Polymod, ChecksumOf, Words, Unwords, Expand, Letters, Utf8, LastIndex, Position;
    var separator := LastIndex(value, '1');
    var hrp, encoded := value[..separator], value[separator + 1..];
    var values := Values(encoded).value;
    ValuesPlain(encoded);
    var words, sum := values[..|values| - 6], values[|values| - 6..];
    assert values == words + sum;
    assert Expand(hrp) + values == Expand(hrp) + words + sum;
    ChecksumExact(Expand(hrp) + words, sum);
    BytesThenWords(words);
    LettersOfValues(encoded);
    assert value == hrp + "1" + encoded;
  }

  /** No two strings decode alike. */
  lemma DecodeInjective(s: string, t: string)
    requires Decode(s).Some? && Decode(s) == Decode(t)
    ensures s == t
  {
    EncodeDecoded(s);
    EncodeDecoded(t);
  }

  /** Replacing up to six neighbouring characters after the separator by other
      characters of the alphabet is always detected, at any length; a single
      wrong character is the case of a window of one. */
  lemma BurstDetected(value: string, from: nat, window: string)
    requires Decode(value).Some?
    requires LastIndex(value, '1') < from && from + |window| <= |value| && |window| <= 6
    requires InAlphabet(window) && window != value[from..from + |window|]
    ensures Decode(value[..from] + window + value[from + |window|..]) == None
  {
    hide Decode, LastIndex, InAlphabet;
    var separator := LastIndex(value, '1');
    var to := from + |window|;
    SeparatorPositive(value);
    var hrp, before, was, after := value[..separator], value[separator + 1..from], value[from..to], value[to..];
    assert value == hrp + "1" + (before + was + after);
    assert value[..from] + window + value[to..] == hrp + "1" + (before + window + after);
    assert value[separator + 1..] == before + was + after;
    BurstInParts(hrp, before, was, window, after);
  }

  lemma SeparatorPositive(value: string)
    requires Decode(value).Some?
    ensures LastIndex(value, '1') >= 1
    ensures '1' !in value[LastIndex(value, '1') + 1..]
  {
    hide Polymod, Unwords, Expand, Utf8, Values, LastIndex;
    ValuesPlain(value[LastIndex(value, '1') + 1..]);
  }

  /** What the decoder checks of a string cut at its separator. */
  lemma DecodeParts(hrp: string, rest: string)
    requires '1' !in rest
    ensures Decode(hrp + "1" + rest).Some? ==> Values(rest).Some? && Polymod(Expand(hrp) + Values(rest).value) == 1
  {
    hide Polymod, Unwords, Expand, Utf8, Values, LastIndex;
    var value := hrp + "1" + rest;
    SeparatorFound(hrp, rest);
    assert value[..|hrp|] == hrp && value[|hrp| + 1..] == rest;
  }

  lemma BurstInParts(hrp: string, before: string, was: string, window: string, after: string)
    requires '1' !in before + was + after
    requires Decode(hrp + "1" + (before + was + after)).Some?
    requires |was| == |window| <= 6 && was != window && InAlphabet(window)
    ensures Decode(hrp + "1" + (before + window + after)) == None
  {
    hide Decode, Polymod, Expand, Values, LastIndex, InAlphabet, Letters;
    DecodeParts(hrp, before + was + after);
    ValuesParts(before, was, after);
    ValuesJoin(before, window, after);
    ValuesPlain(before + window + after);
    var b, o, w, a := Values(before).value, Values(was).value, Values(window).value, Values(after).value;
    LettersOfValues(was);
    LettersOfValues(window);
    BurstChanges(Expand(hrp) + b, o, w, a);
    assert Expand(hrp) + (b + o + a) == Expand(hrp) + b + o + a;
    assert Expand(hrp) + (b + w + a) == Expand(hrp) + b + w + a;
    DecodeParts(hrp, before + window + after);
  }

  lemma ValuesParts(a: string, b: string, c: string)
    requires Values(a + b + c).Some?
    ensures Values(a).Some? && Values(b).Some? && Values(c).Some?
    ensures Values(a + b + c) == Some(Values(a).value + Values(b).value + Values(c).value)
    ensures |Values(b).value| == |b|
  {
    hide Position;
    var s := a + b + c;
    forall i | 0 <= i < |a| ensures Position(a[i]) >= 0 { assert a[i] == s[i]; }
    forall i | 0 <= i < |b| ensures Position(b[i]) >= 0 { assert b[i] == s[|a| + i]; }
    forall i | 0 <= i < |c| ensures Position(c[i]) >= 0 { assert c[i] == s[|a| + |b| + i]; }
    ValuesJoin(a, b, c);
  }

  lemma ValuesJoin(a: string, b: string, c: string)
    requires Values(a).Some? && InAlphabet(b) && Values(c).Some?
    ensures Values(b).Some? && |Values(b).value| == |b|
    ensures Values(a + b + c) == Some(Values(a).value + Values(b).value + Values(c).value)
  {
    hide Position;
    var s := a + b + c;
    forall i | 0 <= i < |s| ensures Position(s[i]) >= 0 {
      assert s[i] == if i < |a| then a[i] else if i < |a| + |b| then b[i - |a|] else c[i - |a| - |b|];
    }
    var va, vb, vc := Values(a).value, Values(b).value, Values(c).value;
    assert Values(s).value == va + vb + vc;
  }

  // ------------------------------------------------------------------
  // The programs

  method ExpandLoop(hrp: string) returns (expanded: seq<Word>)
    ensures expanded == Expand(hrp)
  {
    expanded := [];
    for i := 0 to |hrp|
      invariant expanded == seq(i, k requires 0 <= k < i => Code(hrp[k]) / 32)
    {
      expanded := expanded + [Code(hrp[i]) / 32];
    }
    ghost var high := expanded;
    expanded := expanded + [0];
    for i := 0 to |hrp|
      invariant expanded == high + [0] + seq(i, k requires 0 <= k < i => Code(hrp[k]) % 32)
    {
      expanded := expanded + [Code(hrp[i]) % 32];
    }
  }

  method WriteLetters(words: seq<Word>) returns (out: string)
    ensures out == Letters(words)
  {
    hide Letter;
    out := "";
    for i := 0 to |words|
      invariant out == Letters(words[..i])
    {
      out := out + [Letter(words[i])];
      assert words[..i + 1][..i] == words[..i];
    }
    assert words[..|words|] == words;
  }

  /** The server's encoder. */
  method EncodeServer(hrp: string, data: Bytes) returns (out: string)
    ensures out == Encode(hrp, data)
  {
    hide Polymod, Xor, Xor64, Wide, Cut, Cut64, State, Letters, Words, Expand;
    var fiveBits := ConvertBits(data);
    var expanded := ExpandLoop(hrp);
    var checked := PolymodServer(expanded + fiveBits + ZEROS);
    WideXor(Polymod(expanded + fiveBits + ZEROS), 1);
    WideOne();
    var polymod := Xor64(checked, 1);
    ghost var p := Xor(Polymod(expanded + fiveBits + ZEROS), 1);
    WideCut(p, 25);
    WideCut(p, 20);
    WideCut(p, 15);
    WideCut(p, 10);
    WideCut(p, 5);
    WideCut(p, 0);
    var checksum: seq<Word> :=
      [Cut64(polymod, 25), Cut64(polymod, 20), Cut64(polymod, 15), Cut64(polymod, 10), Cut64(polymod, 5), Cut64(polymod, 0)];
    assert checksum == ChecksumOf(Expand(hrp) + Words(data));
    var letters := WriteLetters(fiveBits + checksum);
    out := hrp + "1" + letters;
  }

  /** charCodeAt(0): a character's first UTF-16 unit. */
  function Unit(c: char): (n: nat)
    ensures n < 0x1_0000 && (c as int < 256 ==> n == Code(c))
  {
    if c as int < 0x1_0000 then c as int else 0xD800 + (c as int - 0x1_0000) / 0x400
  }

  function ExpandBrowser(prefix: string): (r: seq<bv32>)
    ensures |r| == 2 * |prefix| + 1
  {
    seq(|prefix|, i requires 0 <= i < |prefix| => (Unit(prefix[i]) / 32) as bv32) + [0]
    + seq(|prefix|, i requires 0 <= i < |prefix| => (Unit(prefix[i]) % 32) as bv32)
  }

  /** The prefix has no character beyond U+00FF. */
  predicate Narrow(prefix: string) { forall c :: c in prefix ==> c as int < 256 }

  lemma SymbolIs(w: Word)
    ensures Symbol(w) == w as bv32
  {
    FiveBits(w);
  }

  lemma ExpandAgrees(prefix: string)
    requires Narrow(prefix)
    ensures ExpandBrowser(prefix) == Symbols(Expand(prefix))
  {
    hide Symbol;
    var a, b := ExpandBrowser(prefix), Symbols(Expand(prefix));
    forall i | 0 <= i < |a| ensures a[i] == b[i] {
      SymbolIs(Expand(prefix)[i]);
      if i < |prefix| {
        assert prefix[i] in prefix;
      } else if i > |prefix| {
        assert prefix[i - |prefix| - 1] in prefix;
      }
    }
  }

  /** The checksum the browser appends after these numbers. */
  function ChecksumBrowser(units: seq<bv32>): (sum: seq<Word>)
    ensures |sum| == 6
  {
    var p := Xor(FoldUnits(1, units + Symbols(ZEROS)), 1);
    [Cut(p, 25), Cut(p, 20), Cut(p, 15), Cut(p, 10), Cut(p, 5), Cut(p, 0)]
  }

  lemma SymbolsConcat(a: seq<Word>, b: seq<Word>)
    ensures Symbols(a) + Symbols(b) == Symbols(a + b)
  {
    hide Symbol;
  }

  lemma ChecksumAgrees(words: seq<Word>)
    ensures ChecksumBrowser(Symbols(words)) == ChecksumOf(words)
  {
    hide Xor, Cut, Symbols, FoldUnits, Fold;
    SymbolsConcat(words, ZEROS);
    FoldSymbols(1, words + ZEROS);
  }

  /** The browser's encoder. It gives the server's string on every prefix
      without characters beyond U+00FF; on others it checksums UTF-16 units
      where the server checksums bytes. */
  method EncodeBrowser(prefix: string, value: Bytes) returns (out: string)
    ensures out == prefix + "1" + Letters(Words(value) + ChecksumBrowser(ExpandBrowser(prefix) + Symbols(Words(value))))
    ensures Narrow(prefix) ==> out == Encode(prefix, value)
  {
    hide Polymod, Xor, Cut, State, Letters, Words, Expand, ExpandBrowser, Symbols, FoldUnits, ChecksumOf;
    var words := ConvertBitsBrowser(value);
    var units := ExpandBrowser(prefix) + Symbols(words);
    var checked := PolymodBrowser(units + Symbols(ZEROS));
    var p := Xor(checked, 1);
    var checksum: seq<Word> := [Cut(p, 25), Cut(p, 20), Cut(p, 15), Cut(p, 10), Cut(p, 5), Cut(p, 0)];
    assert checksum == ChecksumBrowser(units);
    if Narrow(prefix) {
      ExpandAgrees(prefix);
      SymbolsConcat(Expand(prefix), words);
      ChecksumAgrees(Expand(prefix) + words);
    }
    var letters := WriteLetters(words + checksum);
    out := prefix + "1" + letters;
  }

  method ReadValues(encoded: string) returns (values: Option<seq<Word>>)
    ensures values == Values(encoded)
  {
    hide Position;
    var out: seq<Word> := [];
    for i := 0 to |encoded|
      invariant InAlphabet(encoded[..i]) && out == Values(encoded[..i]).value
    {
      var position := Position(encoded[i]);
      if position < 0 {
        assert !InAlphabet(encoded);
        return None;
      }
      out := out + [position];
      assert encoded[..i + 1][..i] == encoded[..i];
      assert InAlphabet(encoded[..i + 1]);
    }
    assert encoded[..|encoded|] == encoded;
    return Some(out);
  }

  /** bech32Decode. */
  method DecodeServer(value: string) returns (result: Option<Decoding>)
    ensures result == Decode(value)
  {
    hide Polymod, Unwords, Expand, Utf8, Values, LastIndex, Wide, State;
    var separator := LastIndex(value, '1');
    if separator < 1 || |Utf8(value[separator + 1..])| < 6 || |Utf8(value)| > 5000 {
      return None;
    }
    var hrp, encoded := value[..separator], value[separator + 1..];
    var values := ReadValues(encoded);
    if values == None {
      return None;
    }
    var expanded := ExpandLoop(hrp);
    var checked := PolymodServer(expanded + values.value);
    WideIsOne(Polymod(expanded + values.value));
    if checked != 1 {
      return None;
    }
    ValuesPlain(encoded);
    ValuesLength(encoded);
    var data := RegroupWords(values.value[..|values.value| - 6]);
    if data == None {
      return None;
    }
    return Some(Decoding(hrp, data.value));
  }

  lemma ValuesLength(s: string)
    requires Values(s).Some?
    ensures |Values(s).value| == |s|
  {}

  lemma WideIsOne(p: bv32)
    ensures Wide(p) == 1 <==> p == 1
  {}
}
