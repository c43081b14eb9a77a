/** NIP-19 identifiers with extra metadata: TLV packing in
    tinyclient/connections.go and target resolution in tinyclient/open.go. */
module Nip19 {
  import opened Prelude
  import opened Text
  import opened Regroup
  import opened Checksum
  import opened Bech32
  import opened Trimming
  import Decimal

  // ------------------------------------------------------------------
  // Hexadecimal

  function HexDigit(d: int): char
    requires 0 <= d < 16
  {
    "0123456789abcdef"[d]
  }

  function Hex(data: Bytes): string {
    if data == [] then "" else [HexDigit(data[0] / 16), HexDigit(data[0] % 16)] + Hex(data[1..])
  }

  /** Either case is read. */
  function HexValue(c: char): (v: int)
    ensures -1 <= v < 16
  {
    if '0' <= c <= '9' then (c - '0') as int
    else if 'a' <= c <= 'f' then (c - 'a') as int + 10
    else if 'A' <= c <= 'F' then (c - 'A') as int + 10
    else -1
  }

  function FromHex(s: string): Option<Bytes> {
    if s == "" then Some([])
    else if |s| < 2 || HexValue(s[0]) < 0 || HexValue(s[1]) < 0 then None
    else
      match FromHex(s[2..])
      case None => None
      case Some(rest) => Some([HexValue(s[0]) * 16 + HexValue(s[1])] + rest)
  }

  lemma HexDigitRoundTrip(d: int)
    requires 0 <= d < 16
    ensures HexValue(HexDigit(d)) == d
  {}

  lemma {:induction false} HexRoundTrip(data: Bytes)
    ensures FromHex(Hex(data)) == Some(data) && |Hex(data)| == 2 * |data|
  {
    if data != [] {
      HexRoundTrip(data[1..]);
      HexStep(data);
    }
  }

  lemma HexStep(data: Bytes)
    requires data != [] && FromHex(Hex(data[1..])) == Some(data[1..]) && |Hex(data[1..])| == 2 * |data[1..]|
    ensures FromHex(Hex(data)) == Some(data) && |Hex(data)| == 2 * |data|
  {
    hide HexDigit, HexValue, Hex, FromHex;
    var high, low := data[0] / 16, data[0] % 16;
    HexFirst(data);
    HexDigitRoundTrip(high);
    HexDigitRoundTrip(low);
    HexCons(HexDigit(high), HexDigit(low), Hex(data[1..]));
    assert [high * 16 + low] + data[1..] == data;
  }

  lemma HexFirst(data: Bytes)
    requires data != []
    ensures Hex(data) == [HexDigit(data[0] / 16), HexDigit(data[0] % 16)] + Hex(data[1..])
  {}

  lemma HexCons(a: char, b: char, rest: string)
    requires HexValue(a) >= 0 && HexValue(b) >= 0
    ensures FromHex([a, b] + rest)
         == if FromHex(rest) == None then None else Some([HexValue(a) * 16 + HexValue(b)] + FromHex(rest).value)
  {
    hide HexValue;
    assert ([a, b] + rest)[2..] == rest;
  }

  /** The digits in order. */
  lemma HexDigits()
    ensures Hex([0x01, 0x23, 0x45, 0x67, 0x89, 0xAB, 0xCD, 0xEF]) == "0123456789abcdef"
  {
    hide Hex;
    LowDigits();
    HighDigits();
    var a: Bytes, b: Bytes := [0x01, 0x23, 0x45, 0x67], [0x89, 0xAB, 0xCD, 0xEF];
    HexJoin(a, b);
    assert a + b == [0x01, 0x23, 0x45, 0x67, 0x89, 0xAB, 0xCD, 0xEF];
    assert "01234567" + "89abcdef" == "0123456789abcdef";
  }

  lemma LowDigits()
    ensures Hex([0x01, 0x23, 0x45, 0x67]) == "01234567"
  {
    hide Hex;
    HexPairs(0x01, 0x23, 0x45, 0x67);
  }

  lemma HighDigits()
    ensures Hex([0x89, 0xAB, 0xCD, 0xEF]) == "89abcdef"
  {
    hide Hex;
    HexPairs(0x89, 0xAB, 0xCD, 0xEF);
  }

  lemma HexPairs(a: Byte, b: Byte, c: Byte, d: Byte)
    ensures Hex([a, b, c, d]) == [HexDigit(a / 16), HexDigit(a % 16), HexDigit(b / 16), HexDigit(b % 16),
                                  HexDigit(c / 16), HexDigit(c % 16), HexDigit(d / 16), HexDigit(d % 16)]
  {
    hide HexDigit;
    assert [a, b, c, d][1..] == [b, c, d] && [b, c, d][1..] == [c, d] && [c, d][1..] == [d] && [d][1..] == [];
    assert Hex([d]) == [HexDigit(d / 16), HexDigit(d % 16)] + Hex([]);
    assert Hex([c, d]) == [HexDigit(c / 16), HexDigit(c % 16)] + Hex([d]);
    assert Hex([b, c, d]) == [HexDigit(b / 16), HexDigit(b % 16)] + Hex([c, d]);
  }

  lemma {:induction false} HexJoin(a: Bytes, b: Bytes)
    ensures Hex(a + b) == Hex(a) + Hex(b)
  {
    hide HexDigit;
    if a == [] {
      assert a + b == b;
    } else {
      assert (a + b)[0] == a[0] && (a + b)[1..] == a[1..] + b;
      HexJoin(a[1..], b);
    }
  }

  /** Hexadecimal is read in either case. */
  lemma {:induction false} HexLower(s: string)
    ensures FromHex(Lower(s)) == FromHex(s)
  {
    var l := Lower(s);
    if |s| >= 2 {
      HexLower(s[2..]);
      assert l[2..] == Lower(s[2..]);
      LowerValue(s[0]);
      LowerValue(s[1]);
    }
  }

  lemma LowerValue(c: char)
    ensures HexValue(LowerChar(c)) == HexValue(c)
  {}

  // ------------------------------------------------------------------
  // Packing

  function Tlv(kind: Byte, value: Bytes): Bytes { [kind, |value| % 256] + value }

  type Kind = k: int | 0 <= k < 0x1_0000_0000

  function BigEndian(kind: Kind): Bytes {
    var a := kind / 256;
    var b := a / 256;
    [b / 256, b % 256, a % 256, kind % 256]
  }

  function FromBigEndian(b: Bytes): Kind
    requires |b| == 4
  {
    256 * (256 * (256 * (b[0] as int) + b[1] as int) + b[2] as int) + b[3] as int
  }

  lemma BigEndianRoundTrip(kind: Kind)
    ensures FromBigEndian(BigEndian(kind)) == kind
  {
    var a := kind / 256;
    var b := a / 256;
    assert 256 * (b / 256) + b % 256 == b;
    assert 256 * b + a % 256 == a;
    assert 256 * a + kind % 256 == kind;
  }

  function RelayHint(relay: Bytes): Bytes { if relay == [] then [] else Tlv(1, relay) }

  function Nprofile(pubkeyHex: string, relay: Bytes): string {
    match FromHex(pubkeyHex)
    case None => ""
    case Some(pubkey) =>
      if |pubkey| != 32 then "" else Encode("nprofile", Tlv(0, pubkey) + RelayHint(relay))
  }

  function NaddrData(kind: Kind, pubkey: Bytes, identifier: Bytes, relay: Bytes): Bytes {
    Tlv(0, identifier) + RelayHint(relay) + Tlv(2, pubkey) + Tlv(3, BigEndian(kind))
  }

  function Naddr(kind: Kind, pubkeyHex: string, identifier: Bytes, relay: Bytes): string {
    match FromHex(pubkeyHex)
    case None => ""
    case Some(pubkey) =>
      if |pubkey| != 32 then "" else Encode("naddr", NaddrData(kind, pubkey, identifier, relay))
  }

  // ------------------------------------------------------------------
  // Unpacking

  /** The first value of each type, up to the first field that does not fit. */
  function Fields(data: Bytes): map<Byte, Bytes> {
    if |data| < 2 || |data| < 2 + data[1] as int then map[]
    else
      var end := 2 + data[1] as int;
      Fields(data[end..])[data[0] := data[2..end]]
  }

  method TlvFields(input: Bytes) returns (fields: map<Byte, Bytes>)
    ensures fields == Fields(input)
  {
    hide Fields;
    var data := input;
    fields := map[];
    NothingOver(Fields(data));
    while |data| >= 2
      invariant Fields(input) == Fields(data) + fields
      decreases |data|
    {
      var kind, length := data[0], data[1] as int;
      FieldsStep(data);
      if |data| < 2 + length {
        break;
      }
      var rest := data[2 + length..];
      FirstWins(Fields(rest), kind, data[2..2 + length], fields);
      if kind !in fields {
        fields := fields[kind := data[2..2 + length]];
      }
      data := rest;
    }
    FieldsStep(data);
    assert Fields(data) == map[];
    assert map[] + fields == fields;
  }

  lemma NothingOver(m: map<Byte, Bytes>)
    ensures m + map[] == m
  {}

  lemma FieldsStep(data: Bytes)
    ensures |data| < 2 || |data| < 2 + data[1] as int ==> Fields(data) == map[]
    ensures |data| >= 2 && |data| >= 2 + data[1] as int ==>
      Fields(data) == Fields(data[2 + data[1] as int..])[data[0] := data[2..2 + data[1] as int]]
  {}

  lemma FirstWins(later: map<Byte, Bytes>, kind: Byte, value: Bytes, fields: map<Byte, Bytes>)
    ensures later[kind := value] + fields
         == later + (if kind in fields then fields else fields[kind := value])
  {}

  lemma FieldsOfTlv(kind: Byte, value: Bytes, rest: Bytes)
    requires |value| <= 255
    ensures Fields(Tlv(kind, value) + rest) == Fields(rest)[kind := value]
  {
    var data := Tlv(kind, value) + rest;
    hide Fields;
    FieldsStep(data);
    assert data[0] == kind && data[1] == |value|;
    assert data[2..2 + |value|] == value && data[2 + |value|..] == rest;
  }

  /** A missing field reads as empty. */
  function Field(fields: map<Byte, Bytes>, kind: Byte): Bytes {
    if kind in fields then fields[kind] else []
  }

  // ------------------------------------------------------------------
  // Resolving a target

  function TrimSlash(s: string): string
    decreases |s|
  {
    if s == "" then ""
    else if s[0] == '/' then TrimSlash(s[1..])
    else if s[|s| - 1] == '/' then TrimSlash(s[..|s| - 1])
    else s
  }

  function LowerChar(c: char): char { if 'A' <= c <= 'Z' then c + 32 as char else c }

  function Lower(s: string): string {
    seq(|s|, i requires 0 <= i < |s| => LowerChar(s[i]))
  }

  predicate HasPrefix(s: string, prefix: string) { prefix <= s }

  function StripScheme(s: string): string {
    if HasPrefix(Lower(s), "web+nostr:") then s[|"web+nostr:"|..]
    else if HasPrefix(Lower(s), "nostr:") then s[|"nostr:"|..]
    else s
  }

  predicate HexId(s: string) {
    |s| == 64 && forall i :: 0 <= i < |s| ==> ('0' <= s[i] <= '9' || 'a' <= s[i] <= 'f')
  }

  function AddressPath(kind: Kind, pubkey: Bytes, escaped: string): string {
    "/a/" + Decimal.Print(kind) + ":" + Hex(pubkey) + ":" + escaped
  }

  /** nostrTargetPath; `escape` stands for url.PathEscape. */
  function TargetPath(target: string, escape: Bytes -> string): Option<string> {
    var value := TrimSlash(StripScheme(TrimSpace(target)));
    if HexId(value) then Some("/e/" + value)
    else
      match Decode(Lower(value))
      case None => None
      case Some(Decoding(hrp, data)) => DecodedPath(hrp, data, escape)
  }

  function DecodedPath(hrp: string, data: Bytes, escape: Bytes -> string): Option<string> {
    var fields := Fields(data);
    if hrp == "npub" then
      if |data| != 32 then None else Some("/search?author=" + Hex(data))
    else if hrp == "note" then
      if |data| != 32 then None else Some("/e/" + Hex(data))
    else if hrp == "nprofile" then
      if |Field(fields, 0)| != 32 then None else Some("/search?author=" + Hex(Field(fields, 0)))
    else if hrp == "nevent" then
      if |Field(fields, 0)| != 32 then None else Some("/e/" + Hex(Field(fields, 0)))
    else if hrp == "naddr" then
      if |Field(fields, 2)| != 32 || |Field(fields, 3)| != 4 then None
      else Some(AddressPath(FromBigEndian(Field(fields, 3)), Field(fields, 2), escape(Field(fields, 0))))
    else None
  }

  // ------------------------------------------------------------------
  // Round trips

  predicate Quiet(c: char) { ('a' <= c <= 'z') || ('0' <= c <= '9') }

  lemma LetterQuiet(w: Word)
    ensures Quiet(Letter(w))
  {}

  lemma QuietUntouched(s: string)
    requires |s| > 0 && (forall i :: 0 <= i < |s| ==> Quiet(s[i])) && s[0] == 'n'
    ensures TrimSlash(StripScheme(TrimSpace(s))) == s && !HexId(s) && Lower(s) == s && Ascii(s)
  {
    hide TrimSpace, TrimSlash, StripScheme, Lower;
    QuietEnds(s);
    NoScheme(s);
    QuietLower(s);
  }

  lemma QuietEnds(s: string)
    requires |s| > 0 && Quiet(s[0]) && Quiet(s[|s| - 1])
    ensures TrimSpace(s) == s && TrimSlash(s) == s
  {}

  lemma QuietLower(s: string)
    requires forall i :: 0 <= i < |s| ==> Quiet(s[i])
    ensures Lower(s) == s
  {
    forall i | 0 <= i < |s| ensures LowerChar(s[i]) == s[i] {
      assert Quiet(s[i]);
    }
  }

  lemma NoScheme(s: string)
    requires forall i :: 0 <= i < |s| ==> Quiet(s[i])
    ensures StripScheme(s) == s
  {
    QuietLower(s);
    hide Lower;
    assert "nostr:"[5] == ':' && "web+nostr:"[9] == ':';
  }

  /** An encoded string with a plain prefix passes through trimming, scheme
      removal and lower-casing unchanged. */
  lemma EncodedUntouched(hrp: string, data: Bytes)
    requires hrp in {"npub", "note", "nprofile", "nevent", "naddr"}
    ensures var s := Encode(hrp, data);
            TrimSlash(StripScheme(TrimSpace(s))) == s && !HexId(s) && Lower(s) == s && Ascii(s)
  {
    hide Letter, Expand, ChecksumOf, Words, TrimSlash, StripScheme, TrimSpace, HexId, Lower;
    var words := Words(data) + ChecksumOf(Expand(hrp) + Words(data));
    var letters := Letters(words);
    forall i | 0 <= i < |letters| ensures Quiet(letters[i]) {
      LetterQuiet(words[i]);
    }
    var head := hrp + "1";
    assert forall i :: 0 <= i < |head| ==> Quiet(head[i]);
    assert Encode(hrp, data) == head + letters;
    assert head[0] == 'n';
    QuietUntouched(head + letters);
  }

  lemma EncodedLength(hrp: string, data: Bytes)
    requires Ascii(Encode(hrp, data)) && |hrp| <= 8 && |data| <= 600
    ensures |Utf8(Encode(hrp, data))| <= 5000
  {
    hide Letters, Words, Expand, ChecksumOf;
    AsciiLength(Encode(hrp, data));
  }

  lemma NaddrFields(kind: Kind, pubkey: Bytes, identifier: Bytes, relay: Bytes)
    requires |pubkey| == 32 && |identifier| <= 255 && |relay| <= 255
    ensures var fields := Fields(NaddrData(kind, pubkey, identifier, relay));
            Field(fields, 0) == identifier && Field(fields, 2) == pubkey && Field(fields, 3) == BigEndian(kind)
  {
    hide Tlv, BigEndian, Fields;
    var last := Tlv(3, BigEndian(kind));
    FourBytes(kind);
    NoFields();
    FieldsOfTlv(3, BigEndian(kind), []);
    assert last + [] == last;
    FieldsOfTlv(2, pubkey, last);
    var tail := Tlv(2, pubkey) + last;
    if relay != [] {
      FieldsOfTlv(1, relay, tail);
      FieldsOfTlv(0, identifier, Tlv(1, relay) + tail);
      assert NaddrData(kind, pubkey, identifier, relay) == Tlv(0, identifier) + (Tlv(1, relay) + tail);
    } else {
      FieldsOfTlv(0, identifier, tail);
      assert NaddrData(kind, pubkey, identifier, relay) == Tlv(0, identifier) + tail;
    }
  }

  lemma FourBytes(kind: Kind)
    ensures |BigEndian(kind)| == 4
  {}

  lemma NoFields()
    ensures Fields([]) == map[]
  {}

  /** An identifier survives packing exactly when its length fits one byte,
      whatever follows it. */
  lemma IdentifierSurvives(kind: Kind, pubkey: Bytes, identifier: Bytes, relay: Bytes)
    ensures Field(Fields(NaddrData(kind, pubkey, identifier, relay)), 0) == identifier <==> |identifier| <= 255
  {
    hide Fields, BigEndian;
    var rest := RelayHint(relay) + Tlv(2, pubkey) + Tlv(3, BigEndian(kind));
    var data := Tlv(0, identifier) + rest;
    assert NaddrData(kind, pubkey, identifier, relay) == data;
    FieldsStep(data);
    var n := |identifier| % 256;
    assert data[1] == n && data[2..2 + n] == identifier[..n];
  }

  /** Opening a link to an address leads to the page of the same kind, key and
      identifier. */
  lemma NaddrRoundTrip(kind: Kind, pubkey: Bytes, identifier: Bytes, relay: Bytes, escape: Bytes -> string)
    requires |pubkey| == 32 && |identifier| <= 255 && |relay| <= 255
    ensures TargetPath(Naddr(kind, Hex(pubkey), identifier, relay), escape)
         == Some("/a/" + Decimal.Print(kind) + ":" + Hex(pubkey) + ":" + escape(identifier))
  {
    hide Encode, Decode, Fields, TrimSlash, StripScheme, TrimSpace, HexId, Lower, FromBigEndian, BigEndian, Hex, FromHex;
    var data := NaddrData(kind, pubkey, identifier, relay);
    HexRoundTrip(pubkey);
    EncodedUntouched("naddr", data);
    FourBytes(kind);
    EncodedLength("naddr", data);
    DecodeExact(Encode("naddr", data), "naddr", data);
    NaddrFields(kind, pubkey, identifier, relay);
    BigEndianRoundTrip(kind);
  }

  /** Opening a profile link leads to that author. */
  lemma NprofileRoundTrip(pubkey: Bytes, relay: Bytes, escape: Bytes -> string)
    requires |pubkey| == 32 && |relay| <= 255
    ensures TargetPath(Nprofile(Hex(pubkey), relay), escape) == Some("/search?author=" + Hex(pubkey))
  {
    hide Encode, Decode, Fields, TrimSlash, StripScheme, TrimSpace, HexId, Lower, Hex, FromHex;
    var data := Tlv(0, pubkey) + RelayHint(relay);
    HexRoundTrip(pubkey);
    EncodedUntouched("nprofile", data);
    EncodedLength("nprofile", data);
    DecodeExact(Encode("nprofile", data), "nprofile", data);
    FieldsOfTlv(0, pubkey, RelayHint(relay));
  }

  /** What an address packs: under type 0 its identifier, under 1 the relay if
      there is one, under 2 the author's key and under 3 the kind. */
  lemma NaddrLayout(kind: Kind, pubkey: Bytes, identifier: Bytes, relay: Bytes)
    requires |pubkey| == 32 && |identifier| <= 255 && |relay| <= 255
    ensures Naddr(kind, Hex(pubkey), identifier, relay)
         == Encode("naddr", [0, |identifier|] + identifier + (if relay == [] then [] else [1, |relay|] + relay)
                            + ([2, 32] + pubkey)
                            + [3, 4, kind / 0x100_0000, kind / 0x1_0000 % 0x100, kind / 0x100 % 0x100, kind % 0x100])
  {
    hide Encode, Hex, FromHex;
    HexRoundTrip(pubkey);
    KindBytes(kind);
    assert Tlv(0, identifier) == [0, |identifier|] + identifier;
    assert Tlv(2, pubkey) == [2, 32] + pubkey;
    assert RelayHint(relay) == if relay == [] then [] else [1, |relay|] + relay;
  }

  lemma KindBytes(kind: Kind)
    ensures Tlv(3, BigEndian(kind)) == [3, 4, kind / 0x100_0000, kind / 0x1_0000 % 0x100, kind / 0x100 % 0x100, kind % 0x100]
  {
    assert kind / 256 / 256 == kind / 0x1_0000 && kind / 256 / 256 / 256 == kind / 0x100_0000;
  }

  /** Opening a key's or a note's own link leads to its page. */
  lemma PlainOpens(data: Bytes, escape: Bytes -> string)
    requires |data| == 32
    ensures TargetPath(Encode("npub", data), escape) == Some("/search?author=" + Hex(data))
    ensures TargetPath(Encode("note", data), escape) == Some("/e/" + Hex(data))
  {
    hide Encode, Decode, Fields, TrimSlash, StripScheme, TrimSpace, HexId, Lower, Hex, FromHex;
    EncodedUntouched("npub", data);
    EncodedLength("npub", data);
    DecodeExact(Encode("npub", data), "npub", data);
    EncodedUntouched("note", data);
    EncodedLength("note", data);
    DecodeExact(Encode("note", data), "note", data);
  }

  /** An event's link leads to the event under type 0, whatever else it packs. */
  lemma NeventOpens(id: Bytes, more: Bytes, escape: Bytes -> string)
    requires |id| == 32 && |more| <= 500
    ensures TargetPath(Encode("nevent", [0, 32] + id + more), escape) == Some("/e/" + Hex(id))
  {
    hide Encode, Decode, Fields, TrimSlash, StripScheme, TrimSpace, HexId, Lower, Hex, FromHex;
    var data := Tlv(0, id) + more;
    assert data == [0, 32] + id + more;
    EncodedUntouched("nevent", data);
    EncodedLength("nevent", data);
    DecodeExact(Encode("nevent", data), "nevent", data);
    FieldsOfTlv(0, id, more);
  }

  /** A bare event id leads to the event. */
  lemma HexOpens(id: Bytes, escape: Bytes -> string)
    requires |id| == 32
    ensures TargetPath(Hex(id), escape) == Some("/e/" + Hex(id))
  {
    hide Decode, TrimSlash, StripScheme, TrimSpace, Lower, Hex;
    HexRoundTrip(id);
    HexQuiet(id);
    var s := Hex(id);
    QuietEnds(s);
    NoScheme(s);
  }

  lemma {:induction false} HexQuiet(data: Bytes)
    ensures forall i :: 0 <= i < |Hex(data)| ==> Quiet(Hex(data)[i]) && ('0' <= Hex(data)[i] <= '9' || 'a' <= Hex(data)[i] <= 'f')
  {
    if data != [] {
      HexQuiet(data[1..]);
    }
  }

  /** A scheme before an identifier changes nothing, in either case. */
  lemma SchemeOpens(s: string, escape: Bytes -> string)
    requires s != "" && forall i :: 0 <= i < |s| ==> Quiet(s[i])
    ensures TargetPath("nostr:" + s, escape) == TargetPath(s, escape)
    ensures TargetPath("NOSTR:" + s, escape) == TargetPath(s, escape)
    ensures TargetPath("web+nostr:" + s, escape) == TargetPath(s, escape)
  {
    hide Decode, DecodedPath, HexId, TrimSlash, TrimSpace, Lower;
    QuietEnds(s);
    NoScheme(s);
    Stripped("nostr:", s);
    Stripped("NOSTR:", s);
    Stripped("web+nostr:", s);
  }

  lemma Stripped(scheme: string, s: string)
    requires scheme in {"nostr:", "NOSTR:", "web+nostr:"}
    requires s != "" && forall i :: 0 <= i < |s| ==> Quiet(s[i])
    ensures TrimSlash(StripScheme(TrimSpace(scheme + s))) == TrimSlash(s)
  {
    hide TrimSlash, TrimSpace, StripScheme;
    SchemeEnds(scheme, s);
    SchemeOff(scheme, s);
  }

  lemma SchemeEnds(scheme: string, s: string)
    requires scheme in {"nostr:", "NOSTR:", "web+nostr:"}
    requires s != "" && Quiet(s[|s| - 1])
    ensures TrimSpace(scheme + s) == scheme + s
  {
    var all := scheme + s;
    assert all[0] == scheme[0] && all[|all| - 1] == s[|s| - 1];
    assert !Space(all[0]) && !Space(all[|all| - 1]);
  }

  lemma SchemeOff(scheme: string, s: string)
    requires scheme in {"nostr:", "NOSTR:", "web+nostr:"}
    ensures StripScheme(scheme + s) == s
  {
    Lowered(scheme, s);
    hide Lower;
    var all := scheme + s;
    assert all[|scheme|..] == s;
    assert "web+nostr:"[0] == 'w';
  }

  lemma Lowered(scheme: string, s: string)
    requires scheme in {"nostr:", "NOSTR:", "web+nostr:"}
    ensures HasPrefix(Lower(scheme + s), if scheme == "web+nostr:" then "web+nostr:" else "nostr:")
    ensures Lower(scheme + s)[0] == if scheme == "web+nostr:" then 'w' else 'n'
  {
    var all := Lower(scheme + s);
    if scheme == "web+nostr:" {
      assert all[..10] == "web+nostr:";
    } else {
      assert all[..6] == "nostr:";
    }
  }

  /** White space and slashes around an identifier change nothing. */
  lemma SlashesOpen(s: string, escape: Bytes -> string)
    requires s != "" && forall i :: 0 <= i < |s| ==> Quiet(s[i])
    ensures TargetPath(" /" + s + "/ ", escape) == TargetPath(s, escape)
  {
    hide Decode, DecodedPath, HexId, TrimSlash, TrimSpace, Lower;
    var all := "/" + s + "/";
    assert " /" + s + "/ " == " " + all + " ";
    SpacesOff(all);
    assert StripScheme(all) == all by { SlashScheme(all); }
    SlashesOff(s);
    QuietEnds(s);
    NoScheme(s);
  }

  lemma SpacesOff(s: string)
    requires s != "" && !Space(s[0]) && !Space(s[|s| - 1])
    ensures TrimSpace(" " + s + " ") == s
  {
    var all := " " + s + " ";
    assert all[1..] == s + " ";
    assert TrimLeft(all) == TrimLeft(s + " ") == s + " ";
    assert (s + " ")[..|s|] == s;
    assert TrimRight(s + " ") == TrimRight(s) == s;
  }

  lemma SlashScheme(s: string)
    requires s != "" && s[0] == '/'
    ensures StripScheme(s) == s
  {
    assert Lower(s)[0] == '/';
    assert "nostr:"[0] == 'n' && "web+nostr:"[0] == 'w';
  }

  lemma SlashesOff(s: string)
    requires s != "" && s[0] != '/' && s[|s| - 1] != '/'
    ensures TrimSlash("/" + s + "/") == s
  {
    var all := "/" + s + "/";
    assert all[1..] == s + "/";
    assert (s + "/")[..|s|] == s && (s + "/")[0] == s[0] && (s + "/")[|s|] == '/';
    assert TrimSlash(all) == TrimSlash(s + "/");
    assert TrimSlash(s + "/") == TrimSlash(s);
  }
}
