/** The MessagePack subset of tinyclient/blossom-manifests.js: values, their
    encoding, and the bounded reader. An object keeps its fields in insertion
    order; the writer sorts them, so what is written is the encoding of the
    canonical form. */
module MsgPack {
  import opened Prelude
  import opened Text
  import Digits

  const MAX_SAFE: int := 9007199254740991
  const MAX_DEPTH: nat := 64

  datatype Field = Field(key: string, val: Value)

  /** Numbers that are whole and safe are Int however they are written; other
      floats are carried as their eight or four raw bytes. */
  datatype Value =
    | Null
    | Bool(b: bool)
    | Int(n: int)
    | Float(bits: Bytes)
    | Str(s: string)
    | Bin(data: Bytes)
    | Arr(items: seq<Value>)
    | Obj(fields: seq<Field>)

  predicate Safe(n: int) { -MAX_SAFE <= n <= MAX_SAFE }

  /** m * 2^e with a sign, when that is a whole number. */
  function Scaled(negative: bool, m: nat, e: int): Option<int> {
    var size :=
      if m == 0 then Some(0)
      else if e >= 0 then Some(m * Digits.Pow2(e))
      else if m % Digits.Pow2(-e) == 0 then Some(m / Digits.Pow2(-e))
      else None;
    if size.Some? && negative then Some(-size.value) else size
  }

  /** The whole number that eight or four bytes of IEEE 754 stand for, if they
      stand for one. */
  function WholeFloat(bits: Bytes): Option<int> {
    if |bits| == 8 then
      var b0: int, b1: int := bits[0], bits[1];
      var exponent, fraction := b0 % 128 * 16 + b1 / 16, b1 % 16 * 0x1_0000_0000_0000 + Number(bits[2..], 6);
      if exponent == 2047 then None
      else if exponent == 0 then Scaled(b0 >= 128, fraction, -1074)
      else Scaled(b0 >= 128, 0x10_0000_0000_0000 + fraction, exponent - 1075)
    else if |bits| == 4 then
      var b0: int, b1: int := bits[0], bits[1];
      var exponent, fraction := b0 % 128 * 2 + b1 / 128, b1 % 128 * 0x1_0000 + Number(bits[2..], 2);
      if exponent == 255 then None
      else if exponent == 0 then Scaled(b0 >= 128, fraction, -149)
      else Scaled(b0 >= 128, 0x80_0000 + fraction, exponent - 150)
    else None
  }

  predicate Finite(bits: Bytes) {
    if |bits| == 8 then !(bits[0] % 128 == 127 && bits[1] >= 240)
    else |bits| == 4 && !(bits[0] % 128 == 127 && bits[1] >= 128)
  }

  /** The value of a float. */
  function FloatValue(bits: Bytes): Value {
    var whole := WholeFloat(bits);
    if whole.Some? && Safe(whole.value) then Int(whole.value) else Float(bits)
  }

  predicate DistinctKeys(fields: seq<Field>) {
    forall i, j :: 0 <= i < j < |fields| ==> fields[i].key != fields[j].key
  }

  // ------------------------------------------------------------------
  // Encoding ("int", "str", "bin", "array" and "map format family")

  function BE(n: nat, k: nat): (b: Bytes)
    ensures |b| == k
  {
    Digits.ToDigits(256, n, k)
  }

  function IntBytes(n: int): Bytes
    requires Safe(n)
  {
    if n >= 0 then
      if n < 128 then [n]
      else if n < 256 then [204] + BE(n, 1)
      else if n < 0x1_0000 then [205] + BE(n, 2)
      else if n < 0x1_0000_0000 then [206] + BE(n, 4)
      else [207] + BE(n, 8)
    else if n >= -32 then [256 + n]
    else if n >= -128 then [208] + BE(n + 0x100, 1)
    else if n >= -0x8000 then [209] + BE(n + 0x1_0000, 2)
    else if n >= -0x8000_0000 then [210] + BE(n + 0x1_0000_0000, 4)
    else [211] + BE(n + 0x1_0000_0000_0000_0000, 8)
  }

  function StrHead(n: nat): Bytes
    requires n < 0x1_0000
  {
    if n < 32 then [160 + n] else if n < 256 then [217] + BE(n, 1) else [218] + BE(n, 2)
  }

  function BinHead(n: nat): Bytes
    requires n < 0x1_0000
  {
    if n < 256 then [196] + BE(n, 1) else [197] + BE(n, 2)
  }

  function ArrHead(n: nat): Bytes
    requires n < 0x1_0000
  {
    if n < 16 then [144 + n] else [220] + BE(n, 2)
  }

  function ObjHead(n: nat): Bytes
    requires n < 0x1_0000
  {
    if n < 16 then [128 + n] else [222] + BE(n, 2)
  }

  predicate ShortText(s: string) { |Utf8(s)| < 0x1_0000 }

  /** What the writer accepts; object keys are distinct by construction. */
  ghost predicate Encodable(v: Value) {
    match v
    case Null => true
    case Bool(_) => true
    case Int(n) => Safe(n)
    case Float(bits) => |bits| == 8 && Finite(bits) && WholeFloat(bits) == None
    case Str(s) => ShortText(s)
    case Bin(data) => |data| < 0x1_0000
    case Arr(items) => |items| < 0x1_0000 && forall x :: x in items ==> Encodable(x)
    case Obj(fields) =>
      |fields| < 0x1_0000 && DistinctKeys(fields)
      && forall f :: f in fields ==> ShortText(f.key) && Encodable(f.val)
  }

  function StrBytes(s: string): Bytes
    requires ShortText(s)
  {
    StrHead(|Utf8(s)|) + Utf8(s)
  }

  /** The encoding with fields in the order given. */
  ghost function Enc(v: Value): (b: Bytes)
    requires Encodable(v)
    decreases v, 1
  {
    match v
    case Null => [192]
    case Bool(b) => if b then [195] else [194]
    case Int(n) => IntBytes(n)
    case Float(bits) => [203] + bits
    case Str(s) => StrBytes(s)
    case Bin(data) => BinHead(|data|) + data
    case Arr(items) => ArrHead(|items|) + EncItems(items)
    case Obj(fields) => ObjHead(|fields|) + EncFields(fields)
  }

  ghost function EncItems(items: seq<Value>): Bytes
    requires forall x :: x in items ==> Encodable(x)
    decreases items, 0
  {
    if items == [] then [] else Enc(items[0]) + EncItems(items[1..])
  }

  ghost function EncFields(fields: seq<Field>): Bytes
    requires forall f :: f in fields ==> ShortText(f.key) && Encodable(f.val)
    decreases fields, 0
  {
    if fields == [] then []
    else StrBytes(fields[0].key) + Enc(fields[0].val) + EncFields(fields[1..])
  }

  // ------------------------------------------------------------------
  // Reading

  datatype Parsed<T> = Parsed(value: T, rest: Bytes)

  /** The big-endian number in the first k bytes. */
  function Number(b: Bytes, k: nat): nat
    requires k <= |b|
  {
    Digits.Value(256, b[..k])
  }

  predicate Width(k: nat) { k == 1 || k == 2 || k == 4 || k == 8 }

  function Modulus(k: nat): nat
    requires Width(k)
  {
    if k == 1 then 0x100 else if k == 2 then 0x1_0000 else if k == 4 then 0x1_0000_0000 else 0x1_0000_0000_0000_0000
  }

  function Signed(n: nat, k: nat): int
    requires Width(k)
  {
    if n >= Modulus(k) / 2 then n - Modulus(k) else n
  }

  /** An integer of k bytes; the eight-byte forms must stay in the safe range. */
  function ReadNumber(b: Bytes, k: nat, signed: bool): (r: Option<Parsed<Value>>)
    requires Width(k)
    ensures r.Some? ==> |r.value.rest| < |b|
  {
    if |b| < k then None
    else
      var n := Number(b, k);
      var i := if signed then Signed(n, k) else n;
      if k == 8 && !Safe(i) then None else Some(Parsed(Int(i), b[k..]))
  }

  function ReadText(b: Bytes, n: nat): (r: Option<Parsed<Value>>)
    ensures r.Some? ==> |r.value.rest| <= |b|
  {
    if |b| < n then None
    else match TextDecode(b[..n])
      case None => None
      case Some(s) => Some(Parsed(Str(s), b[n..]))
  }

  function ReadBin(b: Bytes, n: nat): (r: Option<Parsed<Value>>)
    ensures r.Some? ==> |r.value.rest| <= |b|
  {
    if |b| < n then None else Some(Parsed(Bin(b[..n]), b[n..]))
  }

  function ReadFloat(b: Bytes, n: nat): (r: Option<Parsed<Value>>)
    ensures r.Some? ==> |r.value.rest| <= |b|
  {
    if |b| < n then None else Some(Parsed(FloatValue(b[..n]), b[n..]))
  }

  function Read(b: Bytes, depth: nat): (r: Option<Parsed<Value>>)
    ensures r.Some? ==> |r.value.rest| < |b|
    decreases |b|, 0
  {
    if depth > MAX_DEPTH || |b| == 0 then None else Dispatch(b[0], b[1..], depth)
  }

  /** Reads the value whose first byte is t. */
  function Dispatch(t: int, r: Bytes, depth: nat): (v: Option<Parsed<Value>>)
    ensures v.Some? ==> |v.value.rest| <= |r|
    decreases |r|, 3
  {
    if t <= 127 then Some(Parsed(Int(t), r))
    else if t >= 224 then Some(Parsed(Int(t - 256), r))
    else if 160 <= t < 192 then ReadText(r, t - 160)
    else if 144 <= t < 160 then ReadArr(r, t - 144, depth)
    else if t < 144 then ReadObj(r, t - 128, depth)
    else if t == 192 then Some(Parsed(Null, r))
    else if t == 194 then Some(Parsed(Bool(false), r))
    else if t == 195 then Some(Parsed(Bool(true), r))
    else if t == 204 then ReadNumber(r, 1, false)
    else if t == 205 then ReadNumber(r, 2, false)
    else if t == 206 then ReadNumber(r, 4, false)
    else if t == 207 then ReadNumber(r, 8, false)
    else if t == 208 then ReadNumber(r, 1, true)
    else if t == 209 then ReadNumber(r, 2, true)
    else if t == 210 then ReadNumber(r, 4, true)
    else if t == 211 then ReadNumber(r, 8, true)
    else if t == 202 then ReadFloat(r, 4)
    else if t == 203 then ReadFloat(r, 8)
    else if t == 217 then if |r| < 1 then None else ReadText(r[1..], Number(r, 1))
    else if t == 218 then if |r| < 2 then None else ReadText(r[2..], Number(r, 2))
    else if t == 196 then if |r| < 1 then None else ReadBin(r[1..], Number(r, 1))
    else if t == 197 then if |r| < 2 then None else ReadBin(r[2..], Number(r, 2))
    else if t == 220 then if |r| < 2 then None else ReadArr(r[2..], Number(r, 2), depth)
    else if t == 222 then if |r| < 2 then None else ReadObj(r[2..], Number(r, 2), depth)
    else None
  }

  function ReadArr(b: Bytes, n: nat, depth: nat): (r: Option<Parsed<Value>>)
    ensures r.Some? ==> |r.value.rest| <= |b|
    decreases |b|, 2
  {
    match ReadItems(b, n, depth + 1)
    case None => None
    case Some(Parsed(items, rest)) => Some(Parsed(Arr(items), rest))
  }

  function ReadObj(b: Bytes, n: nat, depth: nat): (r: Option<Parsed<Value>>)
    ensures r.Some? ==> |r.value.rest| <= |b|
    decreases |b|, 2
  {
    match ReadFields(b, n, depth + 1, {})
    case None => None
    case Some(Parsed(fields, rest)) => Some(Parsed(Obj(fields), rest))
  }

  function ReadItems(b: Bytes, n: nat, depth: nat): (r: Option<Parsed<seq<Value>>>)
    ensures r.Some? ==> |r.value.rest| <= |b|
    decreases |b|, 1
  {
    if n == 0 then Some(Parsed([], b))
    else match Read(b, depth)
      case None => None
      case Some(Parsed(v, rest)) =>
        match ReadItems(rest, n - 1, depth)
        case None => None
        case Some(Parsed(items, rest')) => Some(Parsed([v] + items, rest'))
  }

  function ReadFields(b: Bytes, n: nat, depth: nat, seen: set<string>): (r: Option<Parsed<seq<Field>>>)
    ensures r.Some? ==> |r.value.rest| <= |b|
    decreases |b|, 1
  {
    if n == 0 then Some(Parsed([], b))
    else match Read(b, depth)
      case None => None
      case Some(Parsed(k, rest)) =>
        if !k.Str? || k.s in seen then None
        else match Read(rest, depth)
          case None => None
          case Some(Parsed(v, rest')) =>
            match ReadFields(rest', n - 1, depth, seen + {k.s})
            case None => None
            case Some(Parsed(fields, rest'')) => Some(Parsed([Field(k.s, v)] + fields, rest''))
  }

  // ------------------------------------------------------------------
  // Reading back what was written

  lemma Powers()
    ensures Digits.Power(256, 1) == 0x100 && Digits.Power(256, 2) == 0x1_0000
    ensures Digits.Power(256, 4) == 0x1_0000_0000 && Digits.Power(256, 8) == 0x1_0000_0000_0000_0000
  {
    assert Digits.Power(256, 2) == 0x1_0000;
    assert Digits.Power(256, 4) == 0x1_0000_0000;
    assert Digits.Power(256, 6) == 0x1_0000_0000_0000;
  }

  lemma NumberOfBE(n: nat, k: nat, rest: Bytes)
    requires Width(k) && n < Modulus(k)
    ensures Number(BE(n, k) + rest, k) == n && (BE(n, k) + rest)[k..] == rest
  {
    Powers();
    Digits.ValueOfDigits(256, n, k);
    assert (BE(n, k) + rest)[..k] == BE(n, k);
  }

  lemma ReadTagged(t: Byte, r: Bytes, depth: nat)
    requires depth <= MAX_DEPTH
    ensures Read([t] + r, depth) == Dispatch(t, r, depth)
  {
    hide Dispatch;
    assert ([t] + r)[1..] == r;
  }

  lemma ReadPositive(n: nat, k: nat, rest: Bytes)
    requires Width(k) && n < Modulus(k) && Safe(n)
    ensures ReadNumber(BE(n, k) + rest, k, false) == Some(Parsed(Int(n), rest))
  {
    hide Number, BE;
    NumberOfBE(n, k, rest);
  }

  lemma ReadNegative(n: int, k: nat, rest: Bytes)
    requires Width(k) && n < 0 && n + Modulus(k) / 2 >= 0 && Safe(n)
    ensures ReadNumber(BE(n + Modulus(k), k) + rest, k, true) == Some(Parsed(Int(n), rest))
  {
    hide Number, BE;
    NumberOfBE(n + Modulus(k), k, rest);
  }

  /** A tag, a big-endian count and the bytes after it. */
  lemma TaggedCount(t: Byte, n: nat, k: nat, r: Bytes, depth: nat)
    requires Width(k) && n < Modulus(k) && depth <= MAX_DEPTH
    ensures Read([t] + BE(n, k) + r, depth) == Dispatch(t, BE(n, k) + r, depth)
    ensures Number(BE(n, k) + r, k) == n && (BE(n, k) + r)[k..] == r
  {
    hide Read, Dispatch, Number, BE;
    assert [t] + BE(n, k) + r == [t] + (BE(n, k) + r);
    ReadTagged(t, BE(n, k) + r, depth);
    NumberOfBE(n, k, r);
  }

  lemma ReadInt(n: int, rest: Bytes, depth: nat)
    requires Safe(n) && depth <= MAX_DEPTH
    ensures Read(IntBytes(n) + rest, depth) == Some(Parsed(Int(n), rest))
  {
    hide Read, ReadNumber, BE, Number;
    if -32 <= n < 128 {
      ReadTagged(if n >= 0 then n else 256 + n, rest, depth);
    } else if n >= 0 {
      if n < 256 {
        TaggedCount(204, n, 1, rest, depth);
        ReadPositive(n, 1, rest);
      } else if n < 0x1_0000 {
        TaggedCount(205, n, 2, rest, depth);
        ReadPositive(n, 2, rest);
      } else if n < 0x1_0000_0000 {
        TaggedCount(206, n, 4, rest, depth);
        ReadPositive(n, 4, rest);
      } else {
        TaggedCount(207, n, 8, rest, depth);
        ReadPositive(n, 8, rest);
      }
    } else if n >= -128 {
      TaggedCount(208, n + Modulus(1), 1, rest, depth);
      ReadNegative(n, 1, rest);
    } else if n >= -0x8000 {
      TaggedCount(209, n + Modulus(2), 2, rest, depth);
      ReadNegative(n, 2, rest);
    } else if n >= -0x8000_0000 {
      TaggedCount(210, n + Modulus(4), 4, rest, depth);
      ReadNegative(n, 4, rest);
    } else {
      TaggedCount(211, n + Modulus(8), 8, rest, depth);
      ReadNegative(n, 8, rest);
    }
  }

  lemma ReadStrHead(n: nat, r: Bytes, depth: nat)
    requires n < 0x1_0000 && depth <= MAX_DEPTH
    ensures Read(StrHead(n) + r, depth) == ReadText(r, n)
  {
    hide Read, BE, Number, ReadText;
    if n < 32 {
      ReadTagged(160 + n, r, depth);
    } else if n < 256 {
      TaggedCount(217, n, 1, r, depth);
    } else {
      TaggedCount(218, n, 2, r, depth);
    }
  }

  lemma ReadBinHead(n: nat, r: Bytes, depth: nat)
    requires n < 0x1_0000 && depth <= MAX_DEPTH
    ensures Read(BinHead(n) + r, depth) == ReadBin(r, n)
  {
    hide Read, BE, Number, ReadBin;
    if n < 256 {
      TaggedCount(196, n, 1, r, depth);
    } else {
      TaggedCount(197, n, 2, r, depth);
    }
  }

  lemma ReadArrHead(n: nat, r: Bytes, depth: nat)
    requires n < 0x1_0000 && depth <= MAX_DEPTH
    ensures Read(ArrHead(n) + r, depth) == ReadArr(r, n, depth)
  {
    hide Read, BE, Number, ReadArr;
    if n < 16 {
      ReadTagged(144 + n, r, depth);
    } else {
      TaggedCount(220, n, 2, r, depth);
    }
  }

  lemma ReadObjHead(n: nat, r: Bytes, depth: nat)
    requires n < 0x1_0000 && depth <= MAX_DEPTH
    ensures Read(ObjHead(n) + r, depth) == ReadObj(r, n, depth)
  {
    hide Read, BE, Number, ReadObj;
    if n < 16 {
      ReadTagged(128 + n, r, depth);
    } else {
      TaggedCount(222, n, 2, r, depth);
    }
  }

  lemma ReadStr(s: string, rest: Bytes, depth: nat)
    requires ShortText(s) && depth <= MAX_DEPTH
    ensures Read(StrBytes(s) + rest, depth) == Some(Parsed(Str(StripText(s)), rest))
  {
    hide Read, StrHead, TextDecode, StripText;
    var u := Utf8(s);
    assert StrBytes(s) + rest == StrHead(|u|) + (u + rest);
    ReadStrHead(|u|, u + rest, depth);
    assert (u + rest)[..|u|] == u && (u + rest)[|u|..] == rest;
    TextRoundTrip(s);
  }

  /** The value with a leading byte order mark dropped from every text. */
  ghost function Strip(v: Value): Value
    decreases v, 1
  {
    match v
    case Str(s) => Str(StripText(s))
    case Arr(items) => Arr(StripItems(items))
    case Obj(fields) => Obj(StripFields(fields))
    case _ => v
  }

  ghost function StripItems(items: seq<Value>): (r: seq<Value>)
    ensures |r| == |items|
    decreases items, 0
  {
    if items == [] then [] else [Strip(items[0])] + StripItems(items[1..])
  }

  ghost function StripFields(fields: seq<Field>): (r: seq<Field>)
    ensures |r| == |fields|
    decreases fields, 0
  {
    if fields == [] then []
    else [Field(StripText(fields[0].key), Strip(fields[0].val))] + StripFields(fields[1..])
  }

  /** No text in the value starts with a byte order mark. */
  ghost predicate Clean(v: Value) {
    match v
    case Str(s) => !StartsWithBom(s)
    case Arr(items) => forall x :: x in items ==> Clean(x)
    case Obj(fields) => forall f :: f in fields ==> !StartsWithBom(f.key) && Clean(f.val)
    case _ => true
  }

  ghost predicate FieldsClean(fields: seq<Field>) {
    forall f :: f in fields ==> !StartsWithBom(f.key) && Clean(f.val)
  }

  lemma {:induction false} StripClean(v: Value)
    ensures Strip(v) == v <==> Clean(v)
    decreases v, 1
  {
    hide StartsWithBom, StripText;
    match v {
      case Str(s) => StripTextClean(s);
      case Arr(items) => StripItemsClean(items);
      case Obj(fields) => StripFieldsClean(fields);
      case _ =>
    }
  }

  lemma {:induction false} StripItemsClean(items: seq<Value>)
    ensures StripItems(items) == items <==> forall x :: x in items ==> Clean(x)
    decreases items, 0
  {
    hide Clean;
    if items != [] {
      var x, more := items[0], items[1..];
      assert items == [x] + more;
      StripClean(x);
      StripItemsClean(more);
      assert StripItems(items)[1..] == StripItems(more);
    }
  }

  lemma {:induction false} StripFieldsClean(fields: seq<Field>)
    ensures StripFields(fields) == fields <==> FieldsClean(fields)
    decreases fields, 0
  {
    hide Clean, StartsWithBom, StripText;
    if fields != [] {
      var f, more := fields[0], fields[1..];
      assert fields == [f] + more;
      StripTextClean(f.key);
      StripClean(f.val);
      StripFieldsClean(more);
      assert StripFields(fields)[1..] == StripFields(more);
    }
  }

  /** Every part of the value is met at a depth the reader allows, when the
      value itself is met at this depth. */
  ghost predicate Fits(v: Value, depth: nat) {
    && depth <= MAX_DEPTH
    && (v.Arr? ==> forall x :: x in v.items ==> Fits(x, depth + 1))
    && (v.Obj? ==> forall f :: f in v.fields ==> Fits(f.val, depth + 1))
  }

  /** No object in the value has two keys that differ only in a leading byte
      order mark. */
  ghost predicate Unmerged(v: Value) {
    match v
    case Arr(items) => forall x :: x in items ==> Unmerged(x)
    case Obj(fields) => KeysApart(fields) && forall f :: f in fields ==> Unmerged(f.val)
    case _ => true
  }

  predicate KeysApart(fields: seq<Field>) {
    forall i, j :: 0 <= i < j < |fields| ==> StripText(fields[i].key) != StripText(fields[j].key)
  }

  lemma {:induction false} CleanApart(v: Value)
    requires Clean(v) && Encodable(v)
    ensures Unmerged(v)
    decreases v
  {
    hide StartsWithBom, StripText, ShortText;
    match v {
      case Arr(items) =>
        forall x | x in items ensures Unmerged(x) { CleanApart(x); }
      case Obj(fields) =>
        forall f | f in fields ensures Unmerged(f.val) && StripText(f.key) == f.key {
          CleanApart(f.val);
          StripTextClean(f.key);
        }
      case _ =>
    }
  }

  /** The reader's answer on the encoding of a value, followed by anything: it
      succeeds exactly when no part is too deep and no two keys fall together,
      and then consumes the encoding and nothing else and returns the value
      stripped of leading byte order marks. */
  lemma {:induction false} ReadEncoded(v: Value, rest: Bytes, depth: nat)
    requires Encodable(v)
    ensures var r := Read(Enc(v) + rest, depth);
            && (r.Some? ==> r.value == Parsed(Strip(v), rest))
            && (r.Some? <==> Fits(v, depth) && Unmerged(v))
    decreases v, 1
  {
    if depth > MAX_DEPTH {
      hide Read, Enc;
      TooDeep(Enc(v) + rest, depth);
    } else if v.Arr? {
      hide Read, ArrHead;
      var items := v.items;
      assert Enc(v) + rest == ArrHead(|items|) + (EncItems(items) + rest);
      ReadArrHead(|items|, EncItems(items) + rest, depth);
      ReadEncodedItems(items, rest, depth + 1);
    } else if v.Obj? {
      hide Read, ObjHead, StripText;
      var fields := v.fields;
      assert Enc(v) + rest == ObjHead(|fields|) + (EncFields(fields) + rest);
      ReadObjHead(|fields|, EncFields(fields) + rest, depth);
      ReadEncodedFields(fields, rest, depth + 1, {});
    } else {
      hide Read, Enc, Strip;
      ReadScalar(v, rest, depth);
    }
  }

  lemma ReadScalar(v: Value, rest: Bytes, depth: nat)
    requires Encodable(v) && !v.Arr? && !v.Obj? && depth <= MAX_DEPTH
    ensures Read(Enc(v) + rest, depth) == Some(Parsed(Strip(v), rest))
  {
    hide Read, IntBytes, StrBytes, BinHead, StripText, WholeFloat, Finite;
    match v {
      case Null => ReadTagged(192, rest, depth);
      case Bool(b) => ReadTagged(if b then 195 else 194, rest, depth);
      case Int(n) => ReadInt(n, rest, depth);
      case Float(bits) =>
        assert Enc(v) + rest == [203] + (bits + rest);
        ReadTagged(203, bits + rest, depth);
        assert (bits + rest)[..8] == bits && (bits + rest)[8..] == rest;
      case Str(s) => ReadStr(s, rest, depth);
      case Bin(data) =>
        assert Enc(v) + rest == BinHead(|data|) + (data + rest);
        ReadBinHead(|data|, data + rest, depth);
        assert (data + rest)[..|data|] == data && (data + rest)[|data|..] == rest;
    }
  }

  lemma TooDeep(b: Bytes, depth: nat)
    requires depth > MAX_DEPTH
    ensures Read(b, depth) == None
  {}

  ghost predicate ItemsFit(items: seq<Value>, depth: nat) {
    forall x :: x in items ==> Fits(x, depth)
  }

  ghost predicate FieldsFit(fields: seq<Field>, depth: nat) {
    forall f :: f in fields ==> Fits(f.val, depth)
  }

  lemma {:induction false} ReadEncodedItems(items: seq<Value>, rest: Bytes, depth: nat)
    requires forall x :: x in items ==> Encodable(x)
    ensures var r := ReadItems(EncItems(items) + rest, |items|, depth);
            && (r.Some? ==> r.value == Parsed(StripItems(items), rest))
            && (r.Some? <==> ItemsFit(items, depth) && forall x :: x in items ==> Unmerged(x))
    decreases items, 0
  {
    hide Read, Enc, Fits, Unmerged, Strip;
    if items == [] {
      assert EncItems(items) + rest == rest;
    } else {
      var x, more := items[0], items[1..];
      assert items == [x] + more;
      assert EncItems(items) + rest == Enc(x) + (EncItems(more) + rest);
      ReadEncoded(x, EncItems(more) + rest, depth);
      ReadEncodedItems(more, rest, depth);
    }
  }

  /** These fields can follow keys already seen. */
  ghost predicate FieldsApart(fields: seq<Field>, seen: set<string>) {
    KeysApart(fields) && forall f :: f in fields ==> StripText(f.key) !in seen && Unmerged(f.val)
  }

  lemma {:induction false} ReadEncodedFields(fields: seq<Field>, rest: Bytes, depth: nat, seen: set<string>)
    requires forall f :: f in fields ==> ShortText(f.key) && Encodable(f.val)
    ensures var r := ReadFields(EncFields(fields) + rest, |fields|, depth, seen);
            && (r.Some? ==> r.value == Parsed(StripFields(fields), rest))
            && (r.Some? <==> FieldsFit(fields, depth) && FieldsApart(fields, seen))
    decreases fields, 0
  {
    hide Read, Enc, StrBytes, StripText, Unmerged, Strip;
    if fields == [] {
      assert EncFields(fields) + rest == rest;
    } else {
      var f, more := fields[0], fields[1..];
      assert fields == [f] + more;
      var tail := EncFields(more) + rest;
      assert EncFields(fields) + rest == StrBytes(f.key) + (Enc(f.val) + tail);
      if depth <= MAX_DEPTH {
        hide Fits, FieldsFit, FieldsApart;
        ReadStr(f.key, Enc(f.val) + tail, depth);
        ReadEncoded(f.val, tail, depth);
        ReadEncodedFields(more, rest, depth, seen + {StripText(f.key)});
        FieldsFitSplit(f, more, depth);
        FieldsApartSplit(f, more, seen);
      } else {
        TooDeep(EncFields(fields) + rest, depth);
        assert FieldsFit(fields, depth) ==> Fits(f.val, depth);
      }
    }
  }

  lemma FieldsFitSplit(f: Field, more: seq<Field>, depth: nat)
    ensures FieldsFit([f] + more, depth) <==> Fits(f.val, depth) && FieldsFit(more, depth)
  {
    hide Fits;
    assert forall g :: g in [f] + more <==> g == f || g in more;
  }

  lemma FieldsApartSplit(f: Field, more: seq<Field>, seen: set<string>)
    ensures FieldsApart([f] + more, seen)
       <==> StripText(f.key) !in seen && Unmerged(f.val) && FieldsApart(more, seen + {StripText(f.key)})
  {
    hide Unmerged, StripText;
    var all := [f] + more;
    assert forall g :: g in all <==> g == f || g in more;
    KeysApartSplit(f, more);
  }

  lemma KeysApartSplit(f: Field, more: seq<Field>)
    ensures KeysApart([f] + more) <==> KeysApart(more) && forall g :: g in more ==> StripText(g.key) != StripText(f.key)
  {
    hide StripText;
    var all := [f] + more;
    if KeysApart(all) {
      forall i, j | 0 <= i < j < |more| ensures StripText(more[i].key) != StripText(more[j].key) {
        assert all[i + 1] == more[i] && all[j + 1] == more[j];
      }
      forall g | g in more ensures StripText(g.key) != StripText(f.key) {
        var i :| 0 <= i < |more| && more[i] == g;
        assert all[i + 1] == g && all[0] == f;
      }
    }
  }
}
