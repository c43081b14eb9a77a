/** The writer and reader objects of tinyclient/blossom-manifests.js, verified
    against the encoding and reading functions. The writer collects plain
    numbers and reduces them to bytes only when asked for its bytes. */
module MsgPackIO {
  import opened Prelude
  import opened Text
  import opened MsgPack
  import opened Canonical
  import Digits

  // ------------------------------------------------------------------
  // Numbers and bytes

  function Octets(s: seq<int>): (b: Bytes)
    ensures |b| == |s|
  {
    seq(|s|, i requires 0 <= i < |s| => s[i] % 256)
  }

  lemma OctetsConcat(a: seq<int>, b: seq<int>)
    ensures Octets(a + b) == Octets(a) + Octets(b)
  {}

  lemma OctetsOfBytes(b: Bytes)
    ensures Octets(b) == b
  {}

  /** n >>> k, on the unsigned 32-bit form of n. */
  function ShiftRight(n: int, k: nat): nat {
    Digits.DivNonNegative(n % 0x1_0000_0000, Digits.Pow2(k));
    n % 0x1_0000_0000 / Digits.Pow2(k)
  }

  lemma Two(n: nat)
    requires n < 0x1_0000
    ensures BE(n, 2) == Octets([n / 256, n])
  {
    assert Digits.ToDigits(256, n / 256 / 256, 0) == [];
    assert Digits.ToDigits(256, n / 256, 1) == [n / 256 % 256];
  }

  lemma One(n: nat)
    requires n < 0x100
    ensures BE(n, 1) == Octets([n])
  {
    assert Digits.ToDigits(256, n / 256, 0) == [];
  }

  lemma FourDigits(m: nat)
    ensures BE(m, 4) == [m / 256 / 256 / 256 % 256, m / 256 / 256 % 256, m / 256 % 256, m % 256]
  {
    var a := m / 256;
    var b := a / 256;
    var c := b / 256;
    assert Digits.ToDigits(256, c, 1) == [c % 256];
    assert Digits.ToDigits(256, b, 2) == [c % 256, b % 256];
    assert Digits.ToDigits(256, a, 3) == [c % 256, b % 256, a % 256];
  }

  lemma Four(n: int)
    requires -0x8000_0000 <= n < 0x1_0000_0000
    ensures BE(n % 0x1_0000_0000, 4) == Octets([ShiftRight(n, 24), ShiftRight(n, 16), ShiftRight(n, 8), n])
  {
    var m := n % 0x1_0000_0000;
    FourDigits(m);
    BytePowers();
    Digits.DivDiv(m, 256, 256);
    Digits.DivDiv(m, 256 * 256, 256);
    assert m % 256 == n % 256;
  }

  lemma BytePowers()
    ensures Digits.Pow2(8) == 0x100 && Digits.Pow2(16) == 0x1_0000 && Digits.Pow2(24) == 0x100_0000
  {
    Digits.Pow2Table();
    Digits.Pow2Add(8, 8);
    Digits.Pow2Add(16, 8);
  }

  class Writer {
    var output: seq<int>

    constructor ()
      ensures output == [] && Bytes() == []
    {
      output := [];
    }

    function Bytes(): Bytes
      reads this
    {
      Octets(output)
    }

    method Push(x: seq<int>)
      modifies this
      ensures Bytes() == old(Bytes()) + Octets(x)
    {
      OctetsConcat(output, x);
      output := output + x;
    }

    method U8(n: int)
      modifies this
      ensures Bytes() == old(Bytes()) + [n % 256]
    {
      OctetsConcat(output, [n % 256]);
      output := output + [n % 256];
    }

    /** The eight bytes of an unsigned 64-bit number, most significant first. */
    method U64(x: nat)
      modifies this
      ensures Bytes() == old(Bytes()) + BE(x, 8)
    {
      hide BE, Digits.Down;
      ghost var start := Bytes();
      var i := 7;
      DownDigits(x, 7);
      NoDigits(Digits.Down(x, 64));
      while i >= 0
        invariant -1 <= i <= 7
        invariant Bytes() == start + BE(Digits.Down(x, 8 * (i + 1)), 7 - i)
        decreases i
      {
        DownDigits(x, i);
        U8(Digits.Down(x, 8 * i));
        i := i - 1;
      }
      DownDigits(x, 0);
    }
  }

  lemma NoDigits(x: nat)
    ensures BE(x, 0) == []
  {}

  lemma DownDigits(x: nat, i: nat)
    ensures Digits.Down(x, 0) == x
    ensures i <= 7 ==> BE(Digits.Down(x, 8 * i), 8 - i) == BE(Digits.Down(x, 8 * (i + 1)), 7 - i) + [Digits.Down(x, 8 * i) % 256]
  {
    assert Digits.Pow2(0) == 1;
    if i <= 7 {
      Digits.Pow2Add(8 * i, 8);
      Digits.Pow2Table();
      Digits.DivDiv(x, Digits.Pow2(8 * i), 256);
    }
  }

  method WriteInteger(w: Writer, n: int) returns (ok: bool)
    modifies w
    ensures ok <==> Safe(n)
    ensures ok ==> w.Bytes() == old(w.Bytes()) + IntBytes(n)
  {
    hide Octets, BE, ShiftRight;
    if !Safe(n) {
      return false;
    }
    if n >= 0 {
      if n < 128 {
        w.U8(n);
      } else if n < 256 {
        Tagged(204, [n]);
        One(n);
        w.Push([204] + [n]);
      } else if n < 0x1_0000 {
        Tagged(205, [n / 256, n]);
        Two(n);
        w.Push([205] + [n / 256, n]);
      } else if n < 0x1_0000_0000 {
        Tagged(206, [ShiftRight(n, 24), ShiftRight(n, 16), ShiftRight(n, 8), n]);
        Four(n);
        w.Push([206] + [ShiftRight(n, 24), ShiftRight(n, 16), ShiftRight(n, 8), n]);
      } else {
        w.U8(207);
        w.U64(n);
      }
    } else if n >= -32 {
      w.U8(256 + n);
    } else if n >= -128 {
      Tagged(208, [n % 256]);
      One(n % 256);
      assert n % 256 == n + 0x100;
      w.Push([208] + [n % 256]);
    } else if n >= -0x8000 {
      Tagged(209, [n / 256 % 256, n % 256]);
      TwoNegative(n);
      w.Push([209] + [n / 256 % 256, n % 256]);
    } else if n >= -0x8000_0000 {
      Tagged(210, [ShiftRight(n, 24), ShiftRight(n, 16), ShiftRight(n, 8), n]);
      Four(n);
      assert n % 0x1_0000_0000 == n + 0x1_0000_0000;
      w.Push([210] + [ShiftRight(n, 24), ShiftRight(n, 16), ShiftRight(n, 8), n]);
    } else {
      w.U8(211);
      w.U64(n + 0x1_0000_0000_0000_0000);
    }
    return true;
  }

  lemma Tagged(t: Byte, x: seq<int>)
    ensures Octets([t as int] + x) == [t] + Octets(x)
  {
    OctetsConcat([t as int], x);
    assert Octets([t as int]) == [t];
  }

  lemma TwoNegative(n: int)
    requires -0x8000 <= n < 0
    ensures BE(n + 0x1_0000, 2) == Octets([n / 256 % 256, n % 256])
  {
    var m := n + 0x1_0000;
    Two(m);
    assert m / 256 % 256 == n / 256 % 256 && m % 256 == n % 256;
  }

  // ------------------------------------------------------------------
  // Writing values

  /** Every JavaScript object has distinct keys; its numbers are doubles, and
      those that are whole are Int. */
  ghost predicate Plain(v: Value) {
    match v
    case Float(bits) => |bits| == 8 && WholeFloat(bits) == None
    case Arr(items) => forall x :: x in items ==> Plain(x)
    case Obj(fields) => DistinctKeys(fields) && forall f :: f in fields ==> Plain(f.val)
    case _ => true
  }

  lemma {:induction false} EncItemsConcat(a: seq<Value>, b: seq<Value>)
    requires forall x :: x in a + b ==> Encodable(x)
    ensures (forall x :: x in a ==> Encodable(x)) && (forall x :: x in b ==> Encodable(x))
    ensures EncItems(a + b) == EncItems(a) + EncItems(b)
  {
    hide Enc, Encodable;
    if a == [] {
      assert a + b == b;
    } else {
      assert (a + b)[1..] == a[1..] + b && (a + b)[0] == a[0];
      EncItemsConcat(a[1..], b);
      Associative(Enc(a[0]), EncItems(a[1..]), EncItems(b));
    }
  }

  ghost predicate FieldsEncodable(fields: seq<Field>) {
    forall f :: f in fields ==> ShortText(f.key) && Encodable(f.val)
  }

  lemma {:induction false} EncFieldsConcat(a: seq<Field>, b: seq<Field>)
    requires FieldsEncodable(a + b)
    ensures FieldsEncodable(a) && FieldsEncodable(b)
    ensures EncFields(a + b) == EncFields(a) + EncFields(b)
  {
    hide Enc, Encodable, StrBytes, ShortText;
    if a == [] {
      assert a + b == b;
    } else {
      assert (a + b)[1..] == a[1..] + b && (a + b)[0] == a[0];
      EncFieldsConcat(a[1..], b);
      var head := StrBytes(a[0].key) + Enc(a[0].val);
      Associative(head, EncFields(a[1..]), EncFields(b));
    }
  }

  ghost predicate ItemsEncodable(items: seq<Value>) {
    forall x :: x in items ==> Encodable(x)
  }

  /** What has been written after the first i items or sorted fields. */
  ghost function ItemsOut(items: seq<Value>): Bytes
    requires ItemsEncodable(items)
  {
    if items == [] then []
    else
      var k := |items| - 1;
      ItemsOut(items[..k]) + Write(items[k])
  }

  ghost function FieldsOut(fields: seq<Field>): Bytes
    requires FieldsEncodable(fields)
  {
    if fields == [] then []
    else
      var k := |fields| - 1;
      FieldsOut(fields[..k]) + (StrBytes(fields[k].key) + Write(fields[k].val))
  }

  lemma CanonItemsEncodable(items: seq<Value>)
    requires forall x :: x in items ==> Encodable(x)
    ensures forall x :: x in CanonItems(items) ==> Encodable(x)
  {
    hide Encodable, Canon;
    forall x | x in CanonItems(items) ensures Encodable(x) {
      var i :| 0 <= i < |items| && CanonItems(items)[i] == x;
      CanonItemsAt(items, i);
      CanonEncodable(items[i]);
    }
  }

  lemma CanonFieldsEncodable(fields: seq<Field>)
    requires FieldsEncodable(fields)
    ensures FieldsEncodable(CanonFields(fields))
  {
    hide Encodable, Canon, ShortText;
    forall x | x in CanonFields(fields) ensures ShortText(x.key) && Encodable(x.val) {
      var i :| 0 <= i < |fields| && CanonFields(fields)[i] == x;
      CanonFieldsAt(fields, i);
      CanonEncodable(fields[i].val);
    }
  }

  lemma {:induction false} ItemsOutEncoded(items: seq<Value>)
    requires ItemsEncodable(items)
    ensures forall x :: x in CanonItems(items) ==> Encodable(x)
    ensures ItemsOut(items) == EncItems(CanonItems(items))
  {
    hide Encodable, Canon, Enc, Write;
    CanonItemsEncodable(items);
    if items != [] {
      var k := |items| - 1;
      ItemsOutEncoded(items[..k]);
      var init, last := CanonItems(items[..k]), [Canon(items[k])];
      forall i | 0 <= i < |items| ensures CanonItems(items)[i] == (init + last)[i] {
        CanonItemsAt(items, i);
        if i < k { CanonItemsAt(items[..k], i); }
      }
      assert CanonItems(items) == init + last;
      EncItemsConcat(init, last);
      OneItem(items[k]);
    }
  }

  lemma OneItem(v: Value)
    requires Encodable(v)
    ensures Encodable(Canon(v)) && EncItems([Canon(v)]) == Write(v)
  {
    hide Encodable, Canon, Enc;
    CanonEncodable(v);
    assert [Canon(v)][1..] == [];
  }

  lemma {:induction false} FieldsOutEncoded(fields: seq<Field>)
    requires FieldsEncodable(fields)
    ensures FieldsEncodable(CanonFields(fields))
    ensures FieldsOut(fields) == EncFields(CanonFields(fields))
  {
    hide Encodable, Canon, Enc, Write, StrBytes, ShortText;
    CanonFieldsEncodable(fields);
    if fields != [] {
      var k := |fields| - 1;
      FieldsOutEncoded(fields[..k]);
      var init, last := CanonFields(fields[..k]), [Field(fields[k].key, Canon(fields[k].val))];
      forall i | 0 <= i < |fields| ensures CanonFields(fields)[i] == (init + last)[i] {
        CanonFieldsAt(fields, i);
        if i < k { CanonFieldsAt(fields[..k], i); }
      }
      assert CanonFields(fields) == init + last;
      EncFieldsConcat(init, last);
      OneField(fields[k]);
    }
  }

  lemma OneField(f: Field)
    requires ShortText(f.key) && Encodable(f.val)
    ensures Encodable(Canon(f.val))
    ensures EncFields([Field(f.key, Canon(f.val))]) == StrBytes(f.key) + Write(f.val)
  {
    hide Encodable, Canon, Enc, StrBytes;
    CanonEncodable(f.val);
    var one := [Field(f.key, Canon(f.val))];
    assert one[1..] == [];
    assert EncFields(one) == StrBytes(f.key) + Enc(Canon(f.val)) + [];
  }

  lemma {:induction false} InsertCanon(f: Field, s: seq<Field>)
    ensures CanonFields(Insert(f, s)) == Insert(Field(f.key, Canon(f.val)), CanonFields(s))
  {
    hide Compare, Canon;
    if s != [] && Compare(f.key, s[0].key) > 0 {
      InsertCanon(f, s[1..]);
      var r := Insert(f, s);
      assert r[1..] == Insert(f, s[1..]);
    } else {
      assert ([f] + s)[1..] == s;
    }
  }

  /** Sorting looks only at keys, so it commutes with rewriting the values. */
  lemma {:induction false} SortCanon(s: seq<Field>)
    ensures CanonFields(Sort(s)) == Sort(CanonFields(s))
  {
    hide Canon;
    if s != [] {
      SortCanon(s[1..]);
      InsertCanon(s[0], Sort(s[1..]));
    }
  }

  method WriteText(w: Writer, s: string) returns (ok: bool)
    modifies w
    ensures ok <==> ShortText(s)
    ensures ok ==> w.Bytes() == old(w.Bytes()) + StrBytes(s)
  {
    hide Octets, BE;
    var b := Utf8(s);
    if |b| < 32 {
      w.U8(160 + |b|);
    } else if |b| < 256 {
      Tagged(217, [|b|]);
      One(|b|);
      w.Push([217] + [|b|]);
    } else if |b| < 0x1_0000 {
      Tagged(218, [|b| / 256, |b|]);
      Two(|b|);
      w.Push([218] + [|b| / 256, |b|]);
    } else {
      return false;
    }
    OctetsOfBytes(b);
    w.Push(b);
    return true;
  }

  method WriteBin(w: Writer, data: Bytes) returns (ok: bool)
    modifies w
    ensures ok <==> |data| < 0x1_0000
    ensures ok ==> w.Bytes() == old(w.Bytes()) + (BinHead(|data|) + data)
  {
    hide Octets, BE;
    if |data| < 256 {
      Tagged(196, [|data|]);
      One(|data|);
      w.Push([196] + [|data|]);
    } else if |data| < 0x1_0000 {
      Tagged(197, [|data| / 256, |data|]);
      Two(|data|);
      w.Push([197] + [|data| / 256, |data|]);
    } else {
      return false;
    }
    OctetsOfBytes(data);
    w.Push(data);
    return true;
  }

  /** The head of an array (base 144, tag 220) or of an object (128, 222). */
  method WriteHead(w: Writer, base: Byte, tag: Byte, n: nat) returns (ok: bool)
    requires base <= 144
    modifies w
    ensures ok <==> n < 0x1_0000
    ensures ok ==> w.Bytes() == old(w.Bytes()) + (if n < 16 then [base as int + n] else [tag] + BE(n, 2))
  {
    hide Octets, BE;
    if n < 16 {
      w.U8(base as int + n);
    } else if n < 0x1_0000 {
      Tagged(tag, [n / 256, n]);
      Two(n);
      w.Push([tag as int] + [n / 256, n]);
    } else {
      return false;
    }
    return true;
  }

  /** Writes the canonical encoding, or stops where the value has none. */
  method WriteValue(w: Writer, v: Value) returns (ok: bool)
    requires Plain(v)
    modifies w
    ensures ok <==> Encodable(v)
    ensures ok ==> w.Bytes() == old(w.Bytes()) + Write(v)
    decreases v, 1
  {
    match v {
      case Null => w.U8(192); return true;
      case Bool(b) => w.U8(if b then 195 else 194); return true;
      case Int(n) => ok := WriteInteger(w, n);
      case Float(bits) =>
        if !Finite(bits) {
          return false;
        }
        w.U8(203);
        OctetsOfBytes(bits);
        w.Push(bits);
        return true;
      case Str(s) => ok := WriteText(w, s);
      case Bin(data) => ok := WriteBin(w, data);
      case Arr(items) => ok := WriteItems(w, v);
      case Obj(fields) => ok := WriteFields(w, v);
    }
  }

  lemma ArrEncodable(v: Value)
    requires v.Arr?
    ensures Encodable(v) <==> |v.items| < 0x1_0000 && ItemsEncodable(v.items)
  {}

  lemma NextItem(items: seq<Value>, i: nat)
    requires i < |items| && ItemsEncodable(items[..i])
    ensures ItemsEncodable(items) ==> Encodable(items[i])
    ensures Encodable(items[i]) ==> ItemsEncodable(items[..i + 1])
    ensures Encodable(items[i]) ==> ItemsOut(items[..i + 1]) == ItemsOut(items[..i]) + Write(items[i])
  {
    hide Encodable, Write;
    assert items[..i + 1][..i] == items[..i] && items[..i + 1] == items[..i] + [items[i]];
  }

  lemma NoItems(items: seq<Value>)
    ensures ItemsEncodable(items[..0]) && ItemsOut(items[..0]) == []
    ensures items[..|items|] == items
  {}

  method WriteItems(w: Writer, v: Value) returns (ok: bool)
    requires v.Arr? && Plain(v)
    modifies w
    ensures ok <==> Encodable(v)
    ensures ok ==> w.Bytes() == old(w.Bytes()) + Write(v)
    decreases v, 0
  {
    hide Enc, Canon, Octets, Encodable, ItemsEncodable, ItemsOut, Write, BE;
    ArrEncodable(v);
    var items := v.items;
    ok := WriteHead(w, 144, 220, |items|);
    if !ok {
      return;
    }
    ghost var start := w.Bytes();
    NoItems(items);
    for i := 0 to |items|
      invariant ok && ItemsEncodable(items[..i])
      invariant w.Bytes() == start + ItemsOut(items[..i])
    {
      assert items[i] in items;
      NextItem(items, i);
      ok := WriteValue(w, items[i]);
      if !ok {
        return;
      }
    }
    ArrWritten(v);
  }

  lemma ArrWritten(v: Value)
    requires v.Arr? && Encodable(v)
    ensures ItemsEncodable(v.items) && Write(v) == ArrHead(|v.items|) + ItemsOut(v.items)
  {
    ItemsOutEncoded(v.items);
  }

  lemma ObjEncodable(v: Value)
    requires v.Obj? && DistinctKeys(v.fields)
    ensures Encodable(v) <==> |v.fields| < 0x1_0000 && FieldsEncodable(v.fields)
    ensures FieldsEncodable(v.fields) <==> FieldsEncodable(Sort(v.fields))
  {
    hide ShortText;
    forall f ensures f in v.fields <==> f in Sort(v.fields) {
      SortMembers(v.fields, f);
    }
  }

  lemma NextField(fields: seq<Field>, i: nat)
    requires i < |fields| && FieldsEncodable(fields[..i])
    ensures FieldsEncodable(fields) ==> ShortText(fields[i].key) && Encodable(fields[i].val)
    ensures ShortText(fields[i].key) && Encodable(fields[i].val) ==>
      && FieldsEncodable(fields[..i + 1])
      && FieldsOut(fields[..i + 1]) == FieldsOut(fields[..i]) + (StrBytes(fields[i].key) + Write(fields[i].val))
  {
    hide Encodable, Write, ShortText, StrBytes;
    assert fields[..i + 1][..i] == fields[..i] && fields[..i + 1] == fields[..i] + [fields[i]];
  }

  lemma NoFields(fields: seq<Field>)
    ensures FieldsEncodable(fields[..0]) && FieldsOut(fields[..0]) == []
    ensures fields[..|fields|] == fields
  {}

  method WriteFields(w: Writer, v: Value) returns (ok: bool)
    requires v.Obj? && Plain(v)
    modifies w
    ensures ok <==> Encodable(v)
    ensures ok ==> w.Bytes() == old(w.Bytes()) + Write(v)
    decreases v, 0
  {
    hide Enc, Canon, Octets, ShortText, Write, StrBytes, Encodable, FieldsEncodable, FieldsOut, BE;
    ObjEncodable(v);
    var sorted := Sort(v.fields);
    ok := WriteHead(w, 128, 222, |sorted|);
    if !ok {
      return;
    }
    ghost var start := w.Bytes();
    NoFields(sorted);
    for i := 0 to |sorted|
      invariant ok && FieldsEncodable(sorted[..i])
      invariant w.Bytes() == start + FieldsOut(sorted[..i])
    {
      var f := sorted[i];
      SortMembers(v.fields, f);
      NextField(sorted, i);
      ghost var before := w.Bytes();
      ok := WriteText(w, f.key);
      if !ok {
        return;
      }
      ok := WriteValue(w, f.val);
      if !ok {
        return;
      }
      Associative(before, StrBytes(f.key), Write(f.val));
      Associative(start, FieldsOut(sorted[..i]), StrBytes(f.key) + Write(f.val));
    }
    ObjWritten(v);
  }

  lemma ObjWritten(v: Value)
    requires v.Obj? && Encodable(v)
    ensures FieldsEncodable(Sort(v.fields))
    ensures Write(v) == ObjHead(|v.fields|) + FieldsOut(Sort(v.fields))
  {
    ObjEncodable(v);
    FieldsOutEncoded(Sort(v.fields));
    SortCanon(v.fields);
  }

  // ------------------------------------------------------------------
  // Reading values

  class Reader {
    const input: Bytes
    var offset: nat

    ghost predicate Valid()
      reads this
    {
      offset <= |input|
    }

    ghost function Rest(): Bytes
      reads this
      requires Valid()
    {
      input[offset..]
    }

    constructor (b: Bytes)
      ensures Valid() && Rest() == b && input == b
    {
      input, offset := b, 0;
      new;
      assert input[0..] == b;
    }

    method U8() returns (b: Option<Byte>)
      requires Valid()
      modifies this
      ensures Valid()
      ensures |old(Rest())| == 0 ==> b == None
      ensures |old(Rest())| > 0 ==> b == Some(old(Rest())[0]) && Rest() == old(Rest())[1..]
    {
      if offset + 1 > |input| {
        return None;
      }
      b := Some(input[offset]);
      offset := offset + 1;
      assert Rest() == old(Rest())[1..];
    }

    method N(len: nat) returns (x: Option<Bytes>)
      requires Valid()
      modifies this
      ensures Valid()
      ensures |old(Rest())| < len ==> x == None
      ensures |old(Rest())| >= len ==> x == Some(old(Rest())[..len]) && Rest() == old(Rest())[len..]
    {
      if offset + len > |input| {
        return None;
      }
      x := Some(input[offset..offset + len]);
      assert x.value == Rest()[..len];
      offset := offset + len;
      assert Rest() == old(Rest())[len..];
    }

    /** The next k bytes as a big-endian number. */
    method Count(k: nat) returns (n: Option<nat>)
      requires Valid()
      modifies this
      ensures Valid()
      ensures |old(Rest())| < k ==> n == None
      ensures |old(Rest())| >= k ==> n == Some(Number(old(Rest()), k)) && Rest() == old(Rest())[k..]
    {
      var x: nat := 0;
      ghost var rest := Rest();
      for i := 0 to k
        invariant Valid() && i <= |rest| && x == Number(rest, i) && Rest() == rest[i..]
      {
        var b := U8();
        if b == None {
          return None;
        }
        assert rest[..i + 1][..i] == rest[..i];
        x := x * 256 + b.value;
      }
      return Some(x);
    }
  }

  /** The object's answer and position agree with the specification's. */
  ghost predicate Agrees(v: Option<Value>, spec: Option<Parsed<Value>>, rest: Bytes) {
    match spec
    case None => v == None
    case Some(p) => v == Some(p.value) && rest == p.rest
  }

  method ReadValue(r: Reader, depth: nat) returns (v: Option<Value>)
    requires r.Valid()
    modifies r
    ensures r.Valid() && Agrees(v, Read(old(r.Rest()), depth), r.Rest())
    decreases |r.Rest()|, 0
  {
    hide Dispatch;
    if depth > MAX_DEPTH {
      return None;
    }
    var t := r.U8();
    if t == None {
      return None;
    }
    v := ReadTail(r, t.value, depth);
  }

  method ReadTail(r: Reader, t: Byte, depth: nat) returns (v: Option<Value>)
    requires r.Valid()
    modifies r
    ensures r.Valid() && Agrees(v, Dispatch(t, old(r.Rest()), depth), r.Rest())
    decreases |r.Rest()|, 3
  {
    hide Read, ReadArr, ReadObj, ReadNumber, ReadText, ReadBin, ReadFloat, Number;
    if t <= 127 {
      return Some(Int(t));
    } else if t >= 224 {
      return Some(Int(t as int - 256));
    } else if 160 <= t < 192 {
      v := ReadString(r, t - 160);
    } else if 144 <= t < 160 {
      v := ReadArray(r, t - 144, depth);
    } else if t < 144 {
      v := ReadMap(r, t - 128, depth);
    } else if t == 192 {
      return Some(Null);
    } else if t == 194 {
      return Some(Bool(false));
    } else if t == 195 {
      return Some(Bool(true));
    } else if 204 <= t <= 207 {
      v := ReadInteger(r, if t == 204 then 1 else if t == 205 then 2 else if t == 206 then 4 else 8, false);
    } else if 208 <= t <= 211 {
      v := ReadInteger(r, if t == 208 then 1 else if t == 209 then 2 else if t == 210 then 4 else 8, true);
    } else if t == 202 || t == 203 {
      v := ReadRaw(r, if t == 202 then 4 else 8, true);
    } else if t == 217 || t == 218 || t == 196 || t == 197 || t == 220 || t == 222 {
      v := ReadCounted(r, t, depth);
    } else {
      return None;
    }
  }

  method ReadCounted(r: Reader, t: Byte, depth: nat) returns (v: Option<Value>)
    requires r.Valid() && (t == 217 || t == 218 || t == 196 || t == 197 || t == 220 || t == 222)
    modifies r
    ensures r.Valid() && Agrees(v, Dispatch(t, old(r.Rest()), depth), r.Rest())
    decreases |r.Rest()|, 2
  {
    hide Read, ReadArr, ReadObj, ReadText, ReadBin, Number;
    var n := r.Count(if t == 217 || t == 196 then 1 else 2);
    if n == None {
      return None;
    }
    if t == 217 || t == 218 {
      v := ReadString(r, n.value);
    } else if t == 196 || t == 197 {
      v := ReadRaw(r, n.value, false);
    } else if t == 220 {
      v := ReadArray(r, n.value, depth);
    } else {
      v := ReadMap(r, n.value, depth);
    }
  }

  method ReadInteger(r: Reader, k: nat, signed: bool) returns (v: Option<Value>)
    requires r.Valid() && Width(k)
    modifies r
    ensures r.Valid() && Agrees(v, ReadNumber(old(r.Rest()), k, signed), r.Rest())
  {
    hide Number;
    var n := r.Count(k);
    if n == None {
      return None;
    }
    var i := if signed then Signed(n.value, k) else n.value;
    if k == 8 && !Safe(i) {
      return None;
    }
    return Some(Int(i));
  }

  method ReadString(r: Reader, n: nat) returns (v: Option<Value>)
    requires r.Valid()
    modifies r
    ensures r.Valid() && Agrees(v, ReadText(old(r.Rest()), n), r.Rest())
  {
    hide TextDecode;
    var b := r.N(n);
    if b == None {
      return None;
    }
    var s := TextDecode(b.value);
    if s == None {
      return None;
    }
    return Some(Str(s.value));
  }

  method ReadRaw(r: Reader, n: nat, float: bool) returns (v: Option<Value>)
    requires r.Valid()
    modifies r
    ensures r.Valid()
    ensures Agrees(v, if float then ReadFloat(old(r.Rest()), n) else ReadBin(old(r.Rest()), n), r.Rest())
  {
    var b := r.N(n);
    if b == None {
      return None;
    }
    return Some(if float then FloatValue(b.value) else Bin(b.value));
  }

  ghost function Prepend<T>(done: seq<T>, more: Option<Parsed<seq<T>>>): Option<Parsed<seq<T>>> {
    match more
    case None => None
    case Some(p) => Some(Parsed(done + p.value, p.rest))
  }

  lemma PrependOne<T>(done: seq<T>, x: T, more: Option<Parsed<seq<T>>>)
    ensures Prepend(done, Prepend([x], more)) == Prepend(done + [x], more)
  {
    if more.Some? {
      Associative(done, [x], more.value.value);
      assert [] + more.value.value == more.value.value;
    }
  }

  lemma PrependEnds<T>(done: seq<T>, more: Option<Parsed<seq<T>>>, rest: Bytes)
    ensures Prepend([], more) == more && Prepend(done, None) == None
    ensures Prepend(done, Some(Parsed([], rest))) == Some(Parsed(done, rest))
  {
    if more.Some? {
      assert [] + more.value.value == more.value.value;
    }
    assert done + [] == done;
  }

  lemma ReadItemsStep(b: Bytes, n: nat, depth: nat)
    ensures n == 0 ==> ReadItems(b, n, depth) == Some(Parsed([], b))
    ensures n > 0 && Read(b, depth) == None ==> ReadItems(b, n, depth) == None
    ensures n > 0 && Read(b, depth).Some? ==>
      ReadItems(b, n, depth) == Prepend([Read(b, depth).value.value], ReadItems(Read(b, depth).value.rest, n - 1, depth))
  {
    hide Read;
  }

  method ReadArray(r: Reader, n: nat, depth: nat) returns (v: Option<Value>)
    requires r.Valid()
    modifies r
    ensures r.Valid() && Agrees(v, ReadArr(old(r.Rest()), n, depth), r.Rest())
    decreases |r.Rest()|, 1
  {
    hide Read, ReadItems, Prepend;
    var items := [];
    ghost var spec := ReadItems(r.Rest(), n, depth + 1);
    ghost var length := |r.Rest()|;
    PrependEnds(items, spec, []);
    for i := 0 to n
      invariant r.Valid() && |r.Rest()| <= length
      invariant spec == Prepend(items, ReadItems(r.Rest(), n - i, depth + 1))
    {
      ghost var rest := r.Rest();
      ReadItemsStep(rest, n - i, depth + 1);
      var x := ReadValue(r, depth + 1);
      if x == None {
        PrependEnds(items, spec, []);
        return None;
      }
      PrependOne(items, x.value, ReadItems(r.Rest(), n - i - 1, depth + 1));
      items := items + [x.value];
    }
    ReadItemsStep(r.Rest(), 0, depth + 1);
    PrependEnds(items, spec, r.Rest());
    return Some(Arr(items));
  }

  /** The bytes start with a fresh text key and a readable value. */
  ghost predicate KeyAndValue(b: Bytes, depth: nat, seen: set<string>) {
    && Read(b, depth).Some?
    && Read(b, depth).value.value.Str? && Read(b, depth).value.value.s !in seen
    && Read(Read(b, depth).value.rest, depth).Some?
  }

  lemma ReadFieldsStep(b: Bytes, n: nat, depth: nat, seen: set<string>)
    ensures n == 0 ==> ReadFields(b, n, depth, seen) == Some(Parsed([], b))
    ensures n > 0 && !KeyAndValue(b, depth, seen) ==> ReadFields(b, n, depth, seen) == None
    ensures n > 0 && KeyAndValue(b, depth, seen) ==>
      var Parsed(k, rest) := Read(b, depth).value;
      var Parsed(v, rest') := Read(rest, depth).value;
      ReadFields(b, n, depth, seen) == Prepend([Field(k.s, v)], ReadFields(rest', n - 1, depth, seen + {k.s}))
  {
    hide Read;
  }

  method ReadMap(r: Reader, n: nat, depth: nat) returns (v: Option<Value>)
    requires r.Valid()
    modifies r
    ensures r.Valid() && Agrees(v, ReadObj(old(r.Rest()), n, depth), r.Rest())
    decreases |r.Rest()|, 1
  {
    hide Read, ReadFields, Prepend;
    var fields: seq<Field> := [];
    var seen: set<string> := {};
    ghost var spec := ReadFields(r.Rest(), n, depth + 1, {});
    ghost var length := |r.Rest()|;
    PrependEnds(fields, spec, []);
    for i := 0 to n
      invariant r.Valid() && |r.Rest()| <= length
      invariant spec == Prepend(fields, ReadFields(r.Rest(), n - i, depth + 1, seen))
    {
      ReadFieldsStep(r.Rest(), n - i, depth + 1, seen);
      PrependEnds(fields, spec, []);
      var k := ReadValue(r, depth + 1);
      if k == None || !k.value.Str? || k.value.s in seen {
        return None;
      }
      var x := ReadValue(r, depth + 1);
      if x == None {
        return None;
      }
      var f := Field(k.value.s, x.value);
      PrependOne(fields, f, ReadFields(r.Rest(), n - i - 1, depth + 1, seen + {f.key}));
      fields, seen := fields + [f], seen + {f.key};
    }
    ReadFieldsStep(r.Rest(), 0, depth + 1, seen);
    PrependEnds(fields, spec, r.Rest());
    return Some(Obj(fields));
  }
}
