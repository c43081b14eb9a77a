/** The bytes of a manifest as BUD-16 and BUD-17 lay them out and
    tinyclient/blossom-manifests.js writes them: one-letter keys in order, each
    with its value. */
module ManifestFormat {
  import opened Prelude
  import opened Text
  import opened MsgPack
  import opened MsgPackFormat
  import opened Canonical
  import opened Manifest
  import opened ManifestIO
  import DirTree
  import DirRead
  import Workspace
  import Selection

  /** A key of one ASCII character is a head and that byte. */
  lemma KeyBytes(key: string)
    requires |key| == 1 && key[0] < 128 as char
    ensures ShortText(key) && StrBytes(key) == [0xA1, key[0] as int]
  {
    hide BE;
    assert Utf8(key) == [key[0] as int];
  }

  /** One optional field behind the ones before it. */
  ghost function FieldOut(key: Byte, value: Option<Bytes>): Bytes {
    if value.Some? then [0xA1, key] + value.value else []
  }

  lemma OptionalOut(key: string, v: Option<Value>, rest: seq<Field>)
    requires |key| == 1 && key[0] < 128 as char && (v.Some? ==> Encodable(v.value))
    requires forall f :: f in rest ==> ShortText(f.key) && Encodable(f.val)
    ensures forall f :: f in Optional(key, v) + rest ==> ShortText(f.key) && Encodable(f.val)
    ensures EncFields(Optional(key, v) + rest)
         == FieldOut(key[0] as int, if v.Some? then Some(Enc(v.value)) else None) + EncFields(rest)
  {
    hide Encodable, Enc, StrBytes, ShortText;
    KeyBytes(key);
    if v.Some? {
      var all := Optional(key, v) + rest;
      assert all[0] == Field(key, v.value) && all[1..] == rest;
    } else {
      assert Optional(key, v) + rest == rest;
    }
  }


  lemma DigestOut(b: Bytes)
    requires |b| == 32
    ensures Encodable(Bin(b)) && Enc(Bin(b)) == [0xC4, 0x20] + b
  {
    HeadFormats(32);
  }

  /** A link's fields, in order: its digest under h, its key under k, its
      metadata under m, its name under n, its size under s and its type under t,
      without the ones it does not have. */
  ghost function LinkOut(x: Link): Bytes
    requires Encodable(LinkValue(x)) && LinkTexts(x) && Safe(x.s) && 0 <= x.t <= 3
  {
    FieldOut(0x68, Some([0xC4, 0x20] + x.h))
    + (FieldOut(0x6B, if x.k.Some? then Some([0xC4, 0x20] + x.k.value) else None)
    + (FieldOut(0x6D, if x.m.Some? then Some(Enc(x.m.value)) else None)
    + (FieldOut(0x6E, if x.n.Some? then Some(StrBytes(x.n.value)) else None)
    + (FieldOut(0x73, Some(IntBytes(x.s)))
    + FieldOut(0x74, Some([x.t]))))))
  }

  ghost predicate LinkTexts(x: Link) {
    (x.m.Some? ==> Encodable(x.m.value)) && (x.n.Some? ==> ShortText(x.n.value))
  }

  function LinkCount(x: Link): nat {
    3 + (if x.k.Some? then 1 else 0) + (if x.m.Some? then 1 else 0) + (if x.n.Some? then 1 else 0)
  }

  /** What a valid link holds, field by field. */
  lemma LinkHolds(x: Link, nodeType: int)
    requires LinkOK(x, nodeType) && 1 <= nodeType <= 3 && (x.m.Some? ==> Encodable(x.m.value))
    ensures |x.h| == 32 && (x.k.Some? ==> |x.k.value| == 32) && Safe(x.s) && 0 <= x.t <= 3 && LinkTexts(x)
    ensures Encodable(LinkValue(x)) && |LinkFields(x)| == LinkCount(x)
    ensures forall y :: y in {BinOption(x.k), x.m, StrOption(x.n)} && y.Some? ==> Encodable(y.value)
  {
    hide MetaOK, Utf8;
    LinkEncodable(x, nodeType);
  }

  lemma ValuesOut(x: Link)
    requires |x.h| == 32 && (x.k.Some? ==> |x.k.value| == 32) && Safe(x.s) && 0 <= x.t <= 3 && LinkTexts(x)
    ensures Encodable(Bin(x.h)) && Enc(Bin(x.h)) == [0xC4, 0x20] + x.h
    ensures x.k.Some? ==> Encodable(Bin(x.k.value)) && Enc(Bin(x.k.value)) == [0xC4, 0x20] + x.k.value
    ensures x.n.Some? ==> Encodable(Str(x.n.value)) && Enc(Str(x.n.value)) == StrBytes(x.n.value)
    ensures Encodable(Int(x.s)) && Enc(Int(x.s)) == IntBytes(x.s)
    ensures Encodable(Int(x.t)) && Enc(Int(x.t)) == [x.t]
  {
    hide StrBytes, ShortText;
    DigestOut(x.h);
    if x.k.Some? { DigestOut(x.k.value); }
    IntFormat(x.t);
  }

  lemma LinkLayout(x: Link, nodeType: int)
    requires LinkOK(x, nodeType) && 1 <= nodeType <= 3 && (x.m.Some? ==> Encodable(x.m.value))
    ensures Encodable(LinkValue(x)) && LinkTexts(x) && Safe(x.s) && 0 <= x.t <= 3
    ensures Enc(LinkValue(x)) == [0x80 + LinkCount(x)] + LinkOut(x)
  {
    hide Enc, EncFields, Optional, StrBytes, IntBytes, ShortText, LinkOK, Encodable, FieldOut, ObjHead, LinkTexts, LinkFields, Safe;
    LinkHolds(x, nodeType);
    ValuesOut(x);
    ObjOut(LinkFields(x));
    LinkFieldsOut(x);
    HeadFormats(LinkCount(x));
  }

  lemma ObjOut(fields: seq<Field>)
    requires Encodable(Obj(fields))
    ensures FieldsReady(fields) && |fields| < 0x1_0000
    ensures Enc(Obj(fields)) == ObjHead(|fields|) + EncFields(fields)
  {
    hide ObjHead, EncFields;
  }

  ghost predicate FieldsReady(fields: seq<Field>) { forall f :: f in fields ==> ShortText(f.key) && Encodable(f.val) }

  lemma LinkFieldsOut(x: Link)
    requires FieldsReady(LinkFields(x)) && Encodable(LinkValue(x)) && LinkTexts(x) && Safe(x.s) && 0 <= x.t <= 3 && |x.h| == 32
    requires x.k.Some? ==> |x.k.value| == 32
    ensures EncFields(LinkFields(x)) == LinkOut(x)
  {
    hide Enc, EncFields, Optional, StrBytes, IntBytes, ShortText, Encodable, FieldOut, LinkFields, LinkTexts;
    ValuesOut(x);
    assert x.m.Some? ==> Encodable(x.m.value) by { assert LinkTexts(x); TextsOf(x); }
    var none: seq<Field> := [];
    var t := Optional("t", Some(Int(x.t)));
    var s := Optional("s", Some(Int(x.s))) + t;
    var n := Optional("n", StrOption(x.n)) + s;
    var m := Optional("m", x.m) + n;
    var k := Optional("k", BinOption(x.k)) + m;
    var h := Optional("h", Some(Bin(x.h))) + k;
    LinkFieldsParts(x);
    assert t == t + none;
    assert LinkFields(x) == h;
    OptionalOut("t", Some(Int(x.t)), none);
    OptionalOut("s", Some(Int(x.s)), t);
    OptionalOut("n", StrOption(x.n), s);
    OptionalOut("m", x.m, n);
    OptionalOut("k", BinOption(x.k), m);
    OptionalOut("h", Some(Bin(x.h)), k);
    NothingOut();
  }

  lemma TextsOf(x: Link)
    requires LinkTexts(x)
    ensures x.m.Some? ==> Encodable(x.m.value)
  {}

  lemma NothingOut()
    ensures EncFields([]) == [] && forall b: Bytes :: b + [] == b
  {}

  /** A manifest is a map of its links under l, as an array, and its type under
      t; each link is written as it stands, with its metadata's keys in order. */
  lemma NodeLayout(node: Node)
    requires EncodeManifest(node).Some?
    ensures |node.l| <= 174 && 1 <= node.t <= 3 && LinksEncodable(node.l) && |EncodeManifest(node).value| <= 16777216
    ensures EncodeManifest(node).value == [0x82, 0xA1, 0x6C] + ArrHead(|node.l|) + LinksOut(node.l) + [0xA1, 0x74] + [node.t]
  {
    hide NodeBytes, LinksOut, StrBytes, IntBytes, BE, LinkOK, Encodable, LinkValues, CanonLinks;
    LinksOK(node);
    CanonNodeOK(node);
    NodeValueEncodable(CanonNode(node));
    LinksReady(node);
    NodeWritten(node);
    KeyBytes("l");
    KeyBytes("t");
    IntFormat(node.t);
    var head := ArrHead(|node.l|);
    assert [0x82] + [0xA1, 0x6C] == [0x82, 0xA1, 0x6C];
  }

  lemma LinksReady(node: Node)
    requires Encodable(NodeValue(CanonNode(node)))
    ensures LinksEncodable(node.l)
  {
    hide LinkValues, CanonLinks;
    var items := LinkValues(CanonLinks(node.l));
    var fields := NodeValue(CanonNode(node)).fields;
    assert fields[0].val == Arr(items) && fields[0] in fields;
  }

  lemma {:induction false} AsciiBytes(s: string)
    requires Ascii(s)
    ensures |Utf8(s)| == |s| && forall i :: 0 <= i < |s| ==> Utf8(s)[i] == s[i] as int
  {
    if s != "" {
      AsciiBytes(s[1..]);
      assert Utf8(s) == [s[0] as int] + Utf8(s[1..]);
    }
  }

  lemma WordBytes(key: string, b: Bytes)
    requires Ascii(key) && |key| < 32 && b == seq(|key|, i requires 0 <= i < |key| => key[i] as int)
    ensures ShortText(key) && StrBytes(key) == [0xA0 + |key|] + b
  {
    hide BE;
    AsciiBytes(key);
    assert Utf8(key) == b;
  }

  /** The metadata of a fanout link: how many entries are below it, and the
      first and the last of their names. */
  lemma BoundsLayout(b: Bounds)
    requires Safe(b.count) && ShortText(b.first) && ShortText(b.last)
    ensures Encodable(DirTree.Meta(b))
    ensures Enc(DirTree.Meta(b))
         == [0x83] + (([0xA5, 0x63, 0x6F, 0x75, 0x6E, 0x74] + IntBytes(b.count))
            + (([0xA5, 0x66, 0x69, 0x72, 0x73, 0x74] + StrBytes(b.first)) + ([0xA4, 0x6C, 0x61, 0x73, 0x74] + StrBytes(b.last))))
  {
    hide StrBytes, IntBytes, ShortText, EncFields, ObjHead, Encodable, Enc;
    var x, y, z := Field("count", Int(b.count)), Field("first", Str(b.first)), Field("last", Str(b.last));
    KeyWords();
    BoundsEncodable(b);
    ObjOut([x, y, z]);
    HeadFormats(3);
    ThreeOut(x, y, z);
  }

  lemma BoundsEncodable(b: Bounds)
    requires Safe(b.count) && ShortText(b.first) && ShortText(b.last)
    ensures Encodable(DirTree.Meta(b))
    ensures Encodable(Int(b.count)) && Enc(Int(b.count)) == IntBytes(b.count)
    ensures Encodable(Str(b.first)) && Enc(Str(b.first)) == StrBytes(b.first)
    ensures Encodable(Str(b.last)) && Enc(Str(b.last)) == StrBytes(b.last)
  {
    hide StrBytes, IntBytes, ShortText;
    KeyWords();
  }

  lemma KeyWords()
    ensures ShortText("count") && StrBytes("count") == [0xA5, 0x63, 0x6F, 0x75, 0x6E, 0x74]
    ensures ShortText("first") && StrBytes("first") == [0xA5, 0x66, 0x69, 0x72, 0x73, 0x74]
    ensures ShortText("last") && StrBytes("last") == [0xA4, 0x6C, 0x61, 0x73, 0x74]
    ensures ShortText("type") && StrBytes("type") == [0xA4, 0x74, 0x79, 0x70, 0x65]
  {
    hide StrBytes, ShortText;
    WordBytes("count", [0x63, 0x6F, 0x75, 0x6E, 0x74]);
    WordBytes("first", [0x66, 0x69, 0x72, 0x73, 0x74]);
    WordBytes("last", [0x6C, 0x61, 0x73, 0x74]);
    WordBytes("type", [0x74, 0x79, 0x70, 0x65]);
  }

  lemma ThreeOut(x: Field, y: Field, z: Field)
    requires FieldsReady([x, y, z])
    ensures FieldsReady([x]) && FieldsReady([y]) && FieldsReady([z])
    ensures EncFields([x, y, z])
         == (StrBytes(x.key) + Enc(x.val)) + ((StrBytes(y.key) + Enc(y.val)) + (StrBytes(z.key) + Enc(z.val)))
  {
    hide StrBytes, ShortText, Encodable, Enc, EncFields;
    var none: seq<Field> := [];
    assert x in [x, y, z] && y in [x, y, z] && z in [x, y, z];
    assert [x, y, z] == [x] + [y, z] && [y, z] == [y] + [z] && [z] == [z] + none;
    OneMore(z, none);
    OneMore(y, [z]);
    OneMore(x, [y, z]);
    NothingOut();
  }

  lemma OneMore(f: Field, rest: seq<Field>)
    requires FieldsReady([f]) && FieldsReady(rest)
    ensures FieldsReady([f] + rest) && ShortText(f.key) && Encodable(f.val)
    ensures EncFields([f] + rest) == StrBytes(f.key) + Enc(f.val) + EncFields(rest)
  {
    hide StrBytes, ShortText, Encodable, Enc;
    assert f in [f];
    assert ([f] + rest)[1..] == rest;
  }

  /** The metadata of a file: its type, or that of unspecified bytes. */
  lemma TypeLayout(file: Selection.File)
    requires ShortText(file.mime)
    ensures Encodable(Workspace.FileMeta(file)) && ShortText("application/octet-stream")
    ensures Enc(Workspace.FileMeta(file))
         == [0x81, 0xA4, 0x74, 0x79, 0x70, 0x65] + StrBytes(if file.mime != "" then file.mime else "application/octet-stream")
  {
    hide StrBytes, ShortText, EncFields, ObjHead, BE;
    var f := Field("type", Str(Workspace.MimeOf(file)));
    var none: seq<Field> := [];
    KeyWords();
    DefaultShort();
    assert [f] == [f] + none;
    assert FieldsReady(none);
    assert Encodable(Obj([f]));
    ObjOut([f]);
    HeadFormats(1);
    OneMore(f, none);
    NothingOut();
  }

  lemma DefaultShort()
    ensures ShortText("application/octet-stream")
  {
    Utf8Length("application/octet-stream");
  }

  /** Metadata has at most 64 fields, with keys of at most 256 bytes. */
  lemma FieldLimits(fields: seq<Field>)
    requires forall f :: f in fields ==> f.val.Null?
    ensures MetaOK(Obj(fields), 0) <==> |fields| <= 64 && forall f :: f in fields ==> |Utf8(f.key)| <= 256
  {
    hide Utf8;
    forall f | f in fields ensures ValueOK(f.val, 0) {}
  }

  /** Lists in metadata have at most 256 items. */
  lemma ItemLimits(items: seq<Value>)
    requires forall x :: x in items ==> x.Null?
    ensures MetaOK(Obj([Field("", Arr(items))]), 0) <==> |items| <= 256
  {
    var f := Field("", Arr(items));
    assert Utf8("") == [];
    assert f in [f];
    forall x | x in items ensures ValueOK(x, 1) {}
  }

  // ------------------------------------------------------------------
  // What is valid

  /** Which links a file, a directory and a fanout may hold: types by a table,
      names in directories and nowhere else. */
  lemma LinkRules(x: Link, nodeType: int)
    requires 1 <= nodeType <= 3
    ensures LinkOK(x, nodeType) <==>
      && (nodeType, x.t) in {(1, 0), (1, 1), (2, 0), (2, 1), (2, 2), (2, 3), (3, 2), (3, 3)}
      && (x.n.Some? <==> nodeType == 2) && (x.n.Some? ==> Usable(x.n.value))
      && |x.h| == 32 && (x.k.Some? ==> |x.k.value| == 32) && (x.m.Some? ==> MetaOK(x.m.value, 0))
      && 0 <= x.s <= 9007199254740991
  {
    hide MetaOK, NameOK, Usable;
    if x.n.Some? { NameExact(x.n.value); }
  }

  /** The fields that describe what is below a fanout link. */
  predicate Described(fields: seq<Field>, count: int, first: string, last: string) {
    Field("count", Int(count)) in fields && Field("first", Str(first)) in fields && Field("last", Str(last)) in fields
  }

  /** A fanout link says how many entries are below it, at least one, and the
      first and the last of their names, in order. */
  lemma FanoutRules(x: Link)
    requires x.m.Some? && x.m.value.Obj? && DistinctKeys(x.m.value.fields)
    ensures FanoutOK(x) <==> exists count, first, last ::
      Described(x.m.value.fields, count, first, last)
      && 1 <= count <= 9007199254740991 && Usable(first) && Usable(last) && !Precedes(last, first)
  {
    hide Get, Usable, NameOK, Compare, Precedes;
    var f := x.m.value.fields;
    forall key, v ensures Get(f, key) == Some(v) <==> Field(key, v) in f { GetMember(f, key, v); }
    forall n ensures NameOK(n) <==> Usable(n) { NameExact(n); }
    forall a, b ensures Compare(a, b) <= 0 <==> !Precedes(b, a) { NotAfter(a, b); }
    if FanoutOK(x) {
      var b := BoundsOf(x.m).value;
      assert Described(f, b.count, b.first, b.last);
    }
  }

  lemma NotAfter(a: string, b: string)
    ensures Compare(a, b) <= 0 <==> !Precedes(b, a)
  {
    hide Precedes;
    BeforeExact(b, a);
    BeforeTotal(a, b);
  }

  /** A manifest is valid when its links are, there are at most 174, and a
      directory's names come in the order of their UTF-8 bytes. */
  lemma NodeRules(node: Node)
    ensures NodeOK(node) <==>
      && node.t in {1, 2, 3} && |node.l| <= 174
      && (forall x :: x in node.l ==> LinkOK(x, node.t))
      && (node.t == 2 ==> DirRead.ByteOrder(node.l))
      && (node.t == 3 ==> forall x :: x in node.l ==> FanoutOK(x))
  {
    hide FanoutOK, DirRead.ByteOrder, Before;
    DirRead.AscendingExact(node.l);
    if node.t == 2 && forall x :: x in node.l ==> LinkOK(x, 2) { SortedAscends(node.l); }
  }

  lemma SortedAscends(l: seq<Link>)
    requires forall x :: x in l ==> LinkOK(x, 2)
    ensures NamesSorted(l) <==> DirRead.Ascending(l)
  {
    hide Before, NameOK, MetaOK;
    forall x | x in l ensures x.n.Some? { assert LinkOK(x, 2); }
  }
}
