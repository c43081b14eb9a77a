/** encodeManifest and decodeManifest of tinyclient/blossom-manifests.js as
    they run, over the writer and reader objects. */
module ManifestIO {
  import opened Prelude
  import opened Text
  import opened MsgPack
  import opened Canonical
  import opened MsgPackIO
  import opened Manifest

  ghost predicate MetasPlain(l: seq<Link>) {
    forall x :: x in l && x.m.Some? ==> Plain(x.m.value)
  }

  lemma {:induction false} CanonFieldsConcat(a: seq<Field>, b: seq<Field>)
    ensures CanonFields(a + b) == CanonFields(a) + CanonFields(b)
  {
    hide Canon;
    if a == [] {
      assert a + b == b;
    } else {
      CanonFieldsConcat(a[1..], b);
      assert (a + b)[1..] == a[1..] + b && (a + b)[0] == a[0];
      Associative([Field(a[0].key, Canon(a[0].val))], CanonFields(a[1..]), CanonFields(b));
    }
  }

  lemma CanonOptional(key: string, v: Option<Value>)
    ensures CanonFields(Optional(key, v)) == Optional(key, if v.Some? then Some(Canon(v.value)) else None)
  {
    hide Canon;
    if v.Some? {
      assert [Field(key, v.value)][1..] == [];
    }
  }

  /** Writing a link's fields in their fixed order is writing the canonical
      link: only its metadata has an order of its own. */
  lemma CanonLinkFields(x: Link)
    ensures CanonFields(LinkFields(x)) == LinkFields(CanonLink(x))
  {
    hide CanonFields, Optional;
    var h, k, m, n := Optional("h", Some(Bin(x.h))), Optional("k", BinOption(x.k)), Optional("m", x.m), Optional("n", StrOption(x.n));
    var s, t := Optional("s", Some(Int(x.s))), Optional("t", Some(Int(x.t)));
    LinkFieldsParts(x);
    LinkFieldsParts(CanonLink(x));
    CanonFieldsConcat(h + k + m + n + s, t);
    CanonFieldsConcat(h + k + m + n, s);
    CanonFieldsConcat(h + k + m, n);
    CanonFieldsConcat(h + k, m);
    CanonFieldsConcat(h, k);
    CanonOptional("h", Some(Bin(x.h)));
    CanonOptional("k", BinOption(x.k));
    CanonOptional("m", x.m);
    CanonOptional("n", StrOption(x.n));
    CanonOptional("s", Some(Int(x.s)));
    CanonOptional("t", Some(Int(x.t)));
  }

  lemma LinkFieldsParts(x: Link)
    ensures LinkFields(x)
         == Optional("h", Some(Bin(x.h))) + Optional("k", BinOption(x.k)) + Optional("m", x.m)
            + Optional("n", StrOption(x.n)) + Optional("s", Some(Int(x.s))) + Optional("t", Some(Int(x.t)))
  {
    var a := [Field("h", Bin(x.h))] + Optional("k", BinOption(x.k)) + Optional("m", x.m) + Optional("n", StrOption(x.n));
    assert a + [Field("s", Int(x.s)), Field("t", Int(x.t))] == a + [Field("s", Int(x.s))] + [Field("t", Int(x.t))];
  }

  method WriteLink(w: Writer, x: Link, ghost nodeType: int) returns (ok: bool)
    requires LinkOK(x, nodeType) && 1 <= nodeType <= 3 && (x.m.Some? ==> Plain(x.m.value))
    modifies w
    ensures ok <==> x.m.Some? ==> Encodable(x.m.value)
    ensures ok ==> Encodable(LinkValue(CanonLink(x)))
    ensures ok ==> w.Bytes() == old(w.Bytes()) + Enc(LinkValue(CanonLink(x)))
  {
    hide Enc, Canon, Octets, ShortText, Write, StrBytes, Encodable, FieldsEncodable, FieldsOut, BE, LinkOK, Plain;
    var fields := LinkFields(x);
    LinkKeysDistinct(x);
    ok := WriteHead(w, 128, 222, |fields|);
    ghost var start := w.Bytes();
    NoFields(fields);
    for i := 0 to |fields|
      invariant ok && FieldsEncodable(fields[..i])
      invariant w.Bytes() == start + FieldsOut(fields[..i])
    {
      var f := fields[i];
      NextField(fields, i);
      LinkField(x, nodeType, f);
      ghost var before := w.Bytes();
      ok := WriteText(w, f.key);
      ok := WriteValue(w, f.val);
      if !ok {
        return;
      }
      Associative(before, StrBytes(f.key), Write(f.val));
      Associative(start, FieldsOut(fields[..i]), StrBytes(f.key) + Write(f.val));
    }
    LinkWritten(x, nodeType);
  }

  lemma LinkField(x: Link, nodeType: int, f: Field)
    requires LinkOK(x, nodeType) && 1 <= nodeType <= 3 && (x.m.Some? ==> Plain(x.m.value)) && f in LinkFields(x)
    ensures ShortText(f.key) && Plain(f.val)
    ensures (x.m.Some? ==> Encodable(x.m.value)) ==> Encodable(f.val)
    ensures Encodable(f.val) || Some(f.val) == x.m
  {
    hide MetaOK, Utf8;
    KeyTexts();
    LinkKeys(x);
    assert f.val == Bin(x.h) || Some(f.val) == BinOption(x.k) || Some(f.val) == x.m || Some(f.val) == StrOption(x.n)
        || f.val == Int(x.s) || f.val == Int(x.t);
  }

  lemma MetaAmong(x: Link)
    requires x.m.Some?
    ensures Field("m", x.m.value) in LinkFields(x)
  {}

  lemma LinkWritten(x: Link, nodeType: int)
    requires FieldsEncodable(LinkFields(x)) && LinkOK(x, nodeType) && 1 <= nodeType <= 3
    ensures x.m.Some? ==> Encodable(x.m.value)
    ensures Encodable(LinkValue(CanonLink(x)))
    ensures Enc(LinkValue(CanonLink(x))) == ObjHead(|LinkFields(x)|) + FieldsOut(LinkFields(x))
  {
    hide Encodable, MetaOK, FieldsOut, EncFields, ShortText, LinkOK, LinkFields, Canon, ObjHead;
    if x.m.Some? {
      MetaAmong(x);
      CanonEncodable(x.m.value);
    }
    CanonLinkOK(x, nodeType);
    LinkEncodable(CanonLink(x), nodeType);
    FieldsOutEncoded(LinkFields(x));
    CanonLinkFields(x);
  }

  ghost predicate MetasOK(l: seq<Link>) {
    forall x :: x in l && x.m.Some? ==> Encodable(x.m.value)
  }

  ghost predicate LinksEncodable(l: seq<Link>) {
    forall v :: v in LinkValues(CanonLinks(l)) ==> Encodable(v)
  }

  ghost function LinksOut(l: seq<Link>): Bytes
    requires LinksEncodable(l)
  {
    EncItems(LinkValues(CanonLinks(l)))
  }

  lemma NextLink(l: seq<Link>, i: nat)
    requires i < |l| && LinksEncodable(l[..i]) && Encodable(LinkValue(CanonLink(l[i])))
    ensures LinksEncodable(l[..i + 1])
    ensures LinksOut(l[..i + 1]) == LinksOut(l[..i]) + Enc(LinkValue(CanonLink(l[i])))
  {
    hide Encodable, LinkValue, CanonLink, Enc;
    var a, b := LinkValues(CanonLinks(l[..i])), [LinkValue(CanonLink(l[i]))];
    var c := LinkValues(CanonLinks(l[..i + 1]));
    assert c == a + b;
    EncItemsConcat(a, b);
    assert b[1..] == [];
    assert EncItems(b) == Enc(b[0]) + EncItems([]);
  }

  /** encodeManifest. */
  method Encode(node: Node) returns (out: Option<Bytes>)
    requires MetasPlain(node.l)
    ensures out == EncodeManifest(node)
  {
    hide Enc, Canon, Octets, ShortText, Write, StrBytes, Encodable, BE, LinkOK, Plain, NodeOK, LinkValue, CanonLink, LinksEncodable, LinksOut, NodeBytes, LinkValues, CanonLinks;
    if !NodeOK(node) {
      return None;
    }
    LinksOK(node);
    KeyTexts();
    var w := new Writer();
    w.U8(130);
    assert w.Bytes() == [130];
    var ok := WriteText(w, "l");
    ok := WriteHead(w, 144, 220, |node.l|);
    ghost var start := w.Bytes();
    NoLinks(node.l);
    for i := 0 to |node.l|
      invariant MetasOK(node.l[..i]) && LinksEncodable(node.l[..i])
      invariant w.Bytes() == start + LinksOut(node.l[..i])
    {
      assert node.l[i] in node.l;
      ok := WriteLink(w, node.l[i], node.t);
      if !ok {
        return None;
      }
      NextLink(node.l, i);
      assert node.l[..i + 1] == node.l[..i] + [node.l[i]];
    }
    ok := WriteText(w, "t");
    ok := WriteInteger(w, node.t);
    NodeWritten(node);
    var b := w.Bytes();
    if |b| > MAX_MANIFEST_BYTES {
      return None;
    }
    return Some(b);
  }

  lemma LinksOK(node: Node)
    requires NodeOK(node)
    ensures |node.l| < 0x1_0000 && 1 <= node.t <= 3 && forall x :: x in node.l ==> LinkOK(x, node.t)
  {}

  lemma NoLinks(l: seq<Link>)
    ensures MetasOK(l[..0]) && LinksEncodable(l[..0]) && LinksOut(l[..0]) == []
    ensures l[..|l|] == l
  {}

  lemma NodeWritten(node: Node)
    requires NodeOK(node) && MetasOK(node.l) && LinksEncodable(node.l)
    ensures MetasEncodable(node) && ShortText("l") && ShortText("t")
    ensures NodeBytes(node)
         == [130] + StrBytes("l") + (if |node.l| < 16 then [144 + |node.l|] else [220] + BE(|node.l|, 2))
            + LinksOut(node.l) + StrBytes("t") + IntBytes(node.t)
  {
    hide StrBytes, EncItems, BE, IntBytes, ShortText, LinkValues, CanonLinks, NodeOK, Encodable;
    KeyTexts();
    LinksOK(node);
    CanonNodeOK(node);
    NodeValueEncodable(CanonNode(node));
    var items := LinkValues(CanonLinks(node.l));
    var fields := NodeValue(CanonNode(node)).fields;
    assert fields == [Field("l", Arr(items)), Field("t", Int(node.t))];
    assert fields[1..] == [Field("t", Int(node.t))] && fields[1..][1..] == [];
    TwoFields(node);
  }

  lemma TwoFields(node: Node)
    requires NodeOK(CanonNode(node)) && MetasEncodable(CanonNode(node)) && Encodable(NodeValue(CanonNode(node)))
    requires LinksEncodable(node.l) && ShortText("l") && ShortText("t") && |node.l| < 0x1_0000 && Safe(node.t)
    ensures Enc(NodeValue(CanonNode(node)))
         == [130] + StrBytes("l") + (ArrHead(|node.l|) + LinksOut(node.l)) + StrBytes("t") + IntBytes(node.t)
  {
    hide StrBytes, EncItems, ArrHead, IntBytes, ShortText, LinkValues, CanonLinks, NodeOK;
    var items := LinkValues(CanonLinks(node.l));
    var l, t := Field("l", Arr(items)), Field("t", Int(node.t));
    assert [l, t][1..] == [t] && [t][1..] == [];
    assert EncFields([t]) == StrBytes("t") + IntBytes(node.t) + EncFields([]);
    assert EncFields([l, t]) == StrBytes("l") + Enc(Arr(items)) + EncFields([t]);
    assert Enc(NodeValue(CanonNode(node))) == ObjHead(2) + EncFields([l, t]);
  }

  /** decodeManifest. */
  method Decode(b: Bytes) returns (node: Option<Node>)
    ensures node == DecodeManifest(b)
  {
    hide Read, NodeOf, NodeOK, CountsOK;
    if |b| > MAX_MANIFEST_BYTES {
      return None;
    }
    var r := new Reader(b);
    var v := ReadValue(r, 0);
    if v == None || r.offset != |b| {
      return None;
    }
    assert r.Rest() == [];
    node := NodeOf(v.value);
    if node == None || !NodeOK(node.value) || !CountsOK(node.value) {
      return None;
    }
  }
}
