/** How long an encoded manifest can be. Manifests whose metadata is small
    always fit the 16 MiB limit, so encoding them cannot fail. */
module ManifestSize {
  import opened Prelude
  import opened Text
  import opened MsgPack
  import opened Canonical
  import opened Manifest
  import opened ManifestIO
  import opened MsgPackIO
  import Digits

  /** Metadata of up to this many bytes a link fits the largest manifest. */
  const META_BYTES: nat := 90000

  lemma IntLength(n: int)
    requires Safe(n)
    ensures |IntBytes(n)| <= 9
  {}

  lemma TextLength(s: string)
    requires ShortText(s)
    ensures |StrBytes(s)| <= |Utf8(s)| + 3
  {}

  lemma KeyLength(key: string)
    requires |key| == 1
    ensures ShortText(key) && |StrBytes(key)| <= 7
  {
    Utf8Length(key);
    TextLength(key);
  }

  lemma {:induction false} FieldsLength(fields: seq<Field>, b: nat)
    requires forall f :: f in fields ==> ShortText(f.key) && Encodable(f.val)
    requires forall f :: f in fields ==> |StrBytes(f.key)| + |Enc(f.val)| <= b
    ensures |EncFields(fields)| <= |fields| * b
  {
    hide Enc, Encodable, StrBytes, ShortText;
    if fields != [] {
      FieldsLength(fields[1..], b);
      Digits.Distribute(1, |fields| - 1, b);
    }
  }

  lemma {:induction false} ItemsLength(items: seq<Value>, b: nat)
    requires forall x :: x in items ==> Encodable(x) && |Enc(x)| <= b
    ensures |EncItems(items)| <= |items| * b
  {
    hide Enc, Encodable;
    if items != [] {
      ItemsLength(items[1..], b);
      Digits.Distribute(1, |items| - 1, b);
    }
  }

  lemma OneFieldLength(key: string, v: Option<Value>, b: nat)
    requires |key| == 1 && (v.Some? ==> Encodable(v.value) && |Enc(v.value)| <= b)
    ensures forall f :: f in Optional(key, v) ==> ShortText(f.key) && Encodable(f.val)
    ensures |EncFields(Optional(key, v))| <= 7 + b
  {
    hide Enc, Encodable, StrBytes, ShortText;
    KeyLength(key);
    if v.Some? {
      var f := Field(key, v.value);
      assert [f][1..] == [];
      assert EncFields([f]) == StrBytes(key) + Enc(v.value) + EncFields([]);
    }
  }

  /** A link's encoding, when its metadata takes at most m bytes. */
  lemma LinkLength(x: Link, nodeType: int, m: nat)
    requires LinkOK(x, nodeType) && 1 <= nodeType <= 3
    requires x.m.Some? ==> Encodable(x.m.value) && |Enc(x.m.value)| <= m
    ensures Encodable(LinkValue(x)) && |Enc(LinkValue(x))| <= 1160 + m
  {
    hide LinkOK, Encodable, EncFields, StrBytes, ShortText, LinkFields;
    LinkEncodable(x, nodeType);
    LinkKeysDistinct(x);
    LinkFieldsLength(x, nodeType, m);
  }

  lemma LinkFieldsLength(x: Link, nodeType: int, m: nat)
    requires LinkOK(x, nodeType) && 1 <= nodeType <= 3
    requires x.m.Some? ==> Encodable(x.m.value) && |Enc(x.m.value)| <= m
    ensures forall f :: f in LinkFields(x) ==> ShortText(f.key) && Encodable(f.val)
    ensures |EncFields(LinkFields(x))| <= 1155 + m
  {
    hide EncFields, Optional, Encodable, ShortText, LinkFields, Enc, LinkOK;
    var h, k, n := Some(Bin(x.h)), BinOption(x.k), StrOption(x.n);
    var s, t := Some(Int(x.s)), Some(Int(x.t));
    PartLengths(x, nodeType);
    OneFieldLength("h", h, 34);
    OneFieldLength("k", k, 34);
    OneFieldLength("m", x.m, m);
    OneFieldLength("n", n, 1027);
    OneFieldLength("s", s, 9);
    OneFieldLength("t", t, 9);
    var a := Optional("h", h) + Optional("k", k);
    var b := a + Optional("m", x.m);
    var c := b + Optional("n", n);
    var d := c + Optional("s", s);
    LinkFieldsParts(x);
    EncFieldsConcat(d, Optional("t", t));
    EncFieldsConcat(c, Optional("s", s));
    EncFieldsConcat(b, Optional("n", n));
    EncFieldsConcat(a, Optional("m", x.m));
    EncFieldsConcat(Optional("h", h), Optional("k", k));
  }

  lemma PartLengths(x: Link, nodeType: int)
    requires LinkOK(x, nodeType) && 1 <= nodeType <= 3
    ensures Encodable(Bin(x.h)) && |Enc(Bin(x.h))| <= 34
    ensures x.k.Some? ==> Encodable(Bin(x.k.value)) && |Enc(Bin(x.k.value))| <= 34
    ensures x.n.Some? ==> Encodable(Str(x.n.value)) && |Enc(Str(x.n.value))| <= 1027
    ensures Encodable(Int(x.s)) && |Enc(Int(x.s))| <= 9
    ensures Encodable(Int(x.t)) && |Enc(Int(x.t))| <= 9
  {
    hide MetaOK, Utf8, IntBytes, StrBytes;
    IntLength(x.s);
    IntLength(x.t);
    if x.n.Some? { TextLength(x.n.value); }
  }

  ghost predicate MetasSmall(node: Node, m: nat) {
    forall x :: x in node.l && x.m.Some? ==> Encodable(x.m.value) && |Write(x.m.value)| <= m
  }

  /** Valid nodes with small metadata always have an encoding. */
  lemma SmallNodeEncodes(node: Node, m: nat)
    requires NodeOK(node) && MetasSmall(node, m) && m <= META_BYTES
    ensures MetasEncodable(node) && EncodeManifest(node) == Some(NodeBytes(node))
    ensures |NodeBytes(node)| <= 40 + |node.l| * (1160 + m)
  {
    hide NodeOK, Encodable, LinkOK, LinkValue, EncItems, Canon, CanonLink;
    assert MetasEncodable(node);
    CanonNodeOK(node);
    var c := CanonNode(node);
    var items := LinkValues(c.l);
    NodeValueEncodable(c);
    AtMost(node);
    AtMost(c);
    forall v | v in items ensures Encodable(v) && |Enc(v)| <= 1160 + m {
      var i :| 0 <= i < |items| && items[i] == v;
      assert c.l[i] in c.l && node.l[i] in node.l;
      CanonLinkMeta(node.l[i]);
      LinkLength(c.l[i], c.t, m);
    }
    ItemsLength(items, 1160 + m);
    Digits.MulMono(|items|, 174, 1160 + m);
    NodeLength(c);
  }

  lemma AtMost(node: Node)
    requires NodeOK(node)
    ensures |node.l| <= 174 && 1 <= node.t <= 3 && forall x :: x in node.l ==> LinkOK(x, node.t)
  {}

  lemma CanonLinkMeta(x: Link)
    requires x.m.Some? ==> Encodable(x.m.value)
    ensures x.m.Some? ==> CanonLink(x).m.Some? && Encodable(CanonLink(x).m.value) && Enc(CanonLink(x).m.value) == Write(x.m.value)
    ensures CanonLink(x).m.Some? ==> x.m.Some?
  {
    hide Encodable, Enc;
    if x.m.Some? { CanonEncodable(x.m.value); }
  }

  lemma NodeLength(node: Node)
    requires Encodable(NodeValue(node)) && |node.l| <= 174 && Safe(node.t)
    ensures forall v :: v in LinkValues(node.l) ==> Encodable(v)
    ensures |Enc(NodeValue(node))| <= 40 + |EncItems(LinkValues(node.l))|
  {
    hide EncItems, StrBytes, IntBytes, LinkValues, EncFields;
    var items := LinkValues(node.l);
    var l, t := Field("l", Arr(items)), Field("t", Int(node.t));
    assert NodeValue(node).fields == [l, t];
    assert l in [l, t] && t in [l, t];
    IntLength(node.t);
    TwoFieldsLength(l, t, 4 + |EncItems(items)|, 9);
  }

  lemma TwoFieldsLength(x: Field, y: Field, a: nat, b: nat)
    requires |x.key| == 1 && |y.key| == 1 && Encodable(x.val) && Encodable(y.val) && |Enc(x.val)| <= a && |Enc(y.val)| <= b
    ensures forall f :: f in [x, y] ==> ShortText(f.key) && Encodable(f.val)
    ensures |EncFields([x, y])| <= 14 + a + b
  {
    hide Enc, Encodable, StrBytes, ShortText;
    KeyLength(x.key);
    KeyLength(y.key);
    assert [x, y][1..] == [y] && [y][1..] == [];
    assert EncFields([y]) == StrBytes(y.key) + Enc(y.val) + EncFields([]);
    assert EncFields([x, y]) == StrBytes(x.key) + Enc(x.val) + EncFields([y]);
  }
}
