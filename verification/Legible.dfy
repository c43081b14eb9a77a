/** What a reader makes of a stored directory page: the entries with canonical
    metadata, without leading byte order marks. */
module Legible {
  import opened Prelude
  import opened Text
  import opened MsgPack
  import opened Canonical
  import opened Manifest
  import opened ManifestSize

  ghost function SeenLink(x: Link): Link { StripLink(CanonLink(x)) }

  ghost function Seen(l: seq<Link>): (r: seq<Link>)
    ensures |r| == |l| && forall i :: 0 <= i < |l| ==> r[i] == SeenLink(l[i])
  {
    StripLinks(CanonLinks(l))
  }

  /** The entry's name is read as written and its metadata can be read. */
  ghost predicate LinkLegible(x: Link) {
    && (x.n.Some? ==> !StartsWithBom(x.n.value))
    && (x.m.Some? ==> Fits(x.m.value, 3) && Unmerged(x.m.value))
  }

  lemma SeenSame(x: Link)
    requires x.n.Some? ==> !StartsWithBom(x.n.value)
    ensures SeenLink(x) == x.(m := SeenLink(x).m)
  {}

  lemma SeenConcat(a: seq<Link>, b: seq<Link>)
    ensures Seen(a + b) == Seen(a) + Seen(b)
  {
    hide SeenLink;
  }

  /** Entries that lose nothing are seen as they are, up to key order. */
  lemma SeenReadable(l: seq<Link>)
    requires forall x :: x in l ==> LinkReadable(x) && (x.m.Some? ==> Encodable(x.m.value))
    ensures Seen(l) == CanonLinks(l) && forall x :: x in l ==> LinkLegible(x)
  {
    hide Canon, Clean, Fits, StartsWithBom, Encodable, Unmerged, Strip, StripText;
    forall i | 0 <= i < |l| ensures SeenLink(l[i]) == CanonLink(l[i]) && LinkLegible(l[i]) {
      var x := l[i];
      assert x in l;
      if x.n.Some? { StripTextClean(x.n.value); }
      if x.m.Some? {
        CanonClean(x.m.value);
        StripClean(Canon(x.m.value));
        CleanApart(x.m.value);
      }
    }
    forall x | x in l ensures LinkLegible(x) {
      var i :| 0 <= i < |l| && l[i] == x;
    }
  }

  // ------------------------------------------------------------------
  // Metadata stays valid without its marks

  lemma {:induction false} StripUtf8(s: string)
    ensures |Utf8(StripText(s))| <= |Utf8(s)|
  {
    hide EncodeChar;
    if StartsWithBom(s) {
      assert Utf8(s) == EncodeChar(s[0]) + Utf8(s[1..]);
    }
  }

  lemma {:induction false} StripMeta(v: Value, depth: nat)
    requires MetaOK(v, depth)
    ensures MetaOK(Strip(v), depth)
    decreases v, 0
  {
    hide Utf8, StripText;
    var s := StripFields(v.fields);
    forall f | f in s ensures |Utf8(f.key)| <= 256 && ValueOK(f.val, depth) {
      var i :| 0 <= i < |s| && s[i] == f;
      StripFieldsAt(v.fields, i);
      assert v.fields[i] in v.fields;
      StripUtf8(v.fields[i].key);
      StripValue(v.fields[i].val, depth);
    }
  }

  lemma {:induction false} StripValue(v: Value, depth: nat)
    requires ValueOK(v, depth)
    ensures ValueOK(Strip(v), depth)
    decreases v, 1
  {
    hide Finite, StripText, MetaOK;
    if v.Arr? {
      var s := StripItems(v.items);
      forall x | x in s ensures depth + 1 <= MAX_DEPTH && ValueOK(x, depth + 1) {
        var i :| 0 <= i < |s| && s[i] == x;
        StripItemsAt(v.items, i);
        assert v.items[i] in v.items;
        StripValue(v.items[i], depth + 1);
      }
    } else if v.Obj? {
      StripMeta(v, depth + 1);
    }
  }

  lemma SeenLinkOK(x: Link, nodeType: int)
    requires LinkOK(x, nodeType) && (x.n.Some? ==> !StartsWithBom(x.n.value)) && (x.m.Some? ==> Encodable(x.m.value))
    ensures LinkOK(SeenLink(x), nodeType)
  {
    hide MetaOK, Canon, NameOK, Encodable;
    SeenSame(x);
    if x.m.Some? {
      CanonMeta(x.m.value, 0);
      StripMeta(Canon(x.m.value), 0);
    }
  }

  // ------------------------------------------------------------------
  // Pages decode

  lemma LinkValueApart(x: Link)
    requires x.m.Some? ==> Unmerged(x.m.value)
    ensures Unmerged(LinkValue(x))
  {
    hide StripText, StartsWithBom;
    var f := LinkFields(x);
    LinkKeys(x);
    LinkKeysDistinct(x);
    PlainKeysApart(f);
    forall g | g in f ensures Unmerged(g.val) {
      assert g.val == Bin(x.h) || Some(g.val) == BinOption(x.k) || Some(g.val) == x.m || Some(g.val) == StrOption(x.n)
          || g.val == Int(x.s) || g.val == Int(x.t);
    }
  }

  lemma PlainKeysApart(fields: seq<Field>)
    requires DistinctKeys(fields) && forall f :: f in fields ==> f.key in {"h", "k", "l", "m", "n", "s", "t"}
    ensures KeysApart(fields)
  {
    hide StripText, StartsWithBom;
    forall f | f in fields ensures StripText(f.key) == f.key { PlainKeys(f.key); }
  }

  lemma NodeValueApart(node: Node)
    requires forall x :: x in node.l && x.m.Some? ==> Unmerged(x.m.value)
    ensures Unmerged(NodeValue(node))
  {
    hide LinkValue, StripText;
    var items := LinkValues(node.l);
    forall v | v in items ensures Unmerged(v) {
      var i :| 0 <= i < |items| && items[i] == v;
      assert node.l[i] in node.l;
      LinkValueApart(node.l[i]);
    }
    var fields := NodeValue(node).fields;
    PlainKeysApart(fields);
  }

  /** A stored page of legible entries decodes to what a reader sees of them. */
  lemma PageSeen(l: seq<Link>)
    requires EncodeManifest(Node(l, 2)).Some? && forall x :: x in l ==> LinkLegible(x)
    ensures DecodeManifest(EncodeManifest(Node(l, 2)).value) == Some(Node(Seen(l), 2))
    ensures NodeOK(Node(Seen(l), 2))
  {
    hide NodeOK, NodeValue, Fits, Unmerged, Encodable, Canon, SeenLink, DecodeManifest, NodeBytes, StartsWithBom;
    var node := Node(l, 2);
    PageCanon(l);
    NodeValueReadable(CanonNode(node));
    NodeValueApart(CanonNode(node));
    SeenNodeOK(l);
    DecodeStripped(node);
  }

  lemma PageCanon(l: seq<Link>)
    requires MetasEncodable(Node(l, 2)) && forall x :: x in l ==> LinkLegible(x)
    ensures forall x :: x in CanonLinks(l) ==> LinkFits(x) && (x.m.Some? ==> Unmerged(x.m.value))
  {
    hide Fits, Unmerged, Encodable, Canon, StartsWithBom;
    var c := CanonLinks(l);
    forall x | x in c ensures LinkFits(x) && (x.m.Some? ==> Unmerged(x.m.value)) {
      var i :| 0 <= i < |c| && c[i] == x;
      assert l[i] in l;
      if x.m.Some? {
        CanonFits(l[i].m.value, 3);
        CanonApart(l[i].m.value);
      }
    }
  }

  lemma SeenNodeOK(l: seq<Link>)
    requires NodeOK(Node(l, 2)) && MetasEncodable(Node(l, 2)) && forall x :: x in l ==> LinkLegible(x)
    ensures NodeOK(Node(Seen(l), 2))
  {
    hide LinkOK, Encodable, SeenLink, Before, Fits, Unmerged, StartsWithBom;
    var r := Seen(l);
    forall i | 0 <= i < |l| ensures LinkOK(r[i], 2) && r[i].n == l[i].n && l[i].n.Some? {
      assert l[i] in l;
      SeenLinkOK(l[i], 2);
      SeenSame(l[i]);
      NameByType(l[i], 2);
    }
  }

  // ------------------------------------------------------------------
  // Depth

  /** An empty value inside k arrays. */
  function Nest(k: nat): Value { if k == 0 then Null else Arr([Nest(k - 1)]) }

  lemma {:induction false} NestFits(k: nat, depth: nat)
    ensures Fits(Nest(k), depth) <==> depth + k <= MAX_DEPTH
  {
    if k > 0 {
      NestFits(k - 1, depth + 1);
      assert Nest(k - 1) in Nest(k).items;
    }
  }

  lemma {:induction false} NestPlain(k: nat, depth: nat)
    ensures Canon(Nest(k)) == Nest(k) && Clean(Nest(k)) && Encodable(Nest(k)) && |Enc(Nest(k))| <= k + 1
    ensures depth + k <= MAX_DEPTH ==> ValueOK(Nest(k), depth)
  {
    if k > 0 {
      NestPlain(k - 1, depth + 1);
      var items := Nest(k).items;
      assert items[1..] == [];
      assert CanonItems(items) == [Canon(items[0])] + CanonItems([]);
      assert EncItems(items) == Enc(items[0]) + EncItems([]);
    }
  }

  function DeepNode(h: Bytes, k: nat): Node {
    Node([Link(h, None, Some(Obj([Field("x", Nest(k))])), None, 0, 0)], 1)
  }

  lemma DeepMeta(k: nat)
    requires k <= 64
    ensures var v := Obj([Field("x", Nest(k))]);
      && MetaOK(v, 0) && Encodable(v) && Canon(v) == v && |Write(v)| <= 100 && Clean(v)
      && (Fits(v, 3) <==> k <= 60)
  {
    hide Nest, Utf8, Sort;
    var f := Field("x", Nest(k));
    NestPlain(k, 0);
    NestFits(k, 4);
    Utf8Length("x");
    assert [f][1..] == [];
    CanonOne(f);
    KeyLength("x");
    assert EncFields([f]) == StrBytes("x") + Enc(f.val) + EncFields([]);
  }

  /** Metadata of 61 to 64 nested arrays is valid and is written, but the reader
      refuses it; up to 60 it reads back. */
  lemma DeepMetadata(h: Bytes, k: nat)
    requires |h| == 32 && k <= 64
    ensures var node := DeepNode(h, k);
      EncodeManifest(node).Some? && DecodeManifest(EncodeManifest(node).value) == if k <= 60 then Some(node) else None
  {
    hide Nest, MetaOK, Encodable, Canon, Clean, Fits, DecodeManifest, NodeBytes, Write;
    var node := DeepNode(h, k);
    DeepMeta(k);
    SmallNodeEncodes(node, 100);
    assert CanonLinks(node.l) == node.l;
    assert CanonNode(node) == node;
    NodeValueReadable(node);
    DecodeStripped(node);
    ManifestRoundTrip(node);
    assert node.l[0] in node.l;
  }
}
