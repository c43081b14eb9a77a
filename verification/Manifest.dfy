/** BUD-16 and BUD-17 manifests of tinyclient/blossom-manifests.js: nodes and
    links, what validateNode accepts, and the manifest codec. */
module Manifest {
  import opened Prelude
  import opened Text
  import opened MsgPack
  import opened Canonical

  const MAX_LINKS: nat := 174
  const MAX_MANIFEST_BYTES: nat := 16 * 1024 * 1024
  const MAX_COUNT: int := 1_000_000_000

  /** t is 0 for a chunk, 1 for a file, 2 for a directory, 3 for a fanout. */
  datatype Link = Link(h: Bytes, k: Option<Bytes>, m: Option<Value>, n: Option<string>, s: int, t: int)

  datatype Node = Node(l: seq<Link>, t: int)

  // ------------------------------------------------------------------
  // Validation

  predicate NameOK(n: string) {
    && |n| > 0 && n != "." && n != ".."
    && '/' !in n && '\0' !in n && |Utf8(n)| <= 1024
  }

  /** A name of one to 1024 bytes that is not a dot entry, without slashes and
      zero characters. */
  predicate Usable(n: string) {
    1 <= |Utf8(n)| <= 1024 && n !in {".", ".."} && forall i :: 0 <= i < |n| ==> n[i] != '/' && n[i] as int != 0
  }

  lemma NameExact(n: string)
    ensures NameOK(n) <==> Usable(n)
  {
    Utf8Length(n);
    if n == "" { assert Utf8(n) == []; }
    if NameOK(n) {
      forall i | 0 <= i < |n| ensures n[i] != '/' && n[i] as int != 0 { assert n[i] in n; }
    }
  }

  predicate IntOK(n: int) { 0 <= n <= MAX_SAFE }

  /** A value inside metadata at this depth. */
  predicate ValueOK(v: Value, depth: nat)
    decreases v, 1
  {
    match v
    case Float(bits) => Finite(bits)
    case Bin(_) => false
    case Arr(items) => |items| <= 256 && forall x :: x in items ==> depth + 1 <= MAX_DEPTH && ValueOK(x, depth + 1)
    case Obj(_) => MetaOK(v, depth + 1)
    case _ => true
  }

  predicate MetaOK(v: Value, depth: nat)
    decreases v, 0
  {
    && v.Obj? && depth <= MAX_DEPTH && |v.fields| <= 64
    && forall f :: f in v.fields ==> |Utf8(f.key)| <= 256 && ValueOK(f.val, depth)
  }

  function Get(fields: seq<Field>, key: string): Option<Value> {
    if fields == [] then None
    else if fields[0].key == key then Some(fields[0].val)
    else Get(fields[1..], key)
  }

  predicate LinkOK(x: Link, nodeType: int) {
    && |x.h| == 32
    && (x.k.Some? ==> |x.k.value| == 32)
    && (x.m.Some? ==> MetaOK(x.m.value, 0))
    && IntOK(x.s) && 0 <= x.t <= 3
    && (nodeType == 1 ==> x.t <= 1 && x.n == None)
    && (nodeType == 3 ==> x.t >= 2 && x.n == None)
    && (nodeType == 2 ==> x.n.Some? && NameOK(x.n.value))
  }

  /** What a fanout link says about the directory below it. */
  datatype Bounds = Bounds(count: int, first: string, last: string)

  function BoundsOf(m: Option<Value>): Option<Bounds> {
    if m.None? || !m.value.Obj? then None
    else
      match (Get(m.value.fields, "count"), Get(m.value.fields, "first"), Get(m.value.fields, "last"))
      case (Some(Int(c)), Some(Str(f)), Some(Str(l))) => Some(Bounds(c, f, l))
      case _ => None
  }

  predicate BoundsOK(b: Bounds) {
    IntOK(b.count) && b.count >= 1 && NameOK(b.first) && NameOK(b.last) && Compare(b.first, b.last) <= 0
  }

  predicate FanoutOK(x: Link) {
    var b := BoundsOf(x.m);
    b.Some? && BoundsOK(b.value)
  }

  predicate NodeOK(node: Node) {
    && 1 <= node.t <= 3 && |node.l| <= MAX_LINKS
    && (forall x :: x in node.l ==> LinkOK(x, node.t))
    && (node.t == 2 ==> NamesSorted(node.l))
    && (node.t == 3 ==> forall x :: x in node.l ==> FanoutOK(x))
  }

  predicate NamesSorted(l: seq<Link>) {
    && (forall x :: x in l ==> x.n.Some?)
    && forall i :: 0 < i < |l| ==> Before(l[i - 1].n.value, l[i].n.value)
  }

  // ------------------------------------------------------------------
  // Manifests as MessagePack values

  function Optional(key: string, v: Option<Value>): seq<Field> {
    if v.Some? then [Field(key, v.value)] else []
  }

  function BinOption(b: Option<Bytes>): Option<Value> { if b.Some? then Some(Bin(b.value)) else None }

  function StrOption(s: Option<string>): Option<Value> { if s.Some? then Some(Str(s.value)) else None }

  function LinkFields(x: Link): seq<Field> {
    [Field("h", Bin(x.h))] + Optional("k", BinOption(x.k)) + Optional("m", x.m) + Optional("n", StrOption(x.n))
    + [Field("s", Int(x.s)), Field("t", Int(x.t))]
  }

  function LinkValue(x: Link): Value { Obj(LinkFields(x)) }

  function LinkValues(l: seq<Link>): (r: seq<Value>)
    ensures |r| == |l| && forall i :: 0 <= i < |l| ==> r[i] == LinkValue(l[i])
  {
    seq(|l|, i requires 0 <= i < |l| => LinkValue(l[i]))
  }

  function NodeValue(node: Node): Value {
    Obj([Field("l", Arr(LinkValues(node.l))), Field("t", Int(node.t))])
  }

  predicate KeysIn(fields: seq<Field>, keys: set<string>) {
    forall f :: f in fields ==> f.key in keys
  }

  /** The link an object stands for, if it has the right fields. */
  function LinkOf(v: Value): Option<Link> {
    if !v.Obj? || !KeysIn(v.fields, {"h", "k", "m", "n", "s", "t"}) then None
    else
      var h, k, m, n := Get(v.fields, "h"), Get(v.fields, "k"), Get(v.fields, "m"), Get(v.fields, "n");
      var s, t := Get(v.fields, "s"), Get(v.fields, "t");
      if h.Some? && h.value.Bin? && (k.Some? ==> k.value.Bin?) && (n.Some? ==> n.value.Str?)
         && s.Some? && s.value.Int? && t.Some? && t.value.Int? then
        Some(Link(h.value.data, if k.Some? then Some(k.value.data) else None, m,
                  if n.Some? then Some(n.value.s) else None, s.value.n, t.value.n))
      else None
  }

  function LinksOf(items: seq<Value>): (r: Option<seq<Link>>)
    ensures r.Some? ==> |r.value| == |items| && forall i :: 0 <= i < |items| ==> LinkOf(items[i]) == Some(r.value[i])
    ensures r.None? ==> exists i :: 0 <= i < |items| && LinkOf(items[i]) == None
  {
    if items == [] then Some([])
    else
      match (LinkOf(items[0]), LinksOf(items[1..]))
      case (Some(x), Some(rest)) => Some([x] + rest)
      case (None, _) => assert LinkOf(items[0]) == None; None
      case (_, None) =>
        var i :| 0 <= i < |items[1..]| && LinkOf(items[1..][i]) == None;
        assert LinkOf(items[i + 1]) == None;
        None
  }

  function NodeOf(v: Value): Option<Node> {
    if !v.Obj? || !KeysIn(v.fields, {"l", "t"}) then None
    else
      match (Get(v.fields, "l"), Get(v.fields, "t"))
      case (Some(Arr(items)), Some(Int(t))) =>
        (match LinksOf(items)
         case Some(l) => Some(Node(l, t))
         case None => None)
      case _ => None
  }

  lemma LinkOfValue(x: Link)
    ensures LinkOf(LinkValue(x)) == Some(x)
  {
    hide Get, Optional;
    var f := LinkFields(x);
    var tail := [Field("s", Int(x.s)), Field("t", Int(x.t))];
    var nTail := Optional("n", StrOption(x.n)) + tail;
    var mTail := Optional("m", x.m) + nTail;
    var kTail := Optional("k", BinOption(x.k)) + mTail;
    assert f == [Field("h", Bin(x.h))] + kTail;
    GetFirst(Field("h", Bin(x.h)), kTail);
    GetOptional("k", BinOption(x.k), mTail);
    GetOptional("m", x.m, nTail);
    GetOptional("n", StrOption(x.n), tail);
    assert tail == [Field("s", Int(x.s))] + [Field("t", Int(x.t))];
    GetFirst(Field("s", Int(x.s)), [Field("t", Int(x.t))]);
    assert [Field("t", Int(x.t))] == [Field("t", Int(x.t))] + [];
    GetFirst(Field("t", Int(x.t)), []);
    LinkKeys(x);
  }

  lemma LinkKeys(x: Link)
    ensures KeysIn(LinkFields(x), {"h", "k", "m", "n", "s", "t"})
  {}

  lemma GetFirst(f: Field, rest: seq<Field>)
    ensures Get([f] + rest, f.key) == Some(f.val)
    ensures forall other :: other != f.key ==> Get([f] + rest, other) == Get(rest, other)
    ensures forall other :: Get([], other) == None
  {
    assert ([f] + rest)[1..] == rest;
  }

  lemma GetOptional(key: string, v: Option<Value>, rest: seq<Field>)
    ensures Get(Optional(key, v) + rest, key) == if v.Some? then v else Get(rest, key)
    ensures forall other :: other != key ==> Get(Optional(key, v) + rest, other) == Get(rest, other)
  {
    if v.Some? {
      assert (Optional(key, v) + rest)[1..] == rest;
    } else {
      assert Optional(key, v) + rest == rest;
    }
  }

  lemma NodeOfValue(node: Node)
    ensures NodeOf(NodeValue(node)) == Some(node)
  {
    hide LinkOf, LinkValue, Get;
    var items := LinkValues(node.l);
    var fields := NodeValue(node).fields;
    var l, t := Field("l", Arr(items)), Field("t", Int(node.t));
    assert fields == [l] + [t] && [t] == [t] + [];
    GetFirst(l, [t]);
    GetFirst(t, []);
    forall i | 0 <= i < |items| ensures LinkOf(items[i]) == Some(node.l[i]) {
      LinkOfValue(node.l[i]);
    }
    assert LinksOf(items).Some? && LinksOf(items).value == node.l;
    assert KeysIn(fields, {"l", "t"});
  }

  // ------------------------------------------------------------------
  // The codec

  function CanonLink(x: Link): Link {
    if x.m.Some? then x.(m := Some(Canon(x.m.value))) else x
  }

  function CanonLinks(l: seq<Link>): (r: seq<Link>)
    ensures |r| == |l| && forall i :: 0 <= i < |l| ==> r[i] == CanonLink(l[i])
  {
    seq(|l|, i requires 0 <= i < |l| => CanonLink(l[i]))
  }

  /** The node with every metadata object's keys in canonical order. */
  function CanonNode(node: Node): Node { Node(CanonLinks(node.l), node.t) }

  ghost predicate MetasEncodable(node: Node) {
    forall x :: x in node.l && x.m.Some? ==> Encodable(x.m.value)
  }

  lemma LinkEncodable(x: Link, nodeType: int)
    requires LinkOK(x, nodeType) && (x.m.Some? ==> Encodable(x.m.value)) && 1 <= nodeType <= 3
    ensures Encodable(LinkValue(x))
  {
    hide MetaOK;
    var f := LinkFields(x);
    KeyTexts();
    LinkKeysDistinct(x);
    forall g | g in f ensures ShortText(g.key) && Encodable(g.val) {
      hide ShortText, Utf8;
      FieldEncodable(x, nodeType, g);
    }
  }

  lemma FieldEncodable(x: Link, nodeType: int, g: Field)
    requires LinkOK(x, nodeType) && (x.m.Some? ==> Encodable(x.m.value)) && 1 <= nodeType <= 3
    requires g in LinkFields(x)
    ensures ShortText(g.key) && Encodable(g.val)
  {
    hide MetaOK, Utf8;
    KeyTexts();
    LinkKeys(x);
    assert g.val == Bin(x.h) || Some(g.val) == BinOption(x.k) || Some(g.val) == x.m || Some(g.val) == StrOption(x.n)
        || g.val == Int(x.s) || g.val == Int(x.t);
  }

  lemma KeyTexts()
    ensures ShortText("h") && ShortText("k") && ShortText("l") && ShortText("m") && ShortText("n")
    ensures ShortText("s") && ShortText("t")
  {
    Utf8Length("h");
    Utf8Length("k");
    Utf8Length("l");
    Utf8Length("m");
    Utf8Length("n");
    Utf8Length("s");
    Utf8Length("t");
  }

  lemma LinkKeysDistinct(x: Link)
    ensures DistinctKeys(LinkFields(x)) && |LinkFields(x)| <= 6
  {}

  lemma CanonLinkOK(x: Link, nodeType: int)
    requires x.m.Some? ==> Encodable(x.m.value)
    ensures LinkOK(CanonLink(x), nodeType) <==> LinkOK(x, nodeType)
    ensures FanoutOK(CanonLink(x)) <==> FanoutOK(x)
    ensures BoundsOf(CanonLink(x).m) == BoundsOf(x.m)
  {
    hide MetaOK, Canon, NameOK;
    if x.m.Some? {
      CanonMeta(x.m.value, 0);
      CanonBounds(x.m.value);
    }
  }

  lemma {:induction false} CanonMeta(v: Value, depth: nat)
    ensures MetaOK(Canon(v), depth) <==> MetaOK(v, depth)
    decreases v, 0
  {
    hide Utf8;
    if v.Obj? {
      var sorted := Sort(CanonFields(v.fields));
      forall x | x in sorted && MetaOK(v, depth) ensures |Utf8(x.key)| <= 256 && ValueOK(x.val, depth) {
        var f := CanonFieldMember(v.fields, x);
        CanonValueOK(f.val, depth);
      }
      forall f | f in v.fields && MetaOK(Canon(v), depth) ensures |Utf8(f.key)| <= 256 && ValueOK(f.val, depth) {
        CanonFieldKept(v.fields, f);
        CanonValueOK(f.val, depth);
      }
    }
  }

  lemma {:induction false} CanonValueOK(v: Value, depth: nat)
    ensures ValueOK(Canon(v), depth) <==> ValueOK(v, depth)
    decreases v, 2
  {
    hide Finite;
    if v.Arr? {
      hide ValueOK, Canon;
      CanonItemsOK(v, depth);
    } else if v.Obj? {
      hide MetaOK, Sort;
      CanonMeta(v, depth + 1);
    }
  }

  lemma {:induction false} CanonItemsOK(v: Value, depth: nat)
    requires v.Arr?
    ensures ValueOK(Canon(v), depth) <==> ValueOK(v, depth)
    decreases v, 1
  {
    hide MetaOK;
    var c := CanonItems(v.items);
    if ValueOK(v, depth) {
      forall x | x in c ensures depth + 1 <= MAX_DEPTH && ValueOK(x, depth + 1) {
        var i :| 0 <= i < |c| && c[i] == x;
        CanonItemsAt(v.items, i);
        assert v.items[i] in v.items;
        CanonValueOK(v.items[i], depth + 1);
      }
    }
    if ValueOK(Arr(c), depth) {
      forall x | x in v.items ensures depth + 1 <= MAX_DEPTH && ValueOK(x, depth + 1) {
        var i :| 0 <= i < |c| && v.items[i] == x;
        CanonItemsAt(v.items, i);
        assert c[i] in c;
        CanonValueOK(x, depth + 1);
      }
    }
  }

  lemma {:induction false} GetMember(fields: seq<Field>, key: string, v: Value)
    requires DistinctKeys(fields)
    ensures Get(fields, key) == Some(v) <==> Field(key, v) in fields
  {
    if fields != [] {
      var f, more := fields[0], fields[1..];
      assert fields == [f] + more;
      assert DistinctKeys(more);
      GetMember(more, key, v);
      assert f.key == key ==> forall g :: g in more ==> g.key != key;
    }
  }

  lemma CanonGet(fields: seq<Field>, key: string, v: Value)
    requires DistinctKeys(fields) && (v.Int? || v.Str?)
    ensures Get(Sort(CanonFields(fields)), key) == Some(v) <==> Get(fields, key) == Some(v)
  {
    hide Get, Sort;
    CanonKeysDistinct(fields);
    GetMember(fields, key, v);
    GetMember(Sort(CanonFields(fields)), key, v);
    if Field(key, v) in fields {
      CanonFieldKept(fields, Field(key, v));
    }
    if Field(key, v) in Sort(CanonFields(fields)) {
      var f := CanonFieldMember(fields, Field(key, v));
    }
  }

  lemma CanonBounds(v: Value)
    requires Encodable(v)
    ensures BoundsOf(Some(Canon(v))) == BoundsOf(Some(v))
  {
    hide Get, Sort, Encodable;
    if v.Obj? {
      assert DistinctKeys(v.fields) by { ObjDistinct(v); }
      var f, c := v.fields, Sort(CanonFields(v.fields));
      forall key: string, x: Value | x.Int? || x.Str? ensures Get(c, key) == Some(x) <==> Get(f, key) == Some(x) {
        CanonGet(f, key, x);
      }
    }
  }

  lemma ObjDistinct(v: Value)
    requires Encodable(v) && v.Obj?
    ensures DistinctKeys(v.fields)
  {}

  lemma NodeValueEncodable(node: Node)
    requires NodeOK(node) && MetasEncodable(node)
    ensures Encodable(NodeValue(node))
  {
    hide LinkOK, LinkValue, ShortText;
    KeyTexts();
    forall v | v in LinkValues(node.l) ensures Encodable(v) {
      var i :| 0 <= i < |node.l| && LinkValue(node.l[i]) == v;
      assert node.l[i] in node.l;
      LinkEncodable(node.l[i], node.t);
    }
  }

  lemma CanonNodeOK(node: Node)
    requires NodeOK(node) && MetasEncodable(node)
    ensures NodeOK(CanonNode(node)) && MetasEncodable(CanonNode(node))
  {
    hide LinkOK, FanoutOK, Encodable, Canon, Before;
    forall x | x in CanonLinks(node.l)
      ensures LinkOK(x, node.t) && x.n.Some? == (node.t == 2) && (node.t == 3 ==> FanoutOK(x))
      ensures x.m.Some? ==> Encodable(x.m.value)
    {
      var i :| 0 <= i < |node.l| && CanonLink(node.l[i]) == x;
      assert node.l[i] in node.l;
      CanonLinkOK(node.l[i], node.t);
      NameByType(node.l[i], node.t);
      if x.m.Some? { CanonEncodable(node.l[i].m.value); }
    }
  }

  lemma NameByType(x: Link, nodeType: int)
    requires LinkOK(x, nodeType) && 1 <= nodeType <= 3
    ensures x.n.Some? == (nodeType == 2)
  {}

  ghost function NodeBytes(node: Node): Bytes
    requires NodeOK(node) && MetasEncodable(node)
  {
    CanonNodeOK(node);
    NodeValueEncodable(CanonNode(node));
    Enc(NodeValue(CanonNode(node)))
  }

  /** encodeManifest: fails on an invalid node, on metadata the writer has no
      form for, and on a manifest over 16 MiB. */
  ghost function EncodeManifest(node: Node): Option<Bytes> {
    if NodeOK(node) && MetasEncodable(node) && |NodeBytes(node)| <= MAX_MANIFEST_BYTES then Some(NodeBytes(node)) else None
  }

  predicate CountsOK(node: Node) {
    node.t == 3 ==> forall x :: x in node.l ==> BoundsOf(x.m).Some? && BoundsOf(x.m).value.count <= MAX_COUNT
  }

  /** decodeManifest with its default count limit. */
  ghost function DecodeManifest(b: Bytes): Option<Node> {
    if |b| > MAX_MANIFEST_BYTES then None
    else
      match Read(b, 0)
      case None => None
      case Some(Parsed(v, rest)) =>
        if rest != [] then None
        else
          match NodeOf(v)
          case None => None
          case Some(node) => if NodeOK(node) && CountsOK(node) then Some(node) else None
  }

  // ------------------------------------------------------------------
  // Reading a manifest back

  ghost function StripLink(x: Link): Link {
    x.(m := if x.m.Some? then Some(Strip(x.m.value)) else None,
       n := if x.n.Some? then Some(StripText(x.n.value)) else None)
  }

  ghost function StripLinks(l: seq<Link>): (r: seq<Link>)
    ensures |r| == |l| && forall i :: 0 <= i < |l| ==> r[i] == StripLink(l[i])
  {
    seq(|l|, i requires 0 <= i < |l| => StripLink(l[i]))
  }

  lemma {:induction false} StripFieldsAt(fields: seq<Field>, i: nat)
    requires i < |fields|
    ensures StripFields(fields)[i] == Field(StripText(fields[i].key), Strip(fields[i].val))
  {
    hide StripText, Strip;
    if i > 0 {
      StripFieldsAt(fields[1..], i - 1);
    }
  }

  lemma {:induction false} StripItemsAt(items: seq<Value>, i: nat)
    requires i < |items|
    ensures StripItems(items)[i] == Strip(items[i])
  {
    hide Strip;
    if i > 0 {
      StripItemsAt(items[1..], i - 1);
    }
  }

  lemma PlainKeys(key: string)
    requires key in {"h", "k", "l", "m", "n", "s", "t"}
    ensures StripText(key) == key && !StartsWithBom(key)
  {}

  lemma {:induction false} StripConcat(a: seq<Field>, b: seq<Field>)
    ensures StripFields(a + b) == StripFields(a) + StripFields(b)
  {
    hide StripText, Strip;
    if a == [] {
      assert a + b == b;
    } else {
      StripConcat(a[1..], b);
      assert (a + b)[1..] == a[1..] + b && (a + b)[0] == a[0];
      Associative([Field(StripText(a[0].key), Strip(a[0].val))], StripFields(a[1..]), StripFields(b));
    }
  }

  lemma StripOne(f: Field)
    requires f.key in {"h", "k", "l", "m", "n", "s", "t"}
    ensures StripFields([f]) == [Field(f.key, Strip(f.val))]
  {
    hide StripText, Strip;
    PlainKeys(f.key);
    assert [f][1..] == [];
  }

  lemma StripOptional(key: string, v: Option<Value>)
    requires key in {"h", "k", "l", "m", "n", "s", "t"}
    ensures StripFields(Optional(key, v)) == Optional(key, if v.Some? then Some(Strip(v.value)) else None)
  {
    hide StripText, Strip;
    if v.Some? {
      StripOne(Field(key, v.value));
    }
  }

  lemma StripLinkValue(x: Link)
    ensures Strip(LinkValue(x)) == LinkValue(StripLink(x))
  {
    hide StripText, StripFields, Optional;
    var h, k, m, n := [Field("h", Bin(x.h))], Optional("k", BinOption(x.k)), Optional("m", x.m), Optional("n", StrOption(x.n));
    var s, t := Field("s", Int(x.s)), Field("t", Int(x.t));
    assert LinkFields(x) == h + k + m + n + ([s] + [t]);
    StripConcat(h + k + m + n, [s] + [t]);
    StripConcat(h + k + m, n);
    StripConcat(h + k, m);
    StripConcat(h, k);
    StripConcat([s], [t]);
    StripOne(h[0]);
    StripOne(s);
    StripOne(t);
    StripOptional("k", BinOption(x.k));
    StripOptional("m", x.m);
    StripOptional("n", StrOption(x.n));
  }

  lemma StripNodeValue(node: Node)
    ensures Strip(NodeValue(node)) == NodeValue(Node(StripLinks(node.l), node.t))
  {
    hide StripText, LinkValue, StripLink;
    var fields := NodeValue(node).fields;
    StripFieldsAt(fields, 0);
    StripFieldsAt(fields, 1);
    PlainKeys("l");
    PlainKeys("t");
    var items := LinkValues(node.l);
    forall i | 0 <= i < |items| ensures StripItems(items)[i] == LinkValue(StripLink(node.l[i])) {
      StripItemsAt(items, i);
      StripLinkValue(node.l[i]);
    }
    assert StripItems(items) == LinkValues(StripLinks(node.l));
    assert StripFields(fields) == NodeValue(Node(StripLinks(node.l), node.t)).fields;
  }

  /** Nothing in the link is lost on the wire: no text with a leading byte order
      mark, no metadata deeper than the reader goes. */
  ghost predicate LinkReadable(x: Link) {
    && (x.n.Some? ==> !StartsWithBom(x.n.value))
    && (x.m.Some? ==> Clean(x.m.value) && Fits(x.m.value, 3))
  }

  ghost predicate NodeReadable(node: Node) {
    (forall x :: x in node.l ==> LinkReadable(x)) && CountsOK(node)
  }

  ghost predicate LinkClean(x: Link) {
    (x.n.Some? ==> !StartsWithBom(x.n.value)) && (x.m.Some? ==> Clean(x.m.value))
  }

  ghost predicate LinkFits(x: Link) { x.m.Some? ==> Fits(x.m.value, 3) }

  lemma LinkValueClean(x: Link)
    ensures Clean(LinkValue(x)) <==> LinkClean(x)
    ensures StripLink(x) == x <==> LinkClean(x)
  {
    hide StripText, Strip, StartsWithBom;
    var f := LinkFields(x);
    LinkKeys(x);
    forall g | g in f ensures !StartsWithBom(g.key) { PlainKeys(g.key); }
    if x.m.Some? {
      StripClean(x.m.value);
      assert Field("m", x.m.value) in f;
    }
    if x.n.Some? {
      StripTextClean(x.n.value);
      assert Field("n", Str(x.n.value)) in f;
    }
  }

  lemma LinkValueFits(x: Link)
    ensures Fits(LinkValue(x), 2) <==> LinkFits(x)
  {
    var f := LinkFields(x);
    if x.m.Some? {
      assert Field("m", x.m.value) in f;
    }
  }

  lemma NodeValueReadable(node: Node)
    ensures Clean(NodeValue(node)) <==> forall x :: x in node.l ==> LinkClean(x)
    ensures Fits(NodeValue(node), 0) <==> forall x :: x in node.l ==> LinkFits(x)
    ensures StripLinks(node.l) == node.l <==> forall x :: x in node.l ==> LinkClean(x)
  {
    NodeValueClean(node);
    NodeValueFits(node);
    StripLinksClean(node.l);
  }

  lemma NodeValueClean(node: Node)
    ensures Clean(NodeValue(node)) <==> forall x :: x in node.l ==> LinkClean(x)
  {
    hide LinkValue, LinkClean, Clean, NodeValue;
    CleanParts(node);
    var items := LinkValues(node.l);
    if forall x :: x in node.l ==> LinkClean(x) {
      forall v | v in items ensures Clean(v) {
        var i :| 0 <= i < |items| && items[i] == v;
        LinkValueClean(node.l[i]);
      }
    }
    if forall v :: v in items ==> Clean(v) {
      forall x | x in node.l ensures LinkClean(x) {
        var i :| 0 <= i < |items| && node.l[i] == x;
        assert items[i] in items;
        LinkValueClean(x);
      }
    }
  }

  lemma NodeValueFits(node: Node)
    ensures Fits(NodeValue(node), 0) <==> forall x :: x in node.l ==> LinkFits(x)
  {
    hide LinkValue, LinkFits, Fits, NodeValue;
    FitsParts(node);
    var items := LinkValues(node.l);
    if forall x :: x in node.l ==> LinkFits(x) {
      forall v | v in items ensures Fits(v, 2) {
        var i :| 0 <= i < |items| && items[i] == v;
        LinkValueFits(node.l[i]);
      }
    }
    if forall v :: v in items ==> Fits(v, 2) {
      forall x | x in node.l ensures LinkFits(x) {
        var i :| 0 <= i < |items| && node.l[i] == x;
        assert items[i] in items;
        LinkValueFits(x);
      }
    }
  }

  lemma StripLinksClean(l: seq<Link>)
    ensures StripLinks(l) == l <==> forall x :: x in l ==> LinkClean(x)
  {
    hide LinkClean, StripLink;
    if forall x :: x in l ==> LinkClean(x) {
      forall i | 0 <= i < |l| ensures StripLinks(l)[i] == l[i] {
        assert l[i] in l;
        LinkValueClean(l[i]);
      }
      assert StripLinks(l) == l;
    }
    if StripLinks(l) == l {
      forall x | x in l ensures LinkClean(x) {
        var i :| 0 <= i < |l| && l[i] == x;
        LinkValueClean(x);
        assert StripLinks(l)[i] == StripLink(x);
      }
    }
  }

  lemma CleanParts(node: Node)
    ensures Clean(NodeValue(node)) <==> forall x :: x in LinkValues(node.l) ==> Clean(x)
  {
    hide LinkValue, StartsWithBom;
    var fields := NodeValue(node).fields;
    PlainKeys("l");
    PlainKeys("t");
    assert fields[0] in fields && fields[1] in fields;
  }

  lemma FitsParts(node: Node)
    ensures Fits(NodeValue(node), 0) <==> forall x :: x in LinkValues(node.l) ==> Fits(x, 2)
  {
    hide LinkValue;
    var items := LinkValues(node.l);
    var fields := NodeValue(node).fields;
    assert fields[0] in fields && fields[1] in fields;
    FitsItems(items, 1);
  }

  lemma FitsItems(items: seq<Value>, depth: nat)
    requires depth <= MAX_DEPTH
    ensures Fits(Arr(items), depth) <==> forall x :: x in items ==> Fits(x, depth + 1)
  {}

  lemma CanonLinkReadable(x: Link)
    ensures LinkReadable(CanonLink(x)) <==> LinkReadable(x)
  {
    hide Canon, Clean, Fits, StartsWithBom;
    if x.m.Some? {
      CanonClean(x.m.value);
      CanonFits(x.m.value, 3);
    }
  }

  lemma CanonNodeReadable(node: Node)
    requires MetasEncodable(node)
    ensures NodeReadable(CanonNode(node)) <==> NodeReadable(node)
  {
    hide LinkReadable, Canon, Encodable, BoundsOf;
    var c := CanonLinks(node.l);
    forall i | 0 <= i < |c|
      ensures LinkReadable(c[i]) <==> LinkReadable(node.l[i])
      ensures BoundsOf(c[i].m) == BoundsOf(node.l[i].m)
    {
      assert node.l[i] in node.l;
      CanonLinkReadable(node.l[i]);
      CanonLinkOK(node.l[i], node.t);
    }
  }

  /** Every manifest the encoder produces decodes to the same node, up to the
      order of metadata keys, exactly when no text in it starts with a byte
      order mark, its metadata is shallow enough for the reader and its fanout
      counts are at most 10^9. */
  lemma ManifestRoundTrip(node: Node)
    requires EncodeManifest(node).Some?
    ensures DecodeManifest(EncodeManifest(node).value) == Some(CanonNode(node)) <==> NodeReadable(node)
  {
    hide Read, NodeOK, NodeOf, NodeValue, CanonNode, Enc, MetasEncodable, NodeReadable, CountsOK, Clean, Fits, Strip;
    var c := CanonNode(node);
    CanonNodeOK(node);
    NodeValueEncodable(c);
    CanonNodeReadable(node);
    ReadableParts(c);
    NodeValueReadable(c);
    var b := Enc(NodeValue(c));
    assert b + [] == b;
    ReadEncoded(NodeValue(c), [], 0);
    StripNodeValue(c);
    if Clean(NodeValue(c)) { CleanApart(NodeValue(c)); }
    var stripped := Node(StripLinks(c.l), c.t);
    NodeOfValue(stripped);
    assert c == Node(c.l, c.t);
  }

  /** The node a reader gets: canonical metadata, without leading byte order
      marks. */
  ghost function SeenNode(node: Node): Node { Node(StripLinks(CanonLinks(node.l)), node.t) }

  /** A stored manifest decodes exactly when no metadata is too deep, no two keys
      of an object fall together and the node is still valid without leading
      byte order marks; and then it decodes to that node. */
  lemma DecodeStripped(node: Node)
    requires EncodeManifest(node).Some?
    ensures var c, seen := NodeValue(CanonNode(node)), SeenNode(node);
      DecodeManifest(EncodeManifest(node).value)
        == if Fits(c, 0) && Unmerged(c) && NodeOK(seen) && CountsOK(seen) then Some(seen) else None
  {
    hide Read, NodeOK, NodeOf, NodeValue, Enc, MetasEncodable, CountsOK, Unmerged, Fits, Strip;
    var c := CanonNode(node);
    CanonNodeOK(node);
    NodeValueEncodable(c);
    var b := Enc(NodeValue(c));
    assert b + [] == b;
    ReadEncoded(NodeValue(c), [], 0);
    StripNodeValue(c);
    NodeOfValue(Node(StripLinks(c.l), c.t));
  }

  lemma ReadableParts(node: Node)
    ensures NodeReadable(node)
       <==> (forall x :: x in node.l ==> LinkClean(x)) && (forall x :: x in node.l ==> LinkFits(x)) && CountsOK(node)
  {
    hide Clean, Fits, StartsWithBom;
    forall x ensures LinkReadable(x) <==> LinkClean(x) && LinkFits(x) {}
  }
}
