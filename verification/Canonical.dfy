/** The canonical form of a MessagePack value: every object's fields in the
    order of their keys' UTF-8 bytes. It is what the writer puts on the wire,
    so two values encode alike exactly when they differ only in field order. */
module Canonical {
  import opened Prelude
  import opened Text
  import opened MsgPack
  import opened Sorting

  ghost predicate Sorted(s: seq<Field>) {
    forall i, j :: 0 <= i < j < |s| ==> Before(s[i].key, s[j].key)
  }

  function KeyOf(f: Field): string { f.key }

  function Insert(f: Field, s: seq<Field>): (r: seq<Field>)
    ensures |r| == |s| + 1
  {
    InsertBy(f, s, KeyOf)
  }

  function Sort(s: seq<Field>): (r: seq<Field>)
    ensures |r| == |s|
  {
    SortBy(s, KeyOf)
  }

  function Canon(v: Value): Value
    decreases v, 1
  {
    match v
    case Arr(items) => Arr(CanonItems(items))
    case Obj(fields) => Obj(Sort(CanonFields(fields)))
    case _ => v
  }

  function CanonItems(items: seq<Value>): (r: seq<Value>)
    ensures |r| == |items|
    decreases items, 0
  {
    if items == [] then [] else [Canon(items[0])] + CanonItems(items[1..])
  }

  function CanonFields(fields: seq<Field>): (r: seq<Field>)
    ensures |r| == |fields|
    decreases fields, 0
  {
    if fields == [] then [] else [Field(fields[0].key, Canon(fields[0].val))] + CanonFields(fields[1..])
  }

  // ------------------------------------------------------------------
  // Sorting

  lemma SortMembers(s: seq<Field>, x: Field)
    ensures x in Sort(s) <==> x in s
  {
    hide SortBy;
    SameMembers(Sort(s), s);
  }

  lemma KeysDistinct(s: seq<Field>)
    ensures DistinctKeys(s) <==> DistinctBy(s, KeyOf)
  {}

  lemma SortSorted(s: seq<Field>)
    requires DistinctKeys(s)
    ensures Sorted(Sort(s))
  {
    hide SortBy, Before, DistinctBy;
    KeysDistinct(s);
    var t := Sort(s);
    forall i, j | 0 <= i < j < |t| ensures Before(t[i].key, t[j].key) { SortStrict(s, KeyOf, i, j); }
  }

  /** The writer's key order: every key comes before every later one, byte by
      byte, and no field is lost. */
  lemma KeysInByteOrder(s: seq<Field>, i: nat, j: nat)
    requires DistinctKeys(s) && i < j < |s|
    ensures Precedes(Sort(s)[i].key, Sort(s)[j].key) && multiset(Sort(s)) == multiset(s)
  {
    hide SortBy, Before, Precedes, DistinctKeys;
    SortSorted(s);
    BeforeExact(Sort(s)[i].key, Sort(s)[j].key);
  }

  /** Fields with distinct keys sort alike when they are the same. */
  lemma SortSame(s: seq<Field>, t: seq<Field>)
    requires DistinctKeys(s) && DistinctKeys(t) && forall x :: x in s <==> x in t
    ensures Sort(s) == Sort(t)
  {
    hide SortBy, DistinctBy, DistinctKeys;
    KeysDistinct(s);
    KeysDistinct(t);
    SameCounts(s, t, KeyOf);
    SortUnique(s, t, KeyOf);
  }

  lemma InsertFirst(f: Field, s: seq<Field>)
    requires s == [] || Before(f.key, s[0].key)
    ensures Insert(f, s) == [f] + s
  {}

  lemma SortCons(f: Field, s: seq<Field>)
    ensures Sort([f] + s) == Insert(f, Sort(s))
  {
    hide InsertBy;
    assert ([f] + s)[1..] == s;
  }

  lemma CanonCons(f: Field, s: seq<Field>)
    ensures CanonFields([f] + s) == [Field(f.key, Canon(f.val))] + CanonFields(s)
  {
    hide Canon;
    assert ([f] + s)[1..] == s;
  }

  /** An object of one field has one order. */
  lemma CanonOne(f: Field)
    requires Canon(f.val) == f.val
    ensures Canon(Obj([f])) == Obj([f])
  {
    hide Insert, Sort;
    assert [f] == [f] + [];
    CanonCons(f, []);
    SortCons(f, []);
    SortNone();
    InsertFirst(f, []);
  }

  lemma SortNone()
    ensures Sort([]) == []
  {}

  lemma Asymmetric(a: string, b: string)
    ensures !(Before(a, b) && Before(b, a))
  {
    BeforeTotal(a, b);
  }

  // ------------------------------------------------------------------
  // What the canonical form keeps

  lemma {:induction false} CanonItemsAt(items: seq<Value>, i: nat)
    requires i < |items|
    ensures CanonItems(items)[i] == Canon(items[i])
  {
    if i > 0 {
      CanonItemsAt(items[1..], i - 1);
    }
  }

  lemma {:induction false} CanonFieldsAt(fields: seq<Field>, i: nat)
    requires i < |fields|
    ensures CanonFields(fields)[i] == Field(fields[i].key, Canon(fields[i].val))
  {
    if i > 0 {
      CanonFieldsAt(fields[1..], i - 1);
    }
  }

  lemma CanonFieldMember(fields: seq<Field>, x: Field) returns (f: Field)
    requires x in Sort(CanonFields(fields))
    ensures f in fields && x == Field(f.key, Canon(f.val))
  {
    SortMembers(CanonFields(fields), x);
    var i :| 0 <= i < |fields| && CanonFields(fields)[i] == x;
    CanonFieldsAt(fields, i);
    f := fields[i];
  }

  lemma CanonFieldKept(fields: seq<Field>, f: Field)
    requires f in fields
    ensures Field(f.key, Canon(f.val)) in Sort(CanonFields(fields))
  {
    var i :| 0 <= i < |fields| && fields[i] == f;
    CanonFieldsAt(fields, i);
    SortMembers(CanonFields(fields), CanonFields(fields)[i]);
  }

  lemma CanonKeysDistinct(fields: seq<Field>)
    requires DistinctKeys(fields)
    ensures DistinctKeys(CanonFields(fields)) && Sorted(Sort(CanonFields(fields)))
    ensures DistinctKeys(Sort(CanonFields(fields)))
  {
    hide Before;
    var c := CanonFields(fields);
    forall i, j | 0 <= i < j < |c| ensures c[i].key != c[j].key {
      CanonFieldsAt(fields, i);
      CanonFieldsAt(fields, j);
    }
    SortSorted(c);
    forall i, j | 0 <= i < j < |Sort(c)| ensures Sort(c)[i].key != Sort(c)[j].key {
      BeforeTotal(Sort(c)[i].key, Sort(c)[j].key);
      Asymmetric(Sort(c)[i].key, Sort(c)[j].key);
    }
  }

  lemma {:induction false} CanonEncodable(v: Value)
    requires Encodable(v)
    ensures Encodable(Canon(v))
    decreases v
  {
    hide ShortText, Safe;
    if v.Arr? {
      forall x | x in CanonItems(v.items) ensures Encodable(x) {
        var i :| 0 <= i < |v.items| && CanonItems(v.items)[i] == x;
        CanonItemsAt(v.items, i);
        CanonEncodable(v.items[i]);
      }
    } else if v.Obj? {
      CanonKeysDistinct(v.fields);
      forall x | x in Sort(CanonFields(v.fields)) ensures ShortText(x.key) && Encodable(x.val) {
        var f := CanonFieldMember(v.fields, x);
        CanonEncodable(f.val);
      }
    }
  }

  lemma {:induction false} CanonClean(v: Value)
    ensures Clean(Canon(v)) <==> Clean(v)
    decreases v
  {
    hide StartsWithBom;
    if v.Arr? {
      forall i | 0 <= i < |v.items| ensures Clean(CanonItems(v.items)[i]) <==> Clean(v.items[i]) {
        CanonItemsAt(v.items, i);
        CanonClean(v.items[i]);
      }
    } else if v.Obj? {
      CanonCleanFields(v);
    }
  }

  lemma {:induction false} CanonCleanFields(v: Value)
    requires v.Obj?
    ensures Clean(Canon(v)) <==> Clean(v)
    decreases v, 0
  {
    hide StartsWithBom, Sort, CanonFields;
    var sorted := Sort(CanonFields(v.fields));
    forall x | x in sorted && Clean(v) ensures !StartsWithBom(x.key) && Clean(x.val) {
      var f := CanonFieldMember(v.fields, x);
      CanonClean(f.val);
    }
    forall f | f in v.fields && Clean(Canon(v)) ensures !StartsWithBom(f.key) && Clean(f.val) {
      CanonFieldKept(v.fields, f);
      CanonClean(f.val);
    }
  }

  lemma {:induction false} CanonFits(v: Value, depth: nat)
    ensures Fits(Canon(v), depth) <==> Fits(v, depth)
    decreases v, 1
  {
    if v.Arr? {
      var c := CanonItems(v.items);
      forall x | x in c && Fits(v, depth) ensures Fits(x, depth + 1) {
        var i :| 0 <= i < |c| && c[i] == x;
        CanonItemsAt(v.items, i);
        assert v.items[i] in v.items;
        CanonFits(v.items[i], depth + 1);
      }
      forall x | x in v.items && Fits(Arr(c), depth) ensures Fits(x, depth + 1) {
        var i :| 0 <= i < |c| && v.items[i] == x;
        CanonItemsAt(v.items, i);
        CanonFits(x, depth + 1);
        assert c[i] in c;
      }
    } else if v.Obj? {
      CanonFitsFields(v, depth);
    }
  }

  lemma {:induction false} CanonFitsFields(v: Value, depth: nat)
    requires v.Obj?
    ensures Fits(Canon(v), depth) <==> Fits(v, depth)
    decreases v, 0
  {
    var sorted := Sort(CanonFields(v.fields));
    forall x | x in sorted && Fits(v, depth) ensures Fits(x.val, depth + 1) {
      var f := CanonFieldMember(v.fields, x);
      CanonFits(f.val, depth + 1);
    }
    forall f | f in v.fields && Fits(Canon(v), depth) ensures Fits(f.val, depth + 1) {
      CanonFieldKept(v.fields, f);
      CanonFits(f.val, depth + 1);
    }
  }

  /** Among distinct keys, being apart is a matter of members alone. */
  lemma ApartMembers(fields: seq<Field>)
    requires DistinctKeys(fields)
    ensures KeysApart(fields)
       <==> forall f, g :: f in fields && g in fields && StripText(f.key) == StripText(g.key) ==> f.key == g.key
  {
    hide StripText;
    if KeysApart(fields) {
      forall f, g | f in fields && g in fields && StripText(f.key) == StripText(g.key) ensures f.key == g.key {
        var i :| 0 <= i < |fields| && fields[i] == f;
        var j :| 0 <= j < |fields| && fields[j] == g;
      }
    }
  }

  lemma {:induction false} CanonApart(v: Value)
    requires Encodable(v) && Unmerged(v)
    ensures Unmerged(Canon(v))
    decreases v
  {
    hide StripText, ShortText, Safe, Finite, WholeFloat;
    if v.Arr? {
      forall x | x in CanonItems(v.items) ensures Unmerged(x) {
        var i :| 0 <= i < |v.items| && CanonItems(v.items)[i] == x;
        CanonItemsAt(v.items, i);
        CanonApart(v.items[i]);
      }
    } else if v.Obj? {
      hide Sort, CanonFields, DistinctKeys, KeysApart;
      CanonKeysApart(v.fields);
      forall x | x in Sort(CanonFields(v.fields)) ensures Unmerged(x.val) {
        var f := CanonFieldMember(v.fields, x);
        CanonApart(f.val);
      }
    }
  }

  lemma CanonKeysApart(fields: seq<Field>)
    requires DistinctKeys(fields) && KeysApart(fields)
    ensures KeysApart(Sort(CanonFields(fields)))
  {
    hide StripText, Sort, CanonFields, DistinctKeys, KeysApart, Sorted;
    var s := Sort(CanonFields(fields));
    CanonKeysDistinct(fields);
    ApartMembers(fields);
    ApartMembers(s);
    forall x, y | x in s && y in s && StripText(x.key) == StripText(y.key) ensures x.key == y.key {
      var f := CanonFieldMember(fields, x);
      var g := CanonFieldMember(fields, y);
    }
  }

  // ------------------------------------------------------------------
  // What the writer produces

  ghost function Write(v: Value): Bytes
    requires Encodable(v)
  {
    CanonEncodable(v);
    Enc(Canon(v))
  }

  /** Reading what was written, followed by anything, consumes exactly the
      written bytes and returns the canonical form, exactly when no text starts
      with a byte order mark and no part is deeper than the reader goes. */
  lemma ReadWritten(v: Value, rest: Bytes, depth: nat)
    requires Encodable(v)
    ensures Read(Write(v) + rest, depth) == Some(Parsed(Canon(v), rest)) <==> Clean(v) && Fits(v, depth)
  {
    hide Read, Canon, Clean, Fits, Strip, Unmerged;
    CanonEncodable(v);
    ReadEncoded(Canon(v), rest, depth);
    StripClean(Canon(v));
    CanonClean(v);
    CanonFits(v, depth);
    if Clean(Canon(v)) { CleanApart(Canon(v)); }
  }

  /** The order in which an object received its fields leaves no trace. */
  lemma FieldOrderIrrelevant(f: seq<Field>, g: seq<Field>)
    requires Encodable(Obj(f)) && DistinctKeys(g) && |g| == |f| && forall x :: x in f <==> x in g
    ensures Encodable(Obj(g)) && Write(Obj(f)) == Write(Obj(g))
  {
    hide Enc, Sort, DistinctKeys, Canon, Sorted;
    CanonKeysDistinct(f);
    CanonKeysDistinct(g);
    var s, t := CanonFields(f), CanonFields(g);
    forall x ensures x in s <==> x in t {
      SortMembers(s, x);
      SortMembers(t, x);
      if x in s {
        var y := CanonFieldMember(f, x);
        CanonFieldKept(g, y);
      }
      if x in t {
        var y := CanonFieldMember(g, x);
        CanonFieldKept(f, y);
      }
    }
    SortSame(s, t);
    SameFieldsEncodable(f, g);
    CanonObj(f);
    CanonObj(g);
  }

  lemma CanonObj(f: seq<Field>)
    ensures Canon(Obj(f)) == Obj(Sort(CanonFields(f)))
  {}

  lemma SameFieldsEncodable(f: seq<Field>, g: seq<Field>)
    requires Encodable(Obj(f)) && DistinctKeys(g) && |g| == |f| && forall x :: x in f <==> x in g
    ensures Encodable(Obj(g))
  {
    hide ShortText, DistinctKeys;
  }

  /** Readable values with the same bytes are the same up to field order. */
  lemma BytesDetermine(u: Value, v: Value)
    requires Encodable(u) && Encodable(v) && Clean(u) && Clean(v) && Fits(u, 0) && Fits(v, 0)
    ensures Write(u) == Write(v) <==> Canon(u) == Canon(v)
  {
    hide Read, Canon, Clean, Fits;
    ReadWritten(u, [], 0);
    ReadWritten(v, [], 0);
  }
}
