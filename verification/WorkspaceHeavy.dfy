/** A folder that stores but cannot be listed: the selection accepts media types
    of any length, and eleven hundred long ones take its listing over the
    reader's limit. */
module WorkspaceHeavy {
  import opened Prelude
  import opened Text
  import opened MsgPack
  import opened Canonical
  import opened Manifest
  import opened Blobs
  import opened Grouping
  import opened Forest
  import opened Selection
  import opened DirTree
  import opened DirBuild
  import opened ManifestSize
  import opened Workspace
  import opened WorkspaceRead
  import NameSort
  import Decimal
  import Digits

  // ------------------------------------------------------------------
  // Manifests are at least as long as their metadata

  lemma {:induction false} FieldsAtLeast(fields: seq<Field>, f: Field)
    requires (forall g :: g in fields ==> ShortText(g.key) && Encodable(g.val)) && f in fields
    ensures |Enc(f.val)| <= |EncFields(fields)|
  {
    hide Enc, Encodable, StrBytes, ShortText;
    assert fields == [fields[0]] + fields[1..];
    if f != fields[0] {
      FieldsAtLeast(fields[1..], f);
    }
  }

  lemma {:induction false} ItemsAtLeast(items: seq<Value>, b: nat)
    requires forall x :: x in items ==> Encodable(x) && |Enc(x)| >= b
    ensures |EncItems(items)| >= |items| * b
  {
    hide Enc, Encodable;
    if items != [] {
      assert items == [items[0]] + items[1..];
      ItemsAtLeast(items[1..], b);
      Digits.Distribute(1, |items| - 1, b);
    }
  }

  lemma LinkAtLeast(x: Link)
    requires Encodable(LinkValue(x)) && x.m.Some?
    ensures Encodable(x.m.value) && |Enc(LinkValue(x))| >= |Enc(x.m.value)|
  {
    hide EncFields, ObjHead;
    var f := Field("m", x.m.value);
    assert f in LinkFields(x);
    FieldsAtLeast(LinkFields(x), f);
  }

  ghost predicate Bulky(x: Link, b: nat) { x.m.Some? && Encodable(x.m.value) && |Write(x.m.value)| >= b }

  lemma PageAtLeast(c: Crypto, l: seq<Link>, b: nat)
    requires Stored(c, Leaf(l)) && forall x :: x in l ==> Bulky(x, b)
    ensures |DirBytes(c, Leaf(l))| >= |l| * b
  {
    hide NodeOK, Encodable, LinkValue, EncItems, Canon, CanonLink, LinkOK, Write, Enc;
    var node := Node(l, 2);
    CanonNodeOK(node);
    var n := CanonNode(node);
    NodeValueEncodable(n);
    var items := LinkValues(n.l);
    ItemsEncodable(n);
    forall v | v in items ensures Encodable(v) && |Enc(v)| >= b {
      var i :| 0 <= i < |items| && items[i] == v;
      assert l[i] in l;
      CanonLinkMeta(l[i]);
      LinkAtLeast(n.l[i]);
    }
    ItemsAtLeast(items, b);
    NodeAtLeast(n);
  }

  lemma ItemsEncodable(node: Node)
    requires Encodable(NodeValue(node))
    ensures Encodable(Arr(LinkValues(node.l))) && forall v :: v in LinkValues(node.l) ==> Encodable(v)
  {
    hide LinkValues;
    assert Field("l", Arr(LinkValues(node.l))) in NodeValue(node).fields;
  }

  lemma NodeAtLeast(node: Node)
    requires Encodable(NodeValue(node)) && Encodable(Arr(LinkValues(node.l)))
    ensures (forall v :: v in LinkValues(node.l) ==> Encodable(v)) && |Enc(NodeValue(node))| >= |EncItems(LinkValues(node.l))|
  {
    hide LinkValues, EncFields, EncItems, ObjHead, ArrHead;
    var f := Field("l", Arr(LinkValues(node.l)));
    assert f in NodeValue(node).fields;
    FieldsAtLeast(NodeValue(node).fields, f);
  }

  lemma {:induction false} PagesAtLeast(c: Crypto, runs: seq<seq<Link>>, b: nat)
    requires Sound(c) && (forall r :: r in runs ==> Stored(c, Leaf(r))) && forall r, x :: r in runs && x in r ==> Bulky(x, b)
    ensures CostAll(c, Leaves(runs)).fetched >= |Concat(runs)| * b
  {
    hide Sound, Bulky, Stored, CostOf, Concat;
    if runs == [] {
      ConcatNone();
    } else {
      var r, more := runs[0], runs[1..];
      assert runs == [r] + more;
      PagesAtLeast(c, more, b);
      PageAtLeast(c, r, b);
      PageFetchedExactly(c, r);
      assert Leaves(runs)[1..] == Leaves(more);
      ConcatSplit([r], more);
      ConcatOne(r);
      Digits.Distribute(|r|, |Concat(more)|, b);
    }
  }

  lemma PageFetchedExactly(c: Crypto, l: seq<Link>)
    requires Sound(c)
    ensures CostOf(c, Leaf(l)).fetched >= |DirBytes(c, Leaf(l))|
  {
    hide DirBytes, Blob, Sound;
    BlobLength(c, DirBytes(c, Leaf(l)));
  }

  // ------------------------------------------------------------------
  // The folder

  const FILES: nat := 1100
  const TYPE_BYTES: nat := 65000

  function LongType(): (s: string)
    ensures |s| == TYPE_BYTES && Ascii(s)
  {
    seq(TYPE_BYTES, i => 'a')
  }

  function HeavyFile(i: nat): NamedFile { NamedFile(Decimal.Print(i), File(Decimal.Print(i), [], LongType())) }

  function HeavyFolder(): Folder { Folder(seq(FILES, i requires 0 <= i < FILES => HeavyFile(i)), []) }

  lemma {:induction false} PrintLength(n: nat, k: nat)
    requires n < Digits.Power(10, k + 1)
    ensures |Decimal.Print(n)| <= k + 1
  {
    hide Decimal.DigitChar;
    if n >= 10 && k > 0 {
      PrintLength(n / 10, k - 1);
    }
  }

  lemma NumberName(i: nat)
    requires i < FILES
    ensures NameOK(Decimal.Print(i))
  {
    hide Decimal.Print, Utf8;
    var s := Decimal.Print(i);
    assert Digits.Power(10, 4) == 10000 by {
      assert Digits.Power(10, 1) == 10 && Digits.Power(10, 2) == 100 && Digits.Power(10, 3) == 1000;
    }
    PrintLength(i, 3);
    Utf8Length(s);
    assert Decimal.IsDigit(s[0]);
  }

  lemma {:induction false} NoBytes(files: seq<NamedFile>)
    requires forall f :: f in files ==> f.file.data == []
    ensures FileBytes(files) == 0
  {
    if files != [] {
      assert files[0] in files;
      NoBytes(files[1..]);
    }
  }

  lemma HeavySmall()
    ensures Small(HeavyFolder())
  {
    hide Decimal.Print, NameOK, LongType, Distinct, Names, TypeOK, FileBytes, HeavyFile;
    var folder := HeavyFolder();
    forall f | f in folder.files ensures NameOK(f.name) && f.file.data == [] && TypeOK(f.file) {
      var i :| 0 <= i < FILES && f == HeavyFile(i);
      HeavyFileOK(i);
    }
    NoBytes(folder.files);
    HeavyNames();
    assert folder.dirs == [];
  }

  lemma HeavyFileOK(i: nat)
    requires i < FILES
    ensures NameOK(HeavyFile(i).name) && HeavyFile(i).file.data == [] && TypeOK(HeavyFile(i).file)
  {
    hide Decimal.Print, NameOK, LongType, TypeOK;
    NumberName(i);
    LongTypeOK(HeavyFile(i).file);
  }

  lemma HeavyNames()
    ensures Distinct(Names(HeavyFolder()))
  {
    hide Decimal.Print, LongType;
    var n := Names(HeavyFolder());
    forall i, j | 0 <= i < j < |n| ensures n[i] != n[j] {
      if n[i] == n[j] { Decimal.PrintInjective(i, j); }
    }
  }

  lemma LongTypeOK(file: File)
    requires file.mime == LongType()
    ensures TypeOK(file) && MimeOf(file) == LongType() && |Utf8(LongType())| == TYPE_BYTES
  {
    hide LongType;
    AsciiLength(LongType());
  }

  lemma LongEntry(c: Crypto, x: Link)
    requires x in Entries(c, HeavyFolder())
    ensures Bulky(x, TYPE_BYTES)
  {
    hide Entries, Names, Decimal.Print, LongType, Encodable, Write, FileMeta;
    var folder := HeavyFolder();
    var l := Entries(c, folder);
    var i :| 0 <= i < |l| && l[i] == x;
    EntriesAt(c, folder, i);
    var f := folder.files[i];
    LongTypeOK(f.file);
    TypeMeta(f.file);
    FileEntryMeta(c, f);
    TypeAtLeast(f.file);
  }

  lemma TypeAtLeast(file: File)
    requires TypeOK(file) && Encodable(FileMeta(file))
    ensures |Write(FileMeta(file))| >= |Utf8(MimeOf(file))|
  {
    hide Utf8, EncFields, MimeOf, StrHead, ShortText;
    var f := Field("type", Str(MimeOf(file)));
    assert f in [f];
    CanonOne(f);
    FieldsAtLeast([f], f);
  }

  /** It is accepted and stored, and it does not fit. */
  lemma HeavyUnlisted(c: Crypto)
    requires Sound(c)
    ensures Small(HeavyFolder()) && !FolderFits(c, HeavyFolder())
  {
    hide Sound, Small, Entries, NameSort.Sort, EntryOK, Buildable, Readable, Stored, Bulky, CostAll, Grow, Runs, DirBytes, Decimal.Print, LongType;
    var folder := HeavyFolder();
    HeavySmall();
    var s := Listed(c, folder);
    SortedOK(c, folder);
    EntriesLength(c, folder);
    BuildSucceeds(c, s, FANOUT);
    var runs := Runs(s, FANOUT);
    RunsCounted(s, FANOUT);
    RunCountBound(|s|, FANOUT, 58);
    RunsConcat(s, FANOUT);
    SmallGrow(Leaves(runs));
    StoredPages(c, Leaves(runs));
    forall r | r in runs ensures Stored(c, Leaf(r)) && forall x :: x in r ==> Bulky(x, TYPE_BYTES) {
      RunOf(s, FANOUT, r);
      var i :| 0 <= i < |runs| && runs[i] == r;
      assert Leaves(runs)[i] in Leaves(runs);
      forall x | x in r ensures Bulky(x, TYPE_BYTES) { LongEntry(c, x); }
    }
    PagesAtLeast(c, runs, TYPE_BYTES);
  }
}
