/** buildDirectory of tinyclient/blossom-manifests.js: entries are sorted, cut
    into pages and fanned out until one manifest holds everything. */
module DirBuild {
  import opened Prelude
  import opened Text
  import opened MsgPack
  import opened Canonical
  import opened Manifest
  import opened Blobs
  import opened Grouping
  import opened Forest
  import opened DirRead
  import opened DirTree
  import opened ManifestSize
  import NameSort
  import Sorting
  import FileRead
  import opened Legible

  // ------------------------------------------------------------------
  // The tree and what is stored for it

  function RootTree(sorted: seq<Link>, max: nat): Dir
    requires max >= 2
  {
    if |sorted| <= max then Leaf(sorted) else Inner(Grow(Leaves(Runs(sorted, max)), max))
  }

  ghost function BytesOf(c: Crypto, f: seq<Dir>): (r: seq<Bytes>)
    ensures |r| == |f| && forall i :: 0 <= i < |r| ==> r[i] == DirBytes(c, f[i])
  {
    seq(|f|, i requires 0 <= i < |f| => DirBytes(c, f[i]))
  }

  /** The fanout manifests above these trees, in the order they are stored. */
  ghost function Fans(c: Crypto, f: seq<Dir>, max: nat): (r: seq<Bytes>)
    requires max >= 2
    ensures |r| > 0 && r[|r| - 1] == DirBytes(c, Inner(Grow(f, max)))
    decreases |f|
  {
    if |f| <= max then [DirBytes(c, Inner(f))]
    else
      RunsCounted(f, max);
      RunsShrink(|f|, max);
      BytesOf(c, InnerRuns(f, max)) + Fans(c, InnerRuns(f, max), max)
  }

  /** Everything stored for a directory; the last manifest is the root. */
  ghost function Pages(c: Crypto, sorted: seq<Link>, max: nat): (r: seq<Bytes>)
    requires max >= 2
    ensures |r| > 0 && r[|r| - 1] == DirBytes(c, RootTree(sorted, max))
  {
    if |sorted| <= max then [DirBytes(c, Leaf(sorted))]
    else
      var f := Leaves(Runs(sorted, max));
      BytesOf(c, f) + Fans(c, f, max)
  }

  // ------------------------------------------------------------------
  // The tree holds the entries, in order, below full pages

  lemma RootBelow(sorted: seq<Link>, max: nat)
    requires max >= 2
    ensures Below(RootTree(sorted, max)) == sorted
  {
    hide Grow, Fringe, FringeAll, Runs;
    if |sorted| <= max {
      OnePage(sorted);
    } else {
      var f := Leaves(Runs(sorted, max));
      GrowFringe(f, max);
      FringeOfLeaves(Runs(sorted, max));
      RunsConcat(sorted, max);
      FringeInner(Grow(f, max));
    }
  }

  lemma OnePage(l: seq<Link>)
    ensures Below(Leaf(l)) == l
  {
    ConcatOne(l);
  }

  lemma FringeInner(kids: seq<Dir>)
    ensures Fringe(Inner(kids)) == FringeAll(kids)
  {}

  lemma {:induction false} GrowFull(f: seq<Dir>, max: nat)
    requires max >= 2 && FullAll(f) && f != []
    ensures FullAll(Grow(f, max)) && Grow(f, max) != []
    decreases |f|
  {
    hide Full;
    if |f| > max {
      RunsCounted(f, max);
      RunsShrink(|f|, max);
      RunsFull(f, max);
      GrowFull(InnerRuns(f, max), max);
    }
  }

  lemma RunsFull(f: seq<Dir>, max: nat)
    requires max >= 2 && FullAll(f)
    ensures FullAll(InnerRuns(f, max))
  {
    forall t | t in InnerRuns(f, max) ensures Full(t) {
      var i :| 0 <= i < |Runs(f, max)| && t == Inner(Runs(f, max)[i]);
      forall x | x in Runs(f, max)[i] ensures Full(x) { RunMember(f, max, i, x); }
    }
  }

  lemma PagesFull(sorted: seq<Link>, max: nat)
    requires max >= 2 && |sorted| > max
    ensures FullAll(Leaves(Runs(sorted, max))) && Leaves(Runs(sorted, max)) != []
  {}

  // ------------------------------------------------------------------
  // Everything stored is found again

  lemma RunsKept(c: Crypto, store: Store, f: seq<Dir>, max: nat)
    requires max >= 2 && KeptAll(c, store, f)
    requires forall p :: p in BytesOf(c, InnerRuns(f, max)) ==> Holds(c, store, p)
    ensures KeptAll(c, store, InnerRuns(f, max))
  {
    hide DirBytes, Holds;
    var up := InnerRuns(f, max);
    forall t | t in up ensures Kept(c, store, t) {
      var i :| 0 <= i < |up| && t == up[i];
      assert BytesOf(c, up)[i] in BytesOf(c, up);
      forall x | x in Runs(f, max)[i] ensures Kept(c, store, x) { RunMember(f, max, i, x); }
    }
  }

  lemma {:induction false} GrowKept(c: Crypto, store: Store, f: seq<Dir>, max: nat)
    requires max >= 2 && KeptAll(c, store, f)
    requires forall p :: p in Fans(c, f, max) ==> Holds(c, store, p)
    ensures KeptAll(c, store, Grow(f, max))
    decreases |f|
  {
    hide DirBytes, Holds, Kept;
    if |f| > max {
      RunsCounted(f, max);
      RunsShrink(|f|, max);
      RunsKept(c, store, f, max);
      GrowKept(c, store, InnerRuns(f, max), max);
    }
  }

  lemma PagesKept(c: Crypto, store: Store, sorted: seq<Link>, max: nat)
    requires max >= 2 && |sorted| > max
    requires forall p :: p in BytesOf(c, Leaves(Runs(sorted, max))) ==> Holds(c, store, p)
    ensures KeptAll(c, store, Leaves(Runs(sorted, max)))
  {
    hide DirBytes, Holds, Runs;
    var f := Leaves(Runs(sorted, max));
    forall t | t in f ensures Kept(c, store, t) {
      var i :| 0 <= i < |f| && f[i] == t;
      assert BytesOf(c, f)[i] in BytesOf(c, f);
    }
  }

  /** Everything buildDirectory put into the store. */
  ghost predicate DirStored(c: Crypto, store: Store, sorted: seq<Link>, max: nat)
    requires max >= 2
  {
    forall p :: p in Pages(c, sorted, max) ==> Holds(c, store, p)
  }

  // ------------------------------------------------------------------
  // Height

  lemma RootHeight(sorted: seq<Link>, max: nat)
    requires max >= 2
    ensures Height(RootTree(sorted, max)) == Levels(|sorted|, max)
  {
    hide Grow, Runs, Height, HeightAll;
    if |sorted| <= max {
      LeafHeight(sorted);
    } else {
      var runs := Runs(sorted, max);
      RunsCounted(sorted, max);
      RunsShrink(|sorted|, max);
      LeavesUniform(runs);
      GrowUniform(Leaves(runs), max, 0);
      var g := Grow(Leaves(runs), max);
      UniformHeight(g, Levels(|runs|, max));
      PagesFull(sorted, max);
      GrowFull(Leaves(runs), max);
      InnerHeight(g);
    }
  }

  lemma LeafHeight(l: seq<Link>)
    ensures Height(Leaf(l)) == 0
  {}

  lemma InnerHeight(kids: seq<Dir>)
    ensures Height(Inner(kids)) == 1 + HeightAll(kids)
  {}

  // ------------------------------------------------------------------
  // Storing and reading back

  /** What an entry of a stored page has to be. */
  ghost predicate Writable(x: Link) { LinkOK(x, 2) && (x.m.Some? ==> Encodable(x.m.value)) }

  lemma {:induction false} StoredEntries(c: Crypto, t: Dir)
    requires Stored(c, t)
    ensures forall x :: x in Below(t) ==> Writable(x)
    decreases t, 1
  {
    hide LinkOK, DirLinks, Encodable, NodeBytes;
    match t {
      case Leaf(entries) => OnePage(entries);
      case Inner(kids) => StoredEntriesAll(c, kids);
    }
  }

  lemma {:induction false} StoredEntriesAll(c: Crypto, kids: seq<Dir>)
    requires StoredAll(c, kids)
    ensures forall x :: x in BelowAll(kids) ==> Writable(x)
    decreases kids, 0
  {
    hide Writable, Stored, Below;
    if kids != [] {
      assert kids == [kids[0]] + kids[1..];
      StoredEntries(c, kids[0]);
      StoredEntriesAll(c, kids[1..]);
      BelowSplit(kids);
    }
  }

  lemma EntryNamed(x: Link)
    requires LinkOK(x, 2)
    ensures x.n.Some? && x.n.value != ""
  {}

  lemma RootWhole(c: Crypto, store: Store, sorted: seq<Link>, max: nat)
    requires max >= 2 && |sorted| > max && Stored(c, RootTree(sorted, max)) && Readable(sorted)
    requires DirStored(c, store, sorted, max)
    ensures Whole(c, store, RootTree(sorted, max).kids)
  {
    hide DirBytes, Holds, Runs, Kept, Full, Below, Readable, EncodeManifest, Grow, Fans;
    var f := Leaves(Runs(sorted, max));
    var pages := Pages(c, sorted, max);
    assert pages == BytesOf(c, f) + Fans(c, f, max);
    PagesKept(c, store, sorted, max);
    GrowKept(c, store, f, max);
    PagesFull(sorted, max);
    GrowFull(f, max);
    RootBelow(sorted, max);
    BelowInner(Grow(f, max));
  }

  lemma BelowInner(kids: seq<Dir>)
    ensures Below(Inner(kids)) == BelowAll(kids)
  {}

  /** Resolving a stored directory gives its entries, sorted by name and as a
      reader sees them, unless some manifest's name occurs inside its own
      expansion, and then the reader says so. */
  lemma DirectoryRoundTrip(env: Env, store: Store, entries: seq<Link>, max: nat)
    requires max >= 2 && Blobs.Sound(env.c) && env.fetch == FromStore(store)
    requires NameSort.HasNames(entries) && NameSort.Distinct(entries) && Readable(entries)
    requires var t := RootTree(NameSort.Sort(entries), max);
      Stored(env.c, t) && Levels(|entries|, max) <= env.limits.maxDepth && Roomy(env.limits, START, NodeCost(env.c, t))
    requires DirStored(env.c, store, NameSort.Sort(entries), max)
    ensures var sorted := NameSort.Sort(entries);
      var t := RootTree(sorted, max);
      var root := DirSeen(env.c, t);
      && DecodeManifest(DirBytes(env.c, t)) == Some(root)
      && ResolveDirectory(env, root) == (if KidsAcyclic(env.c, t, {}) then Ok(Seen(sorted)) else Err(Cycle))
      && multiset(sorted) == multiset(entries) && ByteOrder(Seen(sorted))
  {
    hide DirBytes, Holds, Runs, Kept, Full, EncodeManifest, DecodeManifest, Grow, Fans, DirNode, WalkNode, NodeCost, LinkLegible, LinkOK, NameSort.Sort, Levels, Height, Roomy, Seen, DirSeen, DirStored, ByteOrder, Ascending;
    var sorted := NameSort.Sort(entries);
    var t := RootTree(sorted, max);
    NameSort.SortAscends(entries);
    StoredRoot(env.c, t);
    RootBelow(sorted, max);
    StoredEntries(env.c, t);
    forall x | x in sorted ensures x.n.Some? && x.n.value != "" { EntryNamed(x); }
    RootHeight(sorted, max);
    if |sorted| > max {
      RootWhole(env.c, store, sorted, max);
    }
    PageReadable(env.c, t);
    ReadNode(env, store, t, 0, START);
    SeenNames(sorted);
    AscendingExact(Seen(sorted));
  }

  lemma StoredRoot(c: Crypto, t: Dir)
    requires Stored(c, t)
    ensures EncodeManifest(DirNode(c, t)).Some?
  {}

  // ------------------------------------------------------------------
  // Building succeeds

  lemma {:induction false} TotalPart(kids: seq<Dir>, t: Dir)
    requires t in kids && forall x :: x in BelowAll(kids) ==> x.s >= 0
    ensures 0 <= Total(Below(t)) <= Total(BelowAll(kids))
  {
    hide Below, BelowAll, Total;
    var more := kids[1..];
    assert kids == [kids[0]] + more;
    BelowSplit(kids);
    TotalConcat(Below(kids[0]), BelowAll(more));
    TotalNonNegative(Below(kids[0]));
    TotalNonNegative(BelowAll(more));
    if t != kids[0] {
      TotalPart(more, t);
    }
  }

  lemma TotalConcat(a: seq<Link>, b: seq<Link>)
    ensures Total(a + b) == Total(a) + Total(b)
  {
    SumConcat(FileRead.Sizes(a), FileRead.Sizes(b));
    assert FileRead.Sizes(a + b) == FileRead.Sizes(a) + FileRead.Sizes(b);
  }

  lemma TotalNonNegative(l: seq<Link>)
    requires forall x :: x in l ==> x.s >= 0
    ensures Total(l) >= 0
  {
    forall i | 0 <= i < |l| ensures FileRead.Sizes(l)[i] >= 0 {
      assert l[i] in l;
    }
    SumNonNegative(FileRead.Sizes(l));
  }

  /** Entries the builder accepts whatever the fanout: valid, with short
      metadata, sorted, and of safe total size. */
  ghost predicate Buildable(l: seq<Link>) {
    && (forall x :: x in l ==> LinkOK(x, 2) && MetaSmall(x))
    && Ascending(l) && |l| <= MAX_SAFE && Total(l) <= MAX_SAFE
  }

  ghost predicate MetaSmall(x: Link) {
    x.m.Some? ==> Encodable(x.m.value) && |Write(x.m.value)| <= META_BYTES
  }

  lemma BoundsMetaOK(b: Bounds)
    ensures MetaOK(Meta(b), 0)
  {
    var f := Meta(b).fields;
    Utf8Length("count");
    Utf8Length("first");
    Utf8Length("last");
  }

  lemma BoundsShort(b: Bounds)
    requires BoundsOK(b)
    ensures ShortText(b.first) && ShortText(b.last) && |Utf8(b.first)| <= 1024 && |Utf8(b.last)| <= 1024 && Safe(b.count)
  {}

  lemma BoundsMetaSmall(b: Bounds)
    requires BoundsOK(b)
    ensures Encodable(Meta(b)) && |Write(Meta(b))| <= META_BYTES
  {
    hide Utf8, StrBytes, IntBytes, EncFields, CanonFields, Sort;
    var x, y, z := Field("count", Int(b.count)), Field("first", Str(b.first)), Field("last", Str(b.last));
    Utf8Length("count");
    Utf8Length("first");
    Utf8Length("last");
    MetaCanon(b);
    assert Encodable(Meta(b)) by {
      hide Compare, NameOK;
      BoundsShort(b);
    }
    BoundsShort(b);
    TextLength("count");
    TextLength("first");
    TextLength("last");
    TextLength(b.first);
    TextLength(b.last);
    IntLength(b.count);
    FieldsLength([x, y, z], 2000);
  }

  /** A run of consecutive trees over buildable entries. */
  lemma FanBuildable(c: Crypto, kids: seq<Dir>)
    requires Buildable(BelowAll(kids)) && FullAll(kids) && |kids| <= 174
    ensures EncodeManifest(Node(DirLinks(c, kids), 3)).Some?
  {
    hide EncodeManifest, DirLink, LinkOK, FanoutOK, Encodable, Buildable, FullAll;
    var l := DirLinks(c, kids);
    forall x | x in l ensures LinkOK(x, 3) && FanoutOK(x) && MetaSmall(x) {
      var i :| 0 <= i < |l| && l[i] == x;
      FanLinkOK(c, kids, kids[i]);
    }
    SmallNodeEncodes(Node(l, 3), META_BYTES);
  }

  lemma FanLinkOK(c: Crypto, kids: seq<Dir>, t: Dir)
    requires Buildable(BelowAll(kids)) && FullAll(kids) && t in kids
    ensures LinkOK(DirLink(c, t), 3) && FanoutOK(DirLink(c, t)) && MetaSmall(DirLink(c, t))
  {
    hide DirLink, Meta, NameOK, Encodable, MetaOK, BoundsOf, Below, BelowAll, Total, Compare, Full, Summary, NameOK;
    var x := DirLink(c, t);
    var b := Summary(Below(t));
    SummaryOK(kids, t);
    BoundsMetaOK(b);
    BoundsMetaSmall(b);
    MetaBounds(b);
    forall e | e in BelowAll(kids) ensures e.s >= 0 {}
    TotalPart(kids, t);
  }

  lemma SummaryOK(kids: seq<Dir>, t: Dir)
    requires Buildable(BelowAll(kids)) && FullAll(kids) && t in kids
    ensures BoundsOK(Summary(Below(t)))
  {
    hide Below, BelowAll, Full, Compare, NameOK, MetaSmall, MetaOK;
    var l := Below(t);
    FullBelow(t);
    FringeEntries(kids, t);
    assert l[0] in l && l[|l| - 1] in l;
    PartAscends(kids, t);
    FirstAtMost(l, |l| - 1);
  }

  lemma {:induction false} FirstAtMost(l: seq<Link>, i: nat)
    requires Ascending(l) && i < |l| && l[0].n.Some? && l[i].n.Some?
    ensures Compare(l[0].n.value, l[i].n.value) <= 0
  {
    hide Compare;
    if i == 0 {
      BeforeTotal(l[0].n.value, l[0].n.value);
    } else {
      assert NameBefore(l[i - 1], l[i]);
      FirstAtMost(l, i - 1);
      Sorting.AtMostTransitive(l[0].n.value, l[i - 1].n.value, l[i].n.value);
    }
  }

  lemma {:induction false} PartAscends(kids: seq<Dir>, t: Dir)
    requires Ascending(BelowAll(kids)) && t in kids
    ensures Ascending(Below(t))
  {
    hide Below, BelowAll, Ascending;
    assert kids == [kids[0]] + kids[1..];
    BelowSplit(kids);
    AscendingParts(Below(kids[0]), BelowAll(kids[1..]));
    if t != kids[0] {
      PartAscends(kids[1..], t);
    }
  }

  lemma AscendingParts(a: seq<Link>, b: seq<Link>)
    requires Ascending(a + b)
    ensures Ascending(a) && Ascending(b)
  {
    hide NameBefore;
    var l := a + b;
    forall i | 0 < i < |a| ensures NameBefore(a[i - 1], a[i]) { assert NameBefore(l[i - 1], l[i]); }
    forall i | 0 < i < |b| ensures NameBefore(b[i - 1], b[i]) { assert NameBefore(l[i + |a| - 1], l[i + |a|]); }
  }

  lemma PartBuildable(kids: seq<Dir>, t: Dir)
    requires Buildable(BelowAll(kids)) && t in kids
    ensures Buildable(Below(t))
  {
    hide Below, BelowAll, Ascending, LinkOK, MetaSmall, Total;
    FringeEntries(kids, t);
    PartAscends(kids, t);
    forall e | e in BelowAll(kids) ensures e.s >= 0 { SizeOK(e); }
    TotalPart(kids, t);
  }

  lemma SizeOK(x: Link)
    requires LinkOK(x, 2)
    ensures x.s >= 0
  {}

  lemma PageBuildable(c: Crypto, l: seq<Link>)
    requires Buildable(l) && |l| <= 174
    ensures Stored(c, Leaf(l))
  {
    hide EncodeManifest, LinkOK, Before, Total;
    forall x | x in l ensures x.n.Some? { EntryNamed(x); }
    assert NamesSorted(l) by {
      forall i | 0 < i < |l| ensures Before(l[i - 1].n.value, l[i].n.value) {
        assert NameBefore(l[i - 1], l[i]);
      }
    }
    SmallNodeEncodes(Node(l, 2), META_BYTES);
  }

  lemma RunsStored(c: Crypto, f: seq<Dir>, max: nat)
    requires 2 <= max <= 174 && StoredAll(c, f) && FullAll(f) && Buildable(BelowAll(f))
    ensures StoredAll(c, InnerRuns(f, max)) && BelowAll(InnerRuns(f, max)) == BelowAll(f)
  {
    hide EncodeManifest, Buildable, Full, Runs;
    var up := InnerRuns(f, max);
    FringeOfRuns(f, max);
    forall t | t in up ensures Stored(c, t) {
      var i :| 0 <= i < |up| && t == up[i];
      PartBuildable(up, t);
      BelowInner(t.kids);
      forall x | x in Runs(f, max)[i] ensures Stored(c, x) && Full(x) { RunMember(f, max, i, x); }
      FanBuildable(c, t.kids);
    }
  }

  lemma {:induction false} GrowStored(c: Crypto, f: seq<Dir>, max: nat)
    requires 2 <= max <= 174 && StoredAll(c, f) && FullAll(f) && Buildable(BelowAll(f)) && f != []
    ensures Stored(c, Inner(Grow(f, max)))
    decreases |f|
  {
    hide EncodeManifest, Buildable, Full, Runs, BelowAll;
    if |f| > max {
      RunsCounted(f, max);
      RunsShrink(|f|, max);
      RunsStored(c, f, max);
      RunsFull(f, max);
      GrowStored(c, InnerRuns(f, max), max);
    } else {
      FanBuildable(c, f);
    }
  }

  /** Valid entries with short metadata always build, at every fanout. */
  lemma BuildSucceeds(c: Crypto, sorted: seq<Link>, max: nat)
    requires 2 <= max <= 174 && Buildable(sorted)
    ensures Stored(c, RootTree(sorted, max))
  {
    hide EncodeManifest, Buildable, Full, Runs, BelowAll, Stored, Grow;
    if |sorted| <= max {
      PageBuildable(c, sorted);
    } else {
      var runs := Runs(sorted, max);
      var f := Leaves(runs);
      BelowLeaves(runs);
      RunsConcat(sorted, max);
      PagesFull(sorted, max);
      forall t | t in f ensures Stored(c, t) {
        PartBuildable(f, t);
        OnePage(t.data);
        assert |t.data| <= max;
        PageBuildable(c, t.data);
      }
      GrowStored(c, f, max);
    }
  }

  lemma BelowLeaves(runs: seq<seq<Link>>)
    ensures BelowAll(Leaves(runs)) == Concat(runs)
  {
    FringeOfLeaves(runs);
  }
}
