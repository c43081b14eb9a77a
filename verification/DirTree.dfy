/** Stored directories of tinyclient/blossom-manifests.js: pages of entries
    under fanout manifests, and what resolveDirectory makes of them. */
module DirTree {
  import opened Prelude
  import opened Text
  import opened MsgPack
  import opened Canonical
  import opened Manifest
  import opened Blobs
  import opened Forest
  import opened DirRead
  import FileRead
  import opened Legible

  /** A leaf is one page of entries. */
  type Dir = Tree<seq<Link>>

  // ------------------------------------------------------------------
  // Links and manifests

  function Below(t: Dir): seq<Link> { Concat(Fringe(t)) }

  function BelowAll(kids: seq<Dir>): seq<Link> { Concat(FringeAll(kids)) }

  function FirstName(l: seq<Link>): string {
    if l != [] && l[0].n.Some? then l[0].n.value else ""
  }

  function LastName(l: seq<Link>): string {
    if l != [] && l[|l| - 1].n.Some? then l[|l| - 1].n.value else ""
  }

  /** What a fanout link over these entries has to say. */
  function Summary(l: seq<Link>): Bounds { Bounds(|l|, FirstName(l), LastName(l)) }

  function Meta(b: Bounds): Value {
    Obj([Field("count", Int(b.count)), Field("first", Str(b.first)), Field("last", Str(b.last))])
  }

  function Total(l: seq<Link>): int { Sum(FileRead.Sizes(l)) }

  ghost function DirLink(c: Crypto, t: Dir): (x: Link)
    ensures x.m == Some(Meta(Summary(Below(t)))) && x.n == None && x.s == Total(Below(t))
    ensures x.t == if t.Leaf? then 2 else 3
    ensures |x.h| == 32 && (x.k.Some? ==> |x.k.value| == 32)
    decreases t, 3
  {
    var page := DirBytes(c, t);
    Link(BlobHash(c, page), BlobKey(c, page), Some(Meta(Summary(Below(t)))), None, Total(Below(t)), if t.Leaf? then 2 else 3)
  }

  ghost function DirLinks(c: Crypto, kids: seq<Dir>): (l: seq<Link>)
    ensures |l| == |kids|
    ensures forall i :: 0 <= i < |l| ==> l[i] == DirLink(c, kids[i])
    decreases kids, 0
  {
    if kids == [] then [] else [DirLink(c, kids[0])] + DirLinks(c, kids[1..])
  }

  ghost function DirNode(c: Crypto, t: Dir): (n: Node)
    ensures n.t == if t.Leaf? then 2 else 3
    decreases t, 1
  {
    match t
    case Leaf(entries) => Node(entries, 2)
    case Inner(kids) => Node(DirLinks(c, kids), 3)
  }

  ghost function DirBytes(c: Crypto, t: Dir): Bytes
    decreases t, 2
  {
    var b := EncodeManifest(DirNode(c, t));
    if b.Some? then b.value else []
  }

  ghost predicate Stored(c: Crypto, t: Dir) {
    EncodeManifest(DirNode(c, t)).Some? && (t.Inner? ==> forall k :: k in t.kids ==> Stored(c, k))
  }

  ghost predicate StoredAll(c: Crypto, kids: seq<Dir>) { forall k :: k in kids ==> Stored(c, k) }

  ghost predicate Kept(c: Crypto, store: Store, t: Dir) {
    Holds(c, store, DirBytes(c, t)) && (t.Inner? ==> forall k :: k in t.kids ==> Kept(c, store, k))
  }

  ghost predicate KeptAll(c: Crypto, store: Store, kids: seq<Dir>) { forall k :: k in kids ==> Kept(c, store, k) }

  /** No page is empty; only a root may be. */
  ghost predicate Full(t: Dir) {
    match t
    case Leaf(entries) => entries != []
    case Inner(kids) => kids != [] && forall k :: k in kids ==> Full(k)
  }

  ghost predicate FullAll(kids: seq<Dir>) { forall k :: k in kids ==> Full(k) }

  /** No link repeats a name announced above it. */
  ghost predicate Acyclic(c: Crypto, t: Dir, active: set<Bytes>) {
    var h := BlobHash(c, DirBytes(c, t));
    h !in active && (t.Inner? ==> forall k :: k in t.kids ==> Acyclic(c, k, active + {h}))
  }

  ghost predicate AcyclicAll(c: Crypto, kids: seq<Dir>, active: set<Bytes>) {
    forall k :: k in kids ==> Acyclic(c, k, active)
  }

  // ------------------------------------------------------------------
  // What reading costs

  datatype Cost = Cost(count: nat, manifests: nat, fetched: nat, fetches: nat, blobs: set<Bytes>)

  function Plus(a: Cost, b: Cost): Cost {
    Cost(a.count + b.count, a.manifests + b.manifests, a.fetched + b.fetched, a.fetches + b.fetches, a.blobs + b.blobs)
  }

  ghost function FetchCost(c: Crypto, t: Dir): Cost {
    var blob := Blob(c, DirBytes(c, t));
    Cost(0, 0, |blob|, 1, {blob})
  }

  /** Walking a manifest that is already there. */
  ghost function NodeCost(c: Crypto, t: Dir): Cost
    decreases t, 1
  {
    match t
    case Leaf(entries) => Cost(|entries|, 1, 0, 0, {})
    case Inner(kids) => Plus(Cost(0, 1, 0, 0, {}), CostAll(c, kids))
  }

  ghost function CostOf(c: Crypto, t: Dir): Cost
    decreases t, 2
  {
    Plus(FetchCost(c, t), NodeCost(c, t))
  }

  ghost function CostAll(c: Crypto, kids: seq<Dir>): Cost
    decreases kids, 0
  {
    if kids == [] then Cost(0, 0, 0, 0, {}) else Plus(CostOf(c, kids[0]), CostAll(c, kids[1..]))
  }

  function Advance(st: State, x: Cost): State {
    st.(count := st.count + x.count, manifests := st.manifests + x.manifests, fetched := st.fetched + x.fetched,
        fetches := st.fetches + x.fetches, blobs := st.blobs + x.blobs)
  }

  predicate Roomy(limits: Limits, st: State, x: Cost) {
    && st.count + x.count <= limits.maxEntries
    && st.manifests + x.manifests <= limits.maxManifests
    && st.fetched + x.fetched <= limits.maxBytes
  }

  lemma AdvanceTwice(st: State, x: Cost, y: Cost)
    ensures Advance(Advance(st, x), y) == Advance(st, Plus(x, y))
    ensures Advance(st, x).active == st.active
  {
    assert st.blobs + x.blobs + y.blobs == st.blobs + (x.blobs + y.blobs);
  }

  lemma AdvanceNone(st: State)
    ensures Advance(st, Cost(0, 0, 0, 0, {})) == st
  {
    assert st.blobs + {} == st.blobs;
  }

  lemma RoomyTwice(limits: Limits, st: State, x: Cost, y: Cost)
    requires Roomy(limits, st, Plus(x, y))
    ensures Roomy(limits, st, x) && Roomy(limits, Advance(st, x), y)
  {}

  // ------------------------------------------------------------------
  // Bounds metadata

  lemma KeyOrder()
    ensures Before("count", "first") && Before("first", "last") && Before("count", "last")
  {
    FirstByte("count");
    FirstByte("first");
    FirstByte("last");
  }

  lemma FirstByte(s: string)
    requires s != "" && s[0] < 128 as char
    ensures |Utf8(s)| > 0 && Utf8(s)[0] == s[0] as int
  {}

  lemma MetaCanon(b: Bounds)
    ensures Canon(Meta(b)) == Meta(b)
  {
    hide Before, Insert, Sort;
    KeyOrder();
    var x, y, z := Field("count", Int(b.count)), Field("first", Str(b.first)), Field("last", Str(b.last));
    assert [x, y, z] == [x] + [y, z] && [y, z] == [y] + [z] && [z] == [z] + [];
    CanonCons(z, []);
    CanonCons(y, [z]);
    CanonCons(x, [y, z]);
    SortNone();
    SortCons(z, []);
    SortCons(y, [z]);
    SortCons(x, [y, z]);
    InsertFirst(z, []);
    InsertFirst(y, [z]);
    InsertFirst(x, [y, z]);
  }

  lemma MetaBounds(b: Bounds)
    ensures BoundsOf(Some(Meta(b))) == Some(b)
  {
    hide Get;
    var x, y, z := Field("count", Int(b.count)), Field("first", Str(b.first)), Field("last", Str(b.last));
    assert [x, y, z] == [x] + [y, z] && [y, z] == [y] + [z] && [z] == [z] + [];
    GetFirst(x, [y, z]);
    GetFirst(y, [z]);
    GetFirst(z, []);
  }

  lemma MetaReadable(b: Bounds)
    requires !StartsWithBom(b.first) && !StartsWithBom(b.last)
    ensures Clean(Meta(b)) && Fits(Meta(b), 3)
  {}

  // ------------------------------------------------------------------
  // Reading a stored tree

  /** Nothing in the entries is lost on the wire but marks in their metadata. */
  ghost predicate Readable(l: seq<Link>) {
    |l| <= MAX_COUNT && forall x :: x in l ==> LinkLegible(x)
  }

  /** The manifest as a reader sees it. */
  ghost function DirSeen(c: Crypto, t: Dir): (n: Node)
    ensures n.t == if t.Leaf? then 2 else 3
  {
    match t
    case Leaf(entries) => Node(Seen(entries), 2)
    case Inner(kids) => DirNode(c, t)
  }

  lemma FringeEntries(kids: seq<Dir>, t: Dir)
    requires t in kids
    ensures forall x :: x in Below(t) ==> x in BelowAll(kids)
    ensures |Below(t)| <= |BelowAll(kids)|
  {
    hide Fringe;
    var more := kids[1..];
    assert kids == [kids[0]] + more;
    ConcatSplit(Fringe(kids[0]), FringeAll(more));
    if t != kids[0] {
      FringeEntries(more, t);
    }
  }

  lemma NamesReadable(l: seq<Link>)
    requires Readable(l)
    ensures !StartsWithBom(FirstName(l)) && !StartsWithBom(LastName(l))
  {
    if l != [] {
      assert l[0] in l && l[|l| - 1] in l;
    }
  }

  lemma FanReadable(c: Crypto, kids: seq<Dir>)
    requires Readable(BelowAll(kids))
    ensures NodeReadable(Node(DirLinks(c, kids), 3)) && CanonLinks(DirLinks(c, kids)) == DirLinks(c, kids)
  {
    hide DirLink, Below, BelowAll, Summary, Meta, BoundsOf, Canon, Clean, Fits, StartsWithBom;
    var l := DirLinks(c, kids);
    forall i | 0 <= i < |l|
      ensures LinkReadable(l[i]) && CanonLink(l[i]) == l[i]
      ensures BoundsOf(l[i].m).Some? && BoundsOf(l[i].m).value.count <= MAX_COUNT
    {
      FringeEntries(kids, kids[i]);
      NamesReadable(Below(kids[i]));
      var b := Summary(Below(kids[i]));
      SummaryCount(Below(kids[i]));
      MetaReadable(b);
      MetaCanon(b);
      MetaBounds(b);
    }
  }

  lemma SummaryCount(l: seq<Link>)
    ensures Summary(l).count == |l| && Summary(l).first == FirstName(l) && Summary(l).last == LastName(l)
  {}

  lemma PageReadable(c: Crypto, t: Dir)
    requires EncodeManifest(DirNode(c, t)).Some? && Readable(Below(t))
    ensures DecodeManifest(DirBytes(c, t)) == Some(DirSeen(c, t)) && NodeOK(DirSeen(c, t))
  {
    hide NodeOK, MetasEncodable, NodeBytes, DecodeManifest, DirLinks, LinkReadable, LinkLegible, Seen;
    var node := DirNode(c, t);
    if t.Inner? {
      FanReadable(c, t.kids);
      ManifestRoundTrip(node);
      CanonNodeOK(node);
    } else {
      ConcatOne(t.data);
      PageSeen(t.data);
    }
  }

  lemma ClaimExact(c: Crypto, t: Dir)
    ensures Claim(DirLink(c, t)) == Summary(Below(t))
  {
    hide DirLink, Meta, BoundsOf;
    MetaBounds(Summary(Below(t)));
  }

  /** Every entry has a name, and the names strictly increase. */
  ghost predicate Named(l: seq<Link>) {
    Ascending(l) && forall x :: x in l ==> x.n.Some? && x.n.value != ""
  }

  lemma NamedParts(a: seq<Link>, b: seq<Link>)
    requires Named(a + b)
    ensures Named(a) && Named(b)
    ensures a != [] && b != [] ==> LastName(a) != "" && Before(LastName(a), FirstName(b))
  {
    hide Before;
    var l := a + b;
    forall i | 0 < i < |a| ensures NameBefore(a[i - 1], a[i]) {
      assert NameBefore(l[i - 1], l[i]);
    }
    forall i | 0 < i < |b| ensures NameBefore(b[i - 1], b[i]) {
      assert NameBefore(l[i + |a| - 1], l[i + |a|]);
    }
    if a != [] && b != [] {
      assert a[|a| - 1] in l && b[0] in l;
      assert NameBefore(l[|a| - 1], l[|a|]);
    }
    forall x | x in a ensures x.n.Some? && x.n.value != "" { assert x in l; }
    forall x | x in b ensures x.n.Some? && x.n.value != "" { assert x in l; }
  }

  lemma SeenNames(l: seq<Link>)
    requires Readable(l)
    ensures Summary(Seen(l)) == Summary(l)
    ensures Named(l) ==> Ascending(Seen(l))
  {
    hide Before, SeenLink, Fits, Unmerged, StartsWithBom;
    var c := Seen(l);
    forall i | 0 <= i < |l| ensures c[i].n == l[i].n {
      assert l[i] in l;
      SeenSame(l[i]);
    }
    if Named(l) {
      forall i | 0 < i < |c| ensures NameBefore(c[i - 1], c[i]) {
        assert NameBefore(l[i - 1], l[i]);
      }
    }
  }

  lemma SummaryDescribes(l: seq<Link>)
    requires Named(l) && Readable(l) && l != []
    ensures Describes(Summary(l), Seen(l))
  {
    hide SeenLink, Fits, Unmerged, StartsWithBom;
    assert l[0] in l && l[|l| - 1] in l;
    SeenSame(l[0]);
    SeenSame(l[|l| - 1]);
  }

  lemma {:induction false} FullBelow(t: Dir)
    requires Full(t)
    ensures Below(t) != []
    decreases t
  {
    match t {
      case Leaf(entries) => ConcatOne(entries);
      case Inner(kids) =>
        assert kids[0] in kids;
        FullBelow(kids[0]);
        FringeEntries(kids, kids[0]);
    }
  }

  lemma BelowSplit(kids: seq<Dir>)
    requires kids != []
    ensures BelowAll(kids) == Below(kids[0]) + BelowAll(kids[1..])
  {
    hide Fringe;
    ConcatSplit(Fringe(kids[0]), FringeAll(kids[1..]));
  }

  lemma BelowNone()
    ensures BelowAll([]) == []
  {}

  /** What the forest lemmas assume of the trees being read. */
  ghost predicate Whole(c: Crypto, store: Store, kids: seq<Dir>) {
    StoredAll(c, kids) && KeptAll(c, store, kids) && FullAll(kids) && Readable(BelowAll(kids))
  }

  lemma WholeParts(c: Crypto, store: Store, kids: seq<Dir>)
    requires Whole(c, store, kids) && kids != []
    ensures Whole(c, store, kids[1..]) && Stored(c, kids[0]) && Kept(c, store, kids[0]) && Full(kids[0]) && Readable(Below(kids[0]))
  {
    hide Stored, Kept, Full, LinkLegible, Below, BelowAll;
    assert kids == [kids[0]] + kids[1..];
    BelowSplit(kids);
  }

  lemma {:induction false} ReadForest(env: Env, store: Store, kids: seq<Dir>, depth: nat, done: seq<Link>, st: State)
    requires env.fetch == FromStore(store) && Blobs.Sound(env.c) && Whole(env.c, store, kids)
    requires depth + 1 + HeightAll(kids) <= env.limits.maxDepth
    requires Named(done + BelowAll(kids)) && Roomy(env.limits, st, CostAll(env.c, kids))
    ensures var o := WalkLinks(env, DirLinks(env.c, kids), depth, LastName(done), Seen(done), st);
            if AcyclicAll(env.c, kids, st.active)
            then o == Outcome(Done, Seen(done + BelowAll(kids)), Advance(st, CostAll(env.c, kids)))
            else o.status == Failed(Cycle)
    decreases kids, 0
  {
    hide WalkLink, Whole, Acyclic, Advance, Plus, Below, BelowAll, CostOf, DirLink, Height, Named, Seen, Claim, LastName, FirstName, Compare, Roomy;
    var c := env.c;
    if kids == [] {
      AdvanceNone(st);
      BelowNone();
      assert done + [] == done;
    } else {
      var t, more := kids[0], kids[1..];
      assert kids == [t] + more;
      WholeParts(c, store, kids);
      BelowSplit(kids);
      Associative(done, Below(t), BelowAll(more));
      NamedParts(done + Below(t), BelowAll(more));
      RoomyTwice(env.limits, st, CostOf(c, t), CostAll(c, more));
      Enter(c, t, done);
      ReadTree(env, store, t, depth, st);
      assert DirLinks(c, kids)[1..] == DirLinks(c, more);
      if Acyclic(c, t, st.active) {
        ReadForest(env, store, more, depth, done + Below(t), Advance(st, CostOf(c, t)));
        AdvanceTwice(st, CostOf(c, t), CostAll(c, more));
        SeenConcat(done, Below(t));
      }
    }
  }

  /** The order check before a link passes, and its claim is what the next
      check compares against. */
  lemma Enter(c: Crypto, t: Dir, done: seq<Link>)
    requires Full(t) && Named(done + Below(t))
    ensures LastName(done) == "" || Compare(LastName(done), Claim(DirLink(c, t)).first) < 0
    ensures Claim(DirLink(c, t)).last == LastName(done + Below(t))
    ensures Named(Below(t)) && Below(t) != []
  {
    hide DirLink, Below, Claim;
    FullBelow(t);
    NamedParts(done, Below(t));
    ClaimExact(c, t);
    var l := done + Below(t);
    assert l[|l| - 1] == Below(t)[|Below(t)| - 1];
  }

  /** The state in which a stored manifest is used. */
  ghost function Announced(c: Crypto, st: State, t: Dir): State {
    Advance(st, FetchCost(c, t)).(active := st.active + {BlobHash(c, DirBytes(c, t))})
  }

  lemma ReadStoredLink(env: Env, store: Store, t: Dir, depth: nat, st: State)
    requires env.fetch == FromStore(store) && Blobs.Sound(env.c) && Holds(env.c, store, DirBytes(env.c, t))
    requires BlobHash(env.c, DirBytes(env.c, t)) !in st.active && Roomy(env.limits, st, FetchCost(env.c, t))
    requires depth <= env.limits.maxDepth
    ensures WalkLink(env, DirLink(env.c, t), depth, st)
         == WalkChild(env, DirLink(env.c, t), DirBytes(env.c, t), depth, Announced(env.c, st, t))
  {
    hide WalkChild, Open, DirBytes, Meta, Below, Summary, Total;
    OpenBlob(env.c, DirBytes(env.c, t), DirLink(env.c, t));
  }

  lemma ChildWalked(env: Env, link: Link, plain: Bytes, child: Node, depth: nat, st: State)
    requires depth <= env.limits.maxDepth && DecodeManifest(plain) == Some(child) && child.t == link.t
    ensures var o, end := WalkNode(env, child, depth + 1, st), WalkChild(env, link, plain, depth, st);
      && (o.status != Done ==> end == o)
      && (o.status == Done && Describes(Claim(link), o.entries)
          ==> end == Outcome(Done, o.entries, o.st.(active := o.st.active - {link.h})))
  {
    hide DecodeManifest, WalkNode, Describes, Claim;
  }

  lemma {:induction false} ReadTree(env: Env, store: Store, t: Dir, depth: nat, st: State)
    requires env.fetch == FromStore(store) && Blobs.Sound(env.c)
    requires Stored(env.c, t) && Kept(env.c, store, t) && Full(t) && Readable(Below(t))
    requires depth + 1 + Height(t) <= env.limits.maxDepth && Named(Below(t)) && Roomy(env.limits, st, CostOf(env.c, t))
    ensures var o := WalkLink(env, DirLink(env.c, t), depth, st);
            if Acyclic(env.c, t, st.active)
            then o == Outcome(Done, Seen(Below(t)), Advance(st, CostOf(env.c, t)))
            else o.status == Failed(Cycle)
    decreases t, 2
  {
    hide DecodeManifest, EncodeManifest, WalkLink, WalkNode, WalkChild, Claim, NodeOK, BlobHash, DirLink, DirNode, DirBytes, Summary, Below, Seen, DirSeen, Describes, Named, Readable, Advance, Announced, CostOf, FetchCost, NodeCost, Height, Roomy, Stored, Kept, Acyclic, Full, Holds, KidsAcyclic;
    var c, h := env.c, BlobHash(env.c, DirBytes(env.c, t));
    TreeParts(c, store, t);
    AcyclicParts(c, t, st.active);
    LinkParts(c, t);
    if h in st.active {
      AnnouncedAbove(env, DirLink(c, t), depth, st);
    } else {
      CostParts(c, t, env.limits, st);
      ReadStoredLink(env, store, t, depth, st);
      PageReadable(c, t);
      AnnouncedDone(c, t, st);
      ReadNode(env, store, t, depth + 1, Announced(c, st, t));
      ClaimExact(c, t);
      FullBelow(t);
      SummaryDescribes(Below(t));
      ChildWalked(env, DirLink(c, t), DirBytes(c, t), DirSeen(c, t), depth, Announced(c, st, t));
    }
  }

  lemma TreeParts(c: Crypto, store: Store, t: Dir)
    requires Stored(c, t) && Kept(c, store, t) && Full(t) && Readable(Below(t))
    ensures EncodeManifest(DirNode(c, t)).Some? && Holds(c, store, DirBytes(c, t))
    ensures t.Inner? ==> Whole(c, store, t.kids)
  {
    hide EncodeManifest, DirNode, DirBytes, Holds, Readable;
  }

  lemma AcyclicParts(c: Crypto, t: Dir, active: set<Bytes>)
    ensures var h := BlobHash(c, DirBytes(c, t));
            Acyclic(c, t, active) <==> h !in active && KidsAcyclic(c, t, active + {h})
  {
    hide DirBytes, BlobHash;
  }

  lemma LinkParts(c: Crypto, t: Dir)
    ensures DirLink(c, t).h == BlobHash(c, DirBytes(c, t)) && DirLink(c, t).t == DirSeen(c, t).t
  {
    hide DirBytes, Blob, Below, Summary, Meta, Seen;
  }

  lemma CostParts(c: Crypto, t: Dir, limits: Limits, st: State)
    requires Roomy(limits, st, CostOf(c, t))
    ensures Roomy(limits, st, FetchCost(c, t)) && Roomy(limits, Advance(st, FetchCost(c, t)), NodeCost(c, t))
  {
    hide FetchCost, NodeCost;
    RoomyTwice(limits, st, FetchCost(c, t), NodeCost(c, t));
  }

  lemma AnnouncedAbove(env: Env, link: Link, depth: nat, st: State)
    requires depth <= env.limits.maxDepth && link.h in st.active
    ensures WalkLink(env, link, depth, st).status == Failed(Cycle)
  {
    hide WalkChild, Open;
  }

  lemma AnnouncedDone(c: Crypto, t: Dir, st: State)
    requires BlobHash(c, DirBytes(c, t)) !in st.active
    ensures var after := Advance(Announced(c, st, t), NodeCost(c, t));
            after.(active := after.active - {BlobHash(c, DirBytes(c, t))}) == Advance(st, CostOf(c, t))
    ensures Announced(c, st, t).active == st.active + {BlobHash(c, DirBytes(c, t))}
    ensures forall limits, x :: Roomy(limits, Announced(c, st, t), x) <==> Roomy(limits, Advance(st, FetchCost(c, t)), x)
  {
    hide DirBytes, NodeCost, BlobHash;
    AdvanceTwice(st, FetchCost(c, t), NodeCost(c, t));
    var h := BlobHash(c, DirBytes(c, t));
    assert st.active + {h} - {h} == st.active;
  }

  /** The manifest itself passed; what is below it may repeat a name. */
  ghost predicate KidsAcyclic(c: Crypto, t: Dir, active: set<Bytes>) { t.Inner? ==> AcyclicAll(c, t.kids, active) }

  lemma {:induction false} ReadNode(env: Env, store: Store, t: Dir, depth: nat, st: State)
    requires env.fetch == FromStore(store) && Blobs.Sound(env.c)
    requires EncodeManifest(DirNode(env.c, t)).Some? && Readable(Below(t)) && Named(Below(t))
    requires t.Inner? ==> Whole(env.c, store, t.kids)
    requires depth + Height(t) <= env.limits.maxDepth && Roomy(env.limits, st, NodeCost(env.c, t))
    ensures var o := WalkNode(env, DirSeen(env.c, t), depth, st);
            if KidsAcyclic(env.c, t, st.active)
            then o == Outcome(Done, Seen(Below(t)), Advance(st, NodeCost(env.c, t)))
            else o.status == Failed(Cycle)
    decreases t, 1
  {
    hide DecodeManifest, EncodeManifest, WalkNode, WalkLinks, NodeOK, Seen, Named, Readable, Ascending, Whole, DirLinks, AcyclicAll, CostAll, Plus, Advance, Roomy, LastName;
    var c := env.c;
    PageReadable(c, t);
    SeenNames(Below(t));
    match t {
      case Leaf(entries) =>
        ConcatOne(entries);
        WalkPage(env, Seen(entries), depth, st);
      case Inner(kids) =>
        var own := Cost(0, 1, 0, 0, {});
        RoomyTwice(env.limits, st, own, CostAll(c, kids));
        AdvanceTwice(st, own, CostAll(c, kids));
        NothingSeen(BelowAll(kids));
        ReadForest(env, store, kids, depth, [], Advance(st, own));
        WalkFan(env, DirLinks(c, kids), depth, st);
    }
  }

  lemma WalkPage(env: Env, l: seq<Link>, depth: nat, st: State)
    requires depth <= env.limits.maxDepth && NodeOK(Node(l, 2)) && Roomy(env.limits, st, Cost(|l|, 1, 0, 0, {}))
    ensures WalkNode(env, Node(l, 2), depth, st) == Outcome(Done, l, Advance(st, Cost(|l|, 1, 0, 0, {})))
  {
    hide NodeOK;
    assert st.blobs + {} == st.blobs;
  }

  lemma WalkFan(env: Env, l: seq<Link>, depth: nat, st: State)
    requires depth <= env.limits.maxDepth && NodeOK(Node(l, 3)) && Roomy(env.limits, st, Cost(0, 1, 0, 0, {}))
    ensures var o := WalkLinks(env, l, depth, "", [], Advance(st, Cost(0, 1, 0, 0, {})));
      (o.status == Done && !Ascending(o.entries)) || WalkNode(env, Node(l, 3), depth, st) == o
  {
    hide NodeOK, WalkLinks, Ascending;
    assert st.blobs + {} == st.blobs;
  }

  lemma NothingSeen(l: seq<Link>)
    ensures Seen([]) == [] && [] + l == l && LastName([]) == ""
  {}
}
