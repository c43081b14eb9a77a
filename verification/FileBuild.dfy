/** buildFile of tinyclient/blossom-manifests.js and its inverse: chunks are
    grouped level by level under file manifests until one manifest holds them
    all, and readFile over what was stored gives the chunks back in order. */
module FileBuild {
  import opened Prelude
  import opened MsgPack
  import opened Manifest
  import opened Blobs
  import opened FileRead
  import opened Grouping
  import opened Forest
  import opened ManifestSize
  import ManifestIO
  import Text
  import Canonical
  import Digits

  const CHUNK_SIZE: nat := 2 * 1024 * 1024

  // ------------------------------------------------------------------
  // Links and manifests of a tree

  ghost function TreeLink(c: Crypto, t: Tree<Bytes>): (x: Link)
    ensures |x.h| == 32 && (x.k.Some? ==> |x.k.value| == 32) && x.m == None && x.n == None && 0 <= x.t <= 1
    decreases t, 1
  {
    match t
    case Leaf(data) => Link(BlobHash(c, data), BlobKey(c, data), None, None, |data|, 0)
    case Inner(kids) =>
      var page := Page(c, kids);
      Link(BlobHash(c, page), BlobKey(c, page), None, None, Sum(Sizes(TreeLinks(c, kids))), 1)
  }

  ghost function TreeLinks(c: Crypto, kids: seq<Tree<Bytes>>): (l: seq<Link>)
    ensures |l| == |kids|
    ensures forall i :: 0 <= i < |l| ==> l[i] == TreeLink(c, kids[i])
    decreases kids, 0
  {
    if kids == [] then [] else [TreeLink(c, kids[0])] + TreeLinks(c, kids[1..])
  }

  /** The encoded manifest over these trees. */
  ghost function Page(c: Crypto, kids: seq<Tree<Bytes>>): Bytes
    decreases kids, 1
  {
    var b := EncodeManifest(Node(TreeLinks(c, kids), 1));
    if b.Some? then b.value else []
  }

  ghost predicate Stored(c: Crypto, t: Tree<Bytes>) {
    match t
    case Leaf(_) => true
    case Inner(kids) =>
      EncodeManifest(Node(TreeLinks(c, kids), 1)).Some? && forall k :: k in kids ==> Stored(c, k)
  }

  ghost predicate StoredAll(c: Crypto, kids: seq<Tree<Bytes>>) { forall k :: k in kids ==> Stored(c, k) }

  /** The plaintext behind the tree's own link. */
  ghost function Plain(c: Crypto, t: Tree<Bytes>): Bytes {
    match t
    case Leaf(data) => data
    case Inner(kids) => Page(c, kids)
  }

  /** Everything below is in the store. */
  ghost predicate Kept(c: Crypto, store: Store, t: Tree<Bytes>) {
    Holds(c, store, Plain(c, t)) && (t.Inner? ==> forall k :: k in t.kids ==> Kept(c, store, k))
  }

  ghost predicate KeptAll(c: Crypto, store: Store, kids: seq<Tree<Bytes>>) { forall k :: k in kids ==> Kept(c, store, k) }

  // ------------------------------------------------------------------
  // Measures of a tree

  /** What reading costs: manifests opened, requests made, bytes fetched. */
  datatype Cost = Cost(manifests: nat, fetches: nat, fetched: nat, blobs: set<Bytes>)

  function Plus(a: Cost, b: Cost): Cost {
    Cost(a.manifests + b.manifests, a.fetches + b.fetches, a.fetched + b.fetched, a.blobs + b.blobs)
  }

  ghost function CostOf(c: Crypto, t: Tree<Bytes>): Cost
    decreases t, 1
  {
    var own := Blob(c, Plain(c, t));
    match t
    case Leaf(_) => Cost(0, 1, |own|, {own})
    case Inner(kids) => Plus(Cost(1, 1, |own|, {own}), CostAll(c, kids))
  }

  ghost function CostAll(c: Crypto, kids: seq<Tree<Bytes>>): Cost
    decreases kids, 0
  {
    if kids == [] then Cost(0, 0, 0, {}) else Plus(CostOf(c, kids[0]), CostAll(c, kids[1..]))
  }

  /** No link repeats a name announced above it. */
  ghost predicate Acyclic(c: Crypto, t: Tree<Bytes>, active: set<Bytes>) {
    var h := BlobHash(c, Plain(c, t));
    h !in active && (t.Inner? ==> forall k :: k in t.kids ==> Acyclic(c, k, active + {h}))
  }

  ghost predicate AcyclicAll(c: Crypto, kids: seq<Tree<Bytes>>, active: set<Bytes>) {
    forall k :: k in kids ==> Acyclic(c, k, active)
  }

  ghost function Advance(st: State, cost: Cost, chunks: seq<Bytes>): State {
    st.(used := st.used + |Concat(chunks)|, parts := st.parts + chunks, manifests := st.manifests + cost.manifests,
        fetches := st.fetches + cost.fetches, fetched := st.fetched + cost.fetched, blobs := st.blobs + cost.blobs)
  }

  ghost predicate Roomy(limits: Limits, st: State, cost: Cost, size: nat) {
    && st.used + size <= limits.maxBytes
    && st.fetched + cost.fetched <= limits.maxFetched
    && st.manifests + cost.manifests <= limits.maxManifests
  }

  // ------------------------------------------------------------------
  // Sizes are exact

  lemma {:induction false} LinkSizeExact(c: Crypto, t: Tree<Bytes>)
    ensures TreeLink(c, t).s == |Concat(Fringe(t))|
    decreases t, 1
  {
    match t {
      case Leaf(data) => ConcatOne(data);
      case Inner(kids) => LinkSizesExact(c, kids);
    }
  }

  lemma {:induction false} LinkSizesExact(c: Crypto, kids: seq<Tree<Bytes>>)
    ensures Sum(Sizes(TreeLinks(c, kids))) == |Concat(FringeAll(kids))|
    decreases kids, 0
  {
    if kids != [] {
      LinkSizeExact(c, kids[0]);
      LinkSizesExact(c, kids[1..]);
      ConcatSplit(Fringe(kids[0]), FringeAll(kids[1..]));
      var l := TreeLinks(c, kids);
      assert l[1..] == TreeLinks(c, kids[1..]);
      assert Sizes(l)[1..] == Sizes(l[1..]);
    }
  }

  // ------------------------------------------------------------------
  // Reading a stored tree

  lemma PageReadable(c: Crypto, kids: seq<Tree<Bytes>>)
    requires EncodeManifest(Node(TreeLinks(c, kids), 1)).Some?
    ensures DecodeManifest(Page(c, kids)) == Some(Node(TreeLinks(c, kids), 1))
    ensures NodeOK(Node(TreeLinks(c, kids), 1))
  {
    hide NodeOK, MetasEncodable, NodeBytes, DecodeManifest;
    var node := Node(TreeLinks(c, kids), 1);
    ManifestRoundTrip(node);
    assert NodeReadable(node);
    assert CanonLinks(node.l) == node.l;
  }

  lemma {:induction false} ReadForest(env: Env, store: Store, kids: seq<Tree<Bytes>>, depth: nat, st: State)
    requires env.fetch == FromStore(store) && Sound(env.c)
    requires StoredAll(env.c, kids) && KeptAll(env.c, store, kids)
    requires depth + HeightAll(kids) <= env.limits.maxDepth
    requires Roomy(env.limits, st, CostAll(env.c, kids), |Concat(FringeAll(kids))|)
    ensures var o := ReadLinks(env, TreeLinks(env.c, kids), depth, st);
            if AcyclicAll(env.c, kids, st.active)
            then o == Outcome(Done, Advance(st, CostAll(env.c, kids), FringeAll(kids)))
            else o.status == Failed(Cycle)
    decreases kids, 0
  {
    hide ReadLink, Stored, Kept, Acyclic, Advance, Plus, Fringe, CostOf, TreeLink, Height;
    var c := env.c;
    if kids == [] {
      AdvanceNone(st);
    } else {
      var t, more := kids[0], kids[1..];
      assert kids == [t] + more;
      ConcatSplit(Fringe(t), FringeAll(more));
      RoomyTwice(env.limits, st, CostOf(c, t), CostAll(c, more), Fringe(t), FringeAll(more));
      ReadTree(env, store, t, depth, st);
      assert TreeLinks(c, kids)[1..] == TreeLinks(c, more);
      if Acyclic(c, t, st.active) {
        ReadForest(env, store, more, depth, Advance(st, CostOf(c, t), Fringe(t)));
        AdvanceTwice(st, CostOf(c, t), CostAll(c, more), Fringe(t), FringeAll(more));
      }
    }
  }

  lemma AdvanceNone(st: State)
    ensures Advance(st, Cost(0, 0, 0, {}), []) == st
  {
    assert st.parts + [] == st.parts && st.blobs + {} == st.blobs;
  }

  lemma AdvanceTwice(st: State, x: Cost, y: Cost, a: seq<Bytes>, b: seq<Bytes>)
    ensures Advance(Advance(st, x, a), y, b) == Advance(st, Plus(x, y), a + b)
    ensures Advance(st, x, a).active == st.active
  {
    ConcatSplit(a, b);
    Associative(st.parts, a, b);
    assert st.blobs + x.blobs + y.blobs == st.blobs + (x.blobs + y.blobs);
  }

  lemma RoomyTwice(limits: Limits, st: State, x: Cost, y: Cost, a: seq<Bytes>, b: seq<Bytes>)
    requires Roomy(limits, st, Plus(x, y), |Concat(a + b)|)
    ensures Roomy(limits, st, x, |Concat(a)|) && Roomy(limits, Advance(st, x, a), y, |Concat(b)|)
    ensures Advance(st, x, a).active == st.active
  {
    ConcatSplit(a, b);
  }

  /** The state in which a stored plaintext is used. */
  ghost function Announced(c: Crypto, st: State, plain: Bytes): State {
    st.(active := st.active + {BlobHash(c, plain)}, fetches := st.fetches + 1,
        fetched := st.fetched + |Blob(c, plain)|, blobs := st.blobs + {Blob(c, plain)})
  }

  lemma ReadStoredLink(env: Env, store: Store, plain: Bytes, link: Link, depth: nat, st: State)
    requires env.fetch == FromStore(store) && Sound(env.c) && Holds(env.c, store, plain)
    requires link.h == BlobHash(env.c, plain) && link.k == BlobKey(env.c, plain)
    requires link.h !in st.active && st.fetched + |Blob(env.c, plain)| <= env.limits.maxFetched
    requires depth <= env.limits.maxDepth
    ensures ReadLink(env, link, depth, st)
         == if link.t == 1 then ReadChild(env, link, plain, depth, Announced(env.c, st, plain))
            else TakeChunk(env, link, plain, Announced(env.c, st, plain))
  {
    hide ReadChild, TakeChunk, Open;
    OpenBlob(env.c, plain, link);
  }

  lemma {:induction false} ReadTree(env: Env, store: Store, t: Tree<Bytes>, depth: nat, st: State)
    requires env.fetch == FromStore(store) && Sound(env.c)
    requires Stored(env.c, t) && Kept(env.c, store, t)
    requires depth + Height(t) <= env.limits.maxDepth
    requires Roomy(env.limits, st, CostOf(env.c, t), |Concat(Fringe(t))|)
    ensures var o := ReadLink(env, TreeLink(env.c, t), depth, st);
            if Acyclic(env.c, t, st.active)
            then o == Outcome(Done, Advance(st, CostOf(env.c, t), Fringe(t)))
            else o.status == Failed(Cycle)
    decreases t, 1
  {
    var c, link := env.c, TreeLink(env.c, t);
    if link.h !in st.active {
      hide DecodeManifest, EncodeManifest, ReadLink, ReadChild, NodeOK, Page, Blob, BlobHash, BlobKey;
      ReadStoredLink(env, store, Plain(c, t), link, depth, st);
      assert st.active + {link.h} - {link.h} == st.active;
      match t {
        case Leaf(data) => ConcatOne(data);
        case Inner(kids) => ReadInner(env, store, kids, depth, st);
      }
    } else {
      hide DecodeManifest, EncodeManifest, NodeOK, Page, Blob, BlobKey;
    }
  }

  lemma {:induction false} ReadInner(env: Env, store: Store, kids: seq<Tree<Bytes>>, depth: nat, st: State)
    requires env.fetch == FromStore(store) && Sound(env.c)
    requires Stored(env.c, Inner(kids)) && KeptAll(env.c, store, kids)
    requires depth + Height(Inner(kids)) <= env.limits.maxDepth
    requires Roomy(env.limits, st, CostOf(env.c, Inner(kids)), |Concat(FringeAll(kids))|)
    requires BlobHash(env.c, Page(env.c, kids)) !in st.active
    ensures var t := Inner(kids);
            var o := ReadChild(env, TreeLink(env.c, t), Page(env.c, kids), depth, Announced(env.c, st, Page(env.c, kids)));
            if Acyclic(env.c, t, st.active)
            then o == Outcome(Done, Advance(st, CostOf(env.c, t), Fringe(t)))
            else o.status == Failed(Cycle)
    decreases kids, 1
  {
    hide DecodeManifest, EncodeManifest, ReadLinks, NodeOK, Page, Blob, BlobHash, BlobKey, Kept;
    var c := env.c;
    var h, own := BlobHash(c, Page(c, kids)), Blob(c, Page(c, kids));
    PageReadable(c, kids);
    LinkSizesExact(c, kids);
    var announced := Announced(c, st, Page(c, kids));
    var below := announced.(manifests := announced.manifests + 1);
    ReadForest(env, store, kids, depth + 1, below);
    assert st.blobs + {own} + CostAll(c, kids).blobs == st.blobs + ({own} + CostAll(c, kids).blobs);
    assert st.active + {h} - {h} == st.active;
    assert Acyclic(c, Inner(kids), st.active) <==> AcyclicAll(c, kids, st.active + {h});
  }

  // ------------------------------------------------------------------
  // Every manifest of the tree encodes

  lemma {:induction false} ChunksPart(kids: seq<Tree<Bytes>>, t: Tree<Bytes>)
    requires t in kids
    ensures |Concat(Fringe(t))| <= |Concat(FringeAll(kids))|
  {
    hide Fringe;
    var more := kids[1..];
    assert kids == [kids[0]] + more;
    ConcatSplit(Fringe(kids[0]), FringeAll(more));
    if t != kids[0] {
      ChunksPart(more, t);
    }
  }

  lemma PageEncodes(c: Crypto, kids: seq<Tree<Bytes>>)
    requires |kids| <= 174 && |Concat(FringeAll(kids))| <= MAX_SAFE
    ensures EncodeManifest(Node(TreeLinks(c, kids), 1)).Some?
  {
    hide EncodeManifest, TreeLink, Fringe;
    var l := TreeLinks(c, kids);
    forall x | x in l ensures LinkOK(x, 1) && x.m == None {
      var i :| 0 <= i < |l| && l[i] == x;
      LinkSizeExact(c, kids[i]);
      ChunksPart(kids, kids[i]);
    }
    SmallNodeEncodes(Node(l, 1), 0);
  }

  lemma RunTotal(f: seq<Tree<Bytes>>, max: nat, i: nat)
    requires max > 0 && i < |Runs(f, max)|
    ensures |Concat(FringeAll(Runs(f, max)[i]))| <= |Concat(FringeAll(f))|
  {
    var r := InnerRuns(f, max);
    assert r[i] in r;
    ChunksPart(r, r[i]);
    FringeOfRuns(f, max);
  }

  lemma RunsStored(c: Crypto, f: seq<Tree<Bytes>>, max: nat)
    requires 2 <= max <= 174 && StoredAll(c, f) && |Concat(FringeAll(f))| <= MAX_SAFE
    ensures StoredAll(c, InnerRuns(f, max))
  {
    hide EncodeManifest;
    forall t | t in InnerRuns(f, max) ensures Stored(c, t) {
      var i :| 0 <= i < |Runs(f, max)| && t == Inner(Runs(f, max)[i]);
      var run := Runs(f, max)[i];
      RunTotal(f, max, i);
      PageEncodes(c, run);
      forall x | x in run ensures Stored(c, x) { RunMember(f, max, i, x); }
    }
  }

  lemma {:induction false} GrowStored(c: Crypto, f: seq<Tree<Bytes>>, max: nat)
    requires 2 <= max <= 174 && StoredAll(c, f) && |Concat(FringeAll(f))| <= MAX_SAFE
    ensures StoredAll(c, Grow(f, max)) && EncodeManifest(Node(TreeLinks(c, Grow(f, max)), 1)).Some?
    decreases |f|
  {
    hide EncodeManifest, Stored;
    GrowFringe(f, max);
    PageEncodes(c, Grow(f, max));
    if |f| > max {
      RunsCounted(f, max);
      RunsShrink(|f|, max);
      RunsStored(c, f, max);
      FringeOfRuns(f, max);
      GrowStored(c, InnerRuns(f, max), max);
    }
  }

  // ------------------------------------------------------------------
  // What the builder stores

  ghost function PagesOf(c: Crypto, runs: seq<seq<Tree<Bytes>>>): (r: seq<Bytes>)
    ensures |r| == |runs| && forall i :: 0 <= i < |r| ==> r[i] == Page(c, runs[i])
  {
    seq(|runs|, i requires 0 <= i < |runs| => Page(c, runs[i]))
  }

  /** The manifests in the order they are stored; the last one is the root. */
  ghost function Pages(c: Crypto, f: seq<Tree<Bytes>>, max: nat): (r: seq<Bytes>)
    requires max >= 2
    ensures |r| > 0 && r[|r| - 1] == Page(c, Grow(f, max))
    decreases |f|
  {
    if |f| <= max then [Page(c, f)]
    else
      RunsCounted(f, max);
      RunsShrink(|f|, max);
      PagesOf(c, Runs(f, max)) + Pages(c, InnerRuns(f, max), max)
  }

  lemma RunsKept(c: Crypto, store: Store, f: seq<Tree<Bytes>>, max: nat)
    requires max >= 2 && KeptAll(c, store, f)
    requires forall p :: p in PagesOf(c, Runs(f, max)) ==> Holds(c, store, p)
    ensures KeptAll(c, store, InnerRuns(f, max))
  {
    hide Page, Holds;
    forall t | t in InnerRuns(f, max) ensures Kept(c, store, t) {
      var i :| 0 <= i < |Runs(f, max)| && t == Inner(Runs(f, max)[i]);
      assert PagesOf(c, Runs(f, max))[i] in PagesOf(c, Runs(f, max));
      forall x | x in Runs(f, max)[i] ensures Kept(c, store, x) { RunMember(f, max, i, x); }
    }
  }

  lemma {:induction false} GrowKept(c: Crypto, store: Store, f: seq<Tree<Bytes>>, max: nat)
    requires max >= 2 && KeptAll(c, store, f)
    requires forall p :: p in Pages(c, f, max) ==> Holds(c, store, p)
    ensures KeptAll(c, store, Grow(f, max))
    decreases |f|
  {
    hide Page, Holds, Kept;
    if |f| > max {
      RunsCounted(f, max);
      RunsShrink(|f|, max);
      RunsKept(c, store, f, max);
      GrowKept(c, store, InnerRuns(f, max), max);
    }
  }

  // ------------------------------------------------------------------
  // Storing and reading back

  ghost function Root(c: Crypto, chunks: seq<Bytes>, max: nat): Node
    requires max >= 2
  {
    Node(TreeLinks(c, Grow(Leaves(chunks), max)), 1)
  }

  /** Everything buildFile and its caller put into the store. */
  ghost predicate FileStored(c: Crypto, store: Store, chunks: seq<Bytes>, max: nat)
    requires max >= 2
  {
    && (forall p :: p in chunks ==> Holds(c, store, p))
    && (forall p :: p in Pages(c, Leaves(chunks), max) ==> Holds(c, store, p))
  }

  ghost predicate FileLimits(limits: Limits, c: Crypto, chunks: seq<Bytes>, max: nat)
    requires max >= 2
  {
    && Levels(|chunks|, max) <= limits.maxDepth
    && Roomy(limits, START.(manifests := 1), CostAll(c, Grow(Leaves(chunks), max)), |Concat(chunks)|)
  }

  lemma ReadRoot(env: Env, store: Store, g: seq<Tree<Bytes>>)
    requires env.fetch == FromStore(store) && Sound(env.c)
    requires StoredAll(env.c, g) && KeptAll(env.c, store, g)
    requires EncodeManifest(Node(TreeLinks(env.c, g), 1)).Some? && HeightAll(g) <= env.limits.maxDepth
    requires Roomy(env.limits, START.(manifests := 1), CostAll(env.c, g), |Concat(FringeAll(g))|)
    ensures ReadFile(env, Node(TreeLinks(env.c, g), 1))
         == if AcyclicAll(env.c, g, {}) then Ok(Concat(FringeAll(g))) else Err(Cycle)
  {
    hide EncodeManifest, ReadLinks, NodeOK, StoredAll, KeptAll, Page, HeightAll, CostAll, AcyclicAll, FringeAll, TreeLinks;
    PageReadable(env.c, g);
    ReadForest(env, store, g, 0, START.(manifests := 1));
    assert [] + FringeAll(g) == FringeAll(g);
  }

  /** Reading a stored file gives its chunks in order, unless some manifest's
      name occurs inside its own expansion, and then the reader says so. */
  lemma FileRoundTrip(env: Env, store: Store, chunks: seq<Bytes>, max: nat)
    requires 2 <= max <= 174 && Sound(env.c) && env.fetch == FromStore(store)
    requires |Concat(chunks)| <= MAX_SAFE
    requires FileStored(env.c, store, chunks, max) && FileLimits(env.limits, env.c, chunks, max)
    ensures ReadFile(env, Root(env.c, chunks, max))
         == if AcyclicAll(env.c, Grow(Leaves(chunks), max), {}) then Ok(Concat(chunks)) else Err(Cycle)
  {
    hide EncodeManifest, ReadFile, StoredAll, KeptAll, Page, Holds, Grow, Levels, CostAll, AcyclicAll, TreeLinks, Pages, Roomy, Uniform, Height, HeightAll, Sound;
    var c, f := env.c, Leaves(chunks);
    FringeOfLeaves(chunks);
    GrowFringe(f, max);
    LeavesStored(c, store, chunks);
    GrowStored(c, f, max);
    GrowKept(c, store, f, max);
    LeavesUniform(chunks);
    GrowUniform(f, max, 0);
    UniformHeight(Grow(f, max), Levels(|chunks|, max));
    ReadRoot(env, store, Grow(f, max));
  }

  lemma LeavesStored(c: Crypto, store: Store, chunks: seq<Bytes>)
    requires forall p :: p in chunks ==> Holds(c, store, p)
    ensures StoredAll(c, Leaves(chunks)) && KeptAll(c, store, Leaves(chunks))
  {
    hide Holds;
    forall t | t in Leaves(chunks) ensures Stored(c, t) && Kept(c, store, t) {
      var i :| 0 <= i < |chunks| && t == Leaf(chunks[i]);
      assert chunks[i] in chunks;
    }
  }

  /** Up to 2^65 chunks fit the reader's depth of 64, whatever the fanout. */
  lemma DepthSuffices(n: nat, max: nat)
    requires max >= 2 && n <= Digits.Power(2, 65)
    ensures Levels(n, max) <= 64
  {
    hide Digits.Power;
    LevelsLeast(n, max, 64);
    PowerMono(2, max, 65);
  }
}
