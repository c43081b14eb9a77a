/** buildFile and readFile of tinyclient/blossom-manifests.js as they run:
    loops over levels and links, counters and a set of announced names. */
module FileIO {
  import opened Prelude
  import opened Manifest
  import opened Blobs
  import opened FileRead
  import opened FileBuild
  import opened Grouping
  import opened Forest
  import ManifestIO
  import opened MsgPack

  datatype BuildError = InvalidMaxLinks | InvalidChunkSize | NotEncodable

  datatype Built = Built(root: Node, manifests: seq<Bytes>)

  function SumSizes(l: seq<Link>): int { Sum(Sizes(l)) }

  /** storeNode: encodes a manifest, records it and links to it. */
  method StoreNode(c: Crypto, group: seq<Link>, ghost kids: seq<Tree<Bytes>>) returns (r: Option<(Bytes, Link)>)
    requires group == TreeLinks(c, kids)
    ensures r.Some? <==> EncodeManifest(Node(group, 1)).Some?
    ensures r.Some? ==> r.value.0 == Page(c, kids) && r.value.1 == TreeLink(c, Inner(kids))
  {
    hide EncodeManifest;
    assert ManifestIO.MetasPlain(group);
    var out := ManifestIO.Encode(Node(group, 1));
    if out == None {
      return None;
    }
    var page := out.value;
    return Some((page, Link(BlobHash(c, page), BlobKey(c, page), None, None, SumSizes(group), 1)));
  }

  ghost function Inners(runs: seq<seq<Tree<Bytes>>>): (r: seq<Tree<Bytes>>)
    ensures |r| == |runs| && forall i :: 0 <= i < |r| ==> r[i] == Inner(runs[i])
  {
    seq(|runs|, i requires 0 <= i < |runs| => Inner(runs[i]))
  }

  lemma InnersOfRuns(f: seq<Tree<Bytes>>, max: nat)
    requires max > 0
    ensures Inners(Runs(f, max)) == InnerRuns(f, max)
  {}

  lemma OneMore(c: Crypto, done: seq<seq<Tree<Bytes>>>, run: seq<Tree<Bytes>>)
    ensures TreeLinks(c, Inners(done + [run])) == TreeLinks(c, Inners(done)) + [TreeLink(c, Inner(run))]
    ensures PagesOf(c, done + [run]) == PagesOf(c, done) + [Page(c, run)]
  {
    hide TreeLink, Page;
    assert Inners(done + [run]) == Inners(done) + [Inner(run)];
  }

  lemma SliceLinks(c: Crypto, f: seq<Tree<Bytes>>, i: nat, j: nat)
    requires i <= j <= |f|
    ensures TreeLinks(c, f)[i..j] == TreeLinks(c, f[i..j])
  {
    hide TreeLink;
  }

  /** One level of the tree: runs of at most `max` links, each under a manifest
      of its own. */
  method BuildLevel(c: Crypto, level: seq<Link>, max: nat, ghost f: seq<Tree<Bytes>>)
    returns (r: Option<(seq<Link>, seq<Bytes>)>)
    requires max > 0 && level == TreeLinks(c, f)
    ensures r.Some? ==> r.value.0 == TreeLinks(c, InnerRuns(f, max)) && r.value.1 == PagesOf(c, Runs(f, max))
    ensures max <= 174 && |Concat(FringeAll(f))| <= MAX_SAFE ==> r.Some?
  {
    hide EncodeManifest, TreeLink, TreeLinks, Page, PagesOf, Cut, Runs, Inners, FringeAll, Concat;
    var next, pages: seq<Bytes> := [], [];
    var i := 0;
    ghost var done: seq<seq<Tree<Bytes>>> := [];
    CutStart(f, max);
    while i < |level|
      invariant i <= |level| && Cut(f, max, i, done)
      invariant next == TreeLinks(c, Inners(done)) && pages == PagesOf(c, done)
    {
      var j := if i + max < |level| then i + max else |level|;
      CutNext(f, max, i, done, j);
      ghost var run := f[i..j];
      SliceLinks(c, f, i, j);
      if max <= 174 && |Concat(FringeAll(f))| <= MAX_SAFE {
        RunTotal(f, max, |done|);
        PageEncodes(c, run);
      }
      var stored := StoreNode(c, level[i..j], run);
      if stored == None {
        return None;
      }
      next, pages, i := next + [stored.value.1], pages + [stored.value.0], j;
      OneMore(c, done, run);
      done := done + [run];
    }
    CutDone(f, max, done);
    InnersOfRuns(f, max);
    return Some((next, pages));
  }

  /** buildFile: the root manifest and every stored manifest, in order. */
  method BuildFile(c: Crypto, leaves: seq<Link>, max: int, ghost chunks: seq<Bytes>)
    returns (r: Result<Built, BuildError>)
    requires leaves == TreeLinks(c, Leaves(chunks))
    ensures !(2 <= max <= 174) ==> r == Err(InvalidMaxLinks)
    ensures 2 <= max <= 174 && (exists x :: x in leaves && x.s > 2097152) ==> r == Err(InvalidChunkSize)
    ensures 2 <= max <= 174 && (forall x :: x in leaves ==> x.s <= 2097152) && |Concat(chunks)| <= MAX_SAFE ==> r.Ok?
    ensures r.Ok? ==> r.value == Built(Root(c, chunks, max), Pages(c, Leaves(chunks), max))
  {
    hide EncodeManifest, TreeLink, TreeLinks, Page, Grow, Pages, Runs, Fringe, FringeAll, InnerRuns;
    if max < 2 || max > MAX_LINKS {
      return Err(InvalidMaxLinks);
    }
    if exists x :: x in leaves && (x.s < 0 || x.s > CHUNK_SIZE) {
      LeafSizes(c, chunks);
      return Err(InvalidChunkSize);
    }
    var level, manifests: seq<Bytes> := leaves, [];
    ghost var f := Leaves(chunks);
    FringeOfLeaves(chunks);
    while |level| > max
      invariant level == TreeLinks(c, f) && FringeAll(f) == chunks
      invariant Grow(f, max) == Grow(Leaves(chunks), max)
      invariant Pages(c, Leaves(chunks), max) == manifests + Pages(c, f, max)
      decreases |level|
    {
      var stored := BuildLevel(c, level, max, f);
      if stored == None {
        return Err(NotEncodable);
      }
      GrowStep(c, f, max);
      Associative(manifests, PagesOf(c, Runs(f, max)), Pages(c, InnerRuns(f, max), max));
      level, manifests := stored.value.0, manifests + stored.value.1;
      f := InnerRuns(f, max);
    }
    if |Concat(chunks)| <= MAX_SAFE {
      PageEncodes(c, f);
    }
    GrowEnd(c, f, max);
    var stored := StoreNode(c, level, f);
    if stored == None {
      return Err(NotEncodable);
    }
    return Ok(Built(Node(level, 1), manifests + [stored.value.0]));
  }

  lemma LeafSizes(c: Crypto, chunks: seq<Bytes>)
    ensures forall x :: x in TreeLinks(c, Leaves(chunks)) ==> x.s >= 0
  {}

  lemma GrowStep(c: Crypto, f: seq<Tree<Bytes>>, max: nat)
    requires max >= 2 && |f| > max
    ensures |InnerRuns(f, max)| < |f|
    ensures Grow(f, max) == Grow(InnerRuns(f, max), max)
    ensures Pages(c, f, max) == PagesOf(c, Runs(f, max)) + Pages(c, InnerRuns(f, max), max)
    ensures FringeAll(InnerRuns(f, max)) == FringeAll(f)
  {
    hide Page, Fringe, FringeAll;
    RunsCounted(f, max);
    RunsShrink(|f|, max);
    FringeOfRuns(f, max);
  }

  lemma GrowEnd(c: Crypto, f: seq<Tree<Bytes>>, max: nat)
    requires max >= 2 && |f| <= max
    ensures Grow(f, max) == f && Pages(c, f, max) == [Page(c, f)]
  {}

  // ------------------------------------------------------------------
  // Reading

  /** The counters one readFile call closes over. */
  class Walk {
    var used: nat
    var fetched: nat
    var manifests: nat
    var active: set<Bytes>
    var parts: seq<Bytes>
    var fetches: nat
    ghost var blobs: set<Bytes>

    ghost function View(): State
      reads this
    {
      State(used, fetched, manifests, active, parts, fetches, blobs)
    }

    constructor ()
      ensures View() == START
    {
      used, fetched, manifests, active, parts, fetches, blobs := 0, 0, 0, {}, [], 0, {};
    }
  }

  method WalkNode(env: Env, w: Walk, node: Node, depth: nat) returns (status: Status)
    requires depth <= env.limits.maxDepth + 1
    modifies w
    ensures Outcome(status, w.View()) == ReadNode(env, node, depth, old(w.View()))
    decreases 2 * (env.limits.maxDepth + 1 - depth) + 1
  {
    hide NodeOK, ReadLink;
    if depth > env.limits.maxDepth {
      return Failed(TooDeep);
    }
    if !NodeOK(node) {
      return Failed(Invalid);
    }
    if node.t != 1 {
      return Failed(NotFile);
    }
    w.manifests := w.manifests + 1;
    if w.manifests > env.limits.maxManifests {
      return Failed(TooManyManifests);
    }
    ghost var start := w.View();
    assert node.l[0..] == node.l;
    for i := 0 to |node.l|
      invariant ReadLinks(env, node.l, depth, start) == ReadLinks(env, node.l[i..], depth, w.View())
    {
      assert node.l[i..][0] == node.l[i] && node.l[i..][1..] == node.l[i + 1..];
      status := WalkLink(env, w, node.l[i], depth);
      if status != Done {
        return;
      }
    }
    return Done;
  }

  method WalkLink(env: Env, w: Walk, link: Link, depth: nat) returns (status: Status)
    requires depth <= env.limits.maxDepth
    modifies w
    ensures Outcome(status, w.View()) == ReadLink(env, link, depth, old(w.View()))
    decreases 2 * (env.limits.maxDepth + 1 - depth)
  {
    hide NodeOK, DecodeManifest, Open, ReadNode;
    if link.h in w.active {
      return Failed(Cycle);
    }
    w.active := w.active + {link.h};
    var answer := env.fetch(w.fetches, link.h);
    w.fetches := w.fetches + 1;
    if answer == None {
      return Failed(Unavailable);
    }
    var raw := answer.value;
    w.fetched := w.fetched + |raw|;
    if w.fetched > env.limits.maxFetched {
      return Failed(TooMuchFetched);
    }
    if env.c.sha(raw) != link.h {
      return Failed(HashMismatch);
    }
    w.blobs := w.blobs + {raw};
    var plain := Open(env.c, raw, link);
    if plain == None {
      return Failed(DecryptFailed);
    }
    if link.t == 1 {
      var child := ManifestIO.Decode(plain.value);
      if child == None {
        return Failed(Invalid);
      }
      if child.value.t != 1 {
        return Failed(ChildMismatch);
      }
      var before := w.used;
      status := WalkNode(env, w, child.value, depth + 1);
      if status != Done {
        return;
      }
      if w.used - before != link.s {
        return Failed(SizeMismatch);
      }
    } else {
      var data := plain.value;
      if |data| != link.s {
        return Failed(SizeMismatch);
      }
      w.used := w.used + |data|;
      if w.used > env.limits.maxBytes {
        return Failed(TooManyBytes);
      }
      w.parts := w.parts + [data];
    }
    w.active := w.active - {link.h};
    return Done;
  }

  /** readFile: walks, then copies the parts into one buffer. */
  method ReadWhole(env: Env, root: Node) returns (r: Result<Bytes, Error>)
    ensures r == ReadFile(env, root)
  {
    hide ReadNode;
    var w := new Walk();
    var status := WalkNode(env, w, root, 0);
    if status != Done {
      return Err(status.error);
    }
    var out: Bytes, parts := [], w.parts;
    assert parts[..0] == [];
    for i := 0 to |parts|
      invariant out == Concat(parts[..i])
    {
      ConcatSnoc(parts[..i], parts[i]);
      assert parts[..i + 1] == parts[..i] + [parts[i]];
      out := out + parts[i];
    }
    assert parts[..|parts|] == parts;
    return Ok(out);
  }
}
