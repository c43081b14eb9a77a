/** readFile of tinyclient/blossom-manifests.js: a bounded recursive walk over
    whatever a server answers. */
module FileRead {
  import opened Prelude
  import opened Manifest
  import opened Blobs

  datatype Limits = Limits(maxDepth: nat, maxBytes: nat, maxManifests: nat, maxFetched: nat)

  datatype Error =
    | TooDeep | Invalid | NotFile | TooManyManifests | Cycle | Unavailable | TooMuchFetched
    | HashMismatch | DecryptFailed | ChildMismatch | SizeMismatch | TooManyBytes

  datatype Status = Done | Failed(error: Error)

  /** The counters of one walk. `fetches` counts requests and `blobs` collects
      the blobs accepted; the program keeps neither. */
  datatype State = State(
    used: nat, fetched: nat, manifests: nat, active: set<Bytes>, parts: seq<Bytes>,
    fetches: nat, blobs: set<Bytes>)

  datatype Env = Env(c: Crypto, fetch: Fetch, limits: Limits)

  datatype Outcome = Outcome(status: Status, st: State)

  const START: State := State(0, 0, 0, {}, [], 0, {})

  ghost function ReadNode(env: Env, node: Node, depth: nat, st: State): Outcome
    requires depth <= env.limits.maxDepth + 1
    decreases 2 * (env.limits.maxDepth + 1 - depth) + 1, 0
  {
    if depth > env.limits.maxDepth then Outcome(Failed(TooDeep), st)
    else if !NodeOK(node) then Outcome(Failed(Invalid), st)
    else if node.t != 1 then Outcome(Failed(NotFile), st)
    else
      var next := st.(manifests := st.manifests + 1);
      if next.manifests > env.limits.maxManifests then Outcome(Failed(TooManyManifests), next)
      else ReadLinks(env, node.l, depth, next)
  }

  ghost function ReadLinks(env: Env, links: seq<Link>, depth: nat, st: State): Outcome
    requires depth <= env.limits.maxDepth
    decreases 2 * (env.limits.maxDepth + 1 - depth), |links|
  {
    if links == [] then Outcome(Done, st)
    else
      var first := ReadLink(env, links[0], depth, st);
      if first.status != Done then first else ReadLinks(env, links[1..], depth, first.st)
  }

  /** One link: announce it, fetch it, check its name, then read below it or
      take it as a chunk. */
  ghost function ReadLink(env: Env, link: Link, depth: nat, st: State): Outcome
    requires depth <= env.limits.maxDepth
    decreases 2 * (env.limits.maxDepth + 1 - depth), 0
  {
    if link.h in st.active then Outcome(Failed(Cycle), st)
    else
      var asked := st.(active := st.active + {link.h}, fetches := st.fetches + 1);
      match env.fetch(st.fetches, link.h)
      case None => Outcome(Failed(Unavailable), asked)
      case Some(raw) =>
        var got := asked.(fetched := asked.fetched + |raw|);
        if got.fetched > env.limits.maxFetched then Outcome(Failed(TooMuchFetched), got)
        else if env.c.sha(raw) != link.h then Outcome(Failed(HashMismatch), got)
        else
          var kept := got.(blobs := got.blobs + {raw});
          match Open(env.c, raw, link)
          case None => Outcome(Failed(DecryptFailed), kept)
          case Some(plain) =>
            if link.t == 1 then ReadChild(env, link, plain, depth, kept) else TakeChunk(env, link, plain, kept)
  }

  ghost function ReadChild(env: Env, link: Link, plain: Bytes, depth: nat, st: State): Outcome
    requires depth <= env.limits.maxDepth
    decreases 2 * (env.limits.maxDepth + 1 - depth) - 1, 1
  {
    match DecodeManifest(plain)
    case None => Outcome(Failed(Invalid), st)
    case Some(child) =>
      if child.t != 1 then Outcome(Failed(ChildMismatch), st)
      else
        var below := ReadNode(env, child, depth + 1, st);
        if below.status != Done then below
        else if below.st.used - st.used != link.s then Outcome(Failed(SizeMismatch), below.st)
        else Outcome(Done, below.st.(active := below.st.active - {link.h}))
  }

  function TakeChunk(env: Env, link: Link, data: Bytes, st: State): Outcome {
    if |data| != link.s then Outcome(Failed(SizeMismatch), st)
    else
      var next := st.(used := st.used + |data|);
      if next.used > env.limits.maxBytes then Outcome(Failed(TooManyBytes), next)
      else Outcome(Done, next.(parts := next.parts + [data], active := next.active - {link.h}))
  }

  ghost function ReadFile(env: Env, root: Node): Result<Bytes, Error> {
    var o := ReadNode(env, root, 0, START);
    if o.status == Done then Ok(Concat(o.st.parts)) else Err(o.status.error)
  }

  // ------------------------------------------------------------------
  // Any server: bounds

  /** Manifests that got past the limit check. */
  function Counted(limits: Limits, st: State): nat {
    if st.manifests > limits.maxManifests then limits.maxManifests else st.manifests
  }

  /** Every walk, successful or not, stays within these bounds of its start. */
  ghost predicate Bounded(limits: Limits, st: State, o: Outcome, extra: nat) {
    && st.manifests <= o.st.manifests
    && Counted(limits, st) <= Counted(limits, o.st)
    && o.st.fetches <= st.fetches + extra + MAX_LINKS * (Counted(limits, o.st) - Counted(limits, st))
    && st.blobs <= o.st.blobs
    && (o.status == Done ==> o.st.manifests <= limits.maxManifests)
  }

  lemma {:induction false} NodeBounded(env: Env, node: Node, depth: nat, st: State)
    requires depth <= env.limits.maxDepth + 1 && st.manifests <= env.limits.maxManifests
    ensures Bounded(env.limits, st, ReadNode(env, node, depth, st), 0)
    decreases 2 * (env.limits.maxDepth + 1 - depth) + 1, 0
  {
    hide NodeOK;
    if depth <= env.limits.maxDepth && NodeOK(node) && node.t == 1 {
      var next := st.(manifests := st.manifests + 1);
      if next.manifests <= env.limits.maxManifests {
        LinksBounded(env, node.l, depth, next);
        AtMostMaxLinks(node);
      }
    }
  }

  lemma {:induction false} LinksBounded(env: Env, links: seq<Link>, depth: nat, st: State)
    requires depth <= env.limits.maxDepth && st.manifests <= env.limits.maxManifests
    ensures Bounded(env.limits, st, ReadLinks(env, links, depth, st), |links|)
    decreases 2 * (env.limits.maxDepth + 1 - depth), |links|
  {
    if links != [] {
      LinkBounded(env, links[0], depth, st);
      var first := ReadLink(env, links[0], depth, st);
      if first.status == Done {
        LinksBounded(env, links[1..], depth, first.st);
      }
    }
  }

  lemma {:induction false} LinkBounded(env: Env, link: Link, depth: nat, st: State)
    requires depth <= env.limits.maxDepth && st.manifests <= env.limits.maxManifests
    ensures Bounded(env.limits, st, ReadLink(env, link, depth, st), 1)
    decreases 2 * (env.limits.maxDepth + 1 - depth), 0
  {
    hide DecodeManifest, Open;
    if Accepted(env, link, st) && link.t == 1 {
      var plain := Open(env.c, env.fetch(st.fetches, link.h).value, link).value;
      if DecodeManifest(plain).Some? && DecodeManifest(plain).value.t == 1 {
        NodeBounded(env, DecodeManifest(plain).value, depth + 1, After(env, link, st));
      }
    }
  }

  /** The link's blob arrived, has the right name and could be opened. */
  ghost predicate Accepted(env: Env, link: Link, st: State) {
    && link.h !in st.active
    && env.fetch(st.fetches, link.h).Some?
    && var raw := env.fetch(st.fetches, link.h).value;
       st.fetched + |raw| <= env.limits.maxFetched && env.c.sha(raw) == link.h && Open(env.c, raw, link).Some?
  }

  /** The state in which an accepted blob is used. */
  ghost function After(env: Env, link: Link, st: State): State
    requires Accepted(env, link, st)
  {
    var raw := env.fetch(st.fetches, link.h).value;
    st.(active := st.active + {link.h}, fetches := st.fetches + 1, fetched := st.fetched + |raw|, blobs := st.blobs + {raw})
  }

  /** At most 174 requests for every manifest the limit allows, whatever the
      server answers and however the walk ends. */
  lemma ReadFileBounded(env: Env, root: Node)
    ensures ReadNode(env, root, 0, START).st.fetches <= 174 * env.limits.maxManifests
  {
    hide ReadNode;
    NodeBounded(env, root, 0, START);
    var o := ReadNode(env, root, 0, START);
    Scale(Counted(env.limits, o.st), env.limits.maxManifests);
  }

  // ------------------------------------------------------------------
  // Any server: what success means

  function Sizes(links: seq<Link>): (r: seq<int>)
    ensures |r| == |links| && forall i :: 0 <= i < |links| ==> r[i] == links[i].s
  {
    seq(|links|, i requires 0 <= i < |links| => links[i].s)
  }

  /** A finished walk added bytes of exactly this total size, within the limits,
      and left nothing announced. */
  ghost predicate Added(limits: Limits, st: State, after: State, size: int) {
    && st.parts <= after.parts
    && after.used == st.used + size == st.used + |Concat(after.parts[|st.parts|..])|
    && (after.used == st.used || after.used <= limits.maxBytes)
    && (after.fetched == st.fetched || after.fetched <= limits.maxFetched)
    && after.active == st.active
  }

  lemma {:induction false} NodeSuccess(env: Env, node: Node, depth: nat, st: State)
    requires depth <= env.limits.maxDepth + 1 && ReadNode(env, node, depth, st).status == Done
    ensures Added(env.limits, st, ReadNode(env, node, depth, st).st, Sum(Sizes(node.l)))
    ensures NodeOK(node) && node.t == 1 && depth <= env.limits.maxDepth
    decreases 2 * (env.limits.maxDepth + 1 - depth) + 1, 0
  {
    hide NodeOK;
    LinksSuccess(env, node.l, depth, st.(manifests := st.manifests + 1));
  }

  lemma {:induction false} LinksSuccess(env: Env, links: seq<Link>, depth: nat, st: State)
    requires depth <= env.limits.maxDepth && ReadLinks(env, links, depth, st).status == Done
    ensures Added(env.limits, st, ReadLinks(env, links, depth, st).st, Sum(Sizes(links)))
    decreases 2 * (env.limits.maxDepth + 1 - depth), |links|
  {
    hide ReadLink;
    if links == [] {
      assert st.parts[|st.parts|..] == [];
    } else {
      var mid := ReadLink(env, links[0], depth, st).st;
      LinkSuccess(env, links[0], depth, st);
      LinksSuccess(env, links[1..], depth, mid);
      assert Sizes(links)[1..] == Sizes(links[1..]);
      AddedTwice(env.limits, st, mid, ReadLinks(env, links[1..], depth, mid).st, links[0].s, Sum(Sizes(links[1..])));
    }
  }

  lemma AddedTwice(limits: Limits, a: State, b: State, c: State, x: int, y: int)
    requires Added(limits, a, b, x) && Added(limits, b, c, y)
    ensures Added(limits, a, c, x + y)
  {
    var p, q := b.parts[|a.parts|..], c.parts[|b.parts|..];
    assert c.parts[|a.parts|..] == p + q;
    ConcatSplit(p, q);
  }

  lemma {:induction false} LinkSuccess(env: Env, link: Link, depth: nat, st: State)
    requires depth <= env.limits.maxDepth && ReadLink(env, link, depth, st).status == Done
    ensures Added(env.limits, st, ReadLink(env, link, depth, st).st, link.s)
    ensures Accepted(env, link, st)
    decreases 2 * (env.limits.maxDepth + 1 - depth), 0
  {
    hide DecodeManifest, Open;
    var after := After(env, link, st);
    var plain := Open(env.c, env.fetch(st.fetches, link.h).value, link).value;
    assert st.active + {link.h} - {link.h} == st.active;
    if link.t == 1 {
      NodeSuccess(env, DecodeManifest(plain).value, depth + 1, after);
    } else {
      assert (st.parts + [plain])[|st.parts|..] == [plain];
      ConcatOne(plain);
    }
  }

  /** A file that was read has the size its root claims, within the limit. */
  lemma ReadFileSuccess(env: Env, root: Node)
    requires ReadFile(env, root).Ok?
    ensures |ReadFile(env, root).value| == Sum(Sizes(root.l)) <= env.limits.maxBytes
  {
    hide ReadNode;
    NodeSuccess(env, root, 0, START);
    var o := ReadNode(env, root, 0, START);
    assert o.st.parts[0..] == o.st.parts;
  }

  // ------------------------------------------------------------------
  // Two servers

  ghost predicate SameNews(a: State, a': State, b: State, b': State) {
    && a.parts <= a'.parts && b.parts <= b'.parts
    && a'.parts[|a.parts|..] == b'.parts[|b.parts|..]
  }

  /** Two walks over the same links that both finish add the same bytes, unless
      the two servers together showed a collision. */
  lemma {:induction false} LinksAgree(e: Env, f: Env, links: seq<Link>, depth: nat, a: State, b: State)
    requires e.c == f.c && depth <= e.limits.maxDepth && depth <= f.limits.maxDepth
    requires a.manifests <= e.limits.maxManifests && b.manifests <= f.limits.maxManifests
    requires ReadLinks(e, links, depth, a).status == Done && ReadLinks(f, links, depth, b).status == Done
    requires NoCollision(e.c, ReadLinks(e, links, depth, a).st.blobs + ReadLinks(f, links, depth, b).st.blobs)
    ensures SameNews(a, ReadLinks(e, links, depth, a).st, b, ReadLinks(f, links, depth, b).st)
    decreases 2 * (e.limits.maxDepth + 1 - depth), |links|
  {
    hide ReadLink;
    if links == [] {
      assert a.parts[|a.parts|..] == [] && b.parts[|b.parts|..] == [];
    } else {
      var a1, b1 := ReadLink(e, links[0], depth, a).st, ReadLink(f, links[0], depth, b).st;
      LinkBounded(e, links[0], depth, a);
      LinkBounded(f, links[0], depth, b);
      LinksBounded(e, links[1..], depth, a1);
      LinksBounded(f, links[1..], depth, b1);
      LinksAgree(e, f, links[1..], depth, a1, b1);
      LinkAgrees(e, f, links[0], depth, a, b);
      NewsTwice(a, a1, ReadLinks(e, links[1..], depth, a1).st, b, b1, ReadLinks(f, links[1..], depth, b1).st);
    }
  }

  lemma NewsTwice(a: State, a1: State, a2: State, b: State, b1: State, b2: State)
    requires SameNews(a, a1, b, b1) && SameNews(a1, a2, b1, b2)
    ensures SameNews(a, a2, b, b2)
  {
    assert a2.parts[|a.parts|..] == a1.parts[|a.parts|..] + a2.parts[|a1.parts|..];
    assert b2.parts[|b.parts|..] == b1.parts[|b.parts|..] + b2.parts[|b1.parts|..];
  }

  lemma {:induction false} LinkAgrees(e: Env, f: Env, link: Link, depth: nat, a: State, b: State)
    requires e.c == f.c && depth <= e.limits.maxDepth && depth <= f.limits.maxDepth
    requires a.manifests <= e.limits.maxManifests && b.manifests <= f.limits.maxManifests
    requires ReadLink(e, link, depth, a).status == Done && ReadLink(f, link, depth, b).status == Done
    requires NoCollision(e.c, ReadLink(e, link, depth, a).st.blobs + ReadLink(f, link, depth, b).st.blobs)
    ensures SameNews(a, ReadLink(e, link, depth, a).st, b, ReadLink(f, link, depth, b).st)
    decreases 2 * (e.limits.maxDepth + 1 - depth), 0
  {
    hide DecodeManifest, Open;
    LinkSuccess(e, link, depth, a);
    LinkSuccess(f, link, depth, b);
    var raw, raw' := e.fetch(a.fetches, link.h).value, f.fetch(b.fetches, link.h).value;
    var a1, b1 := After(e, link, a), After(f, link, b);
    if link.t == 1 {
      var child := DecodeManifest(Open(e.c, raw, link).value).value;
      var child' := DecodeManifest(Open(f.c, raw', link).value).value;
      NodeBounded(e, child, depth + 1, a1);
      NodeBounded(f, child', depth + 1, b1);
      assert raw in a1.blobs && raw' in b1.blobs;
      assert raw == raw';
      NodeAgrees(e, f, child, depth + 1, a1, b1);
    } else {
      assert raw in a1.blobs && raw' in b1.blobs;
      assert raw == raw';
      var data := Open(e.c, raw, link).value;
      assert (a.parts + [data])[|a.parts|..] == [data] && (b.parts + [data])[|b.parts|..] == [data];
    }
  }

  lemma {:induction false} NodeAgrees(e: Env, f: Env, node: Node, depth: nat, a: State, b: State)
    requires e.c == f.c && depth <= e.limits.maxDepth + 1 && depth <= f.limits.maxDepth + 1
    requires a.manifests <= e.limits.maxManifests && b.manifests <= f.limits.maxManifests
    requires ReadNode(e, node, depth, a).status == Done && ReadNode(f, node, depth, b).status == Done
    requires NoCollision(e.c, ReadNode(e, node, depth, a).st.blobs + ReadNode(f, node, depth, b).st.blobs)
    ensures SameNews(a, ReadNode(e, node, depth, a).st, b, ReadNode(f, node, depth, b).st)
    decreases 2 * (e.limits.maxDepth + 1 - depth) + 1, 0
  {
    hide NodeOK;
    LinksAgree(e, f, node.l, depth, a.(manifests := a.manifests + 1), b.(manifests := b.manifests + 1));
  }

  /** A root manifest determines its file: any two servers and any limits that
      let the read finish give the same bytes, or exhibit a collision. */
  lemma ReadFileDetermined(e: Env, f: Env, root: Node)
    requires e.c == f.c && ReadFile(e, root).Ok? && ReadFile(f, root).Ok?
    requires NoCollision(e.c, ReadNode(e, root, 0, START).st.blobs + ReadNode(f, root, 0, START).st.blobs)
    ensures ReadFile(e, root).value == ReadFile(f, root).value
  {
    hide ReadNode;
    NodeAgrees(e, f, root, 0, START, START);
    var a, b := ReadNode(e, root, 0, START).st.parts, ReadNode(f, root, 0, START).st.parts;
    assert a[0..] == a && b[0..] == b;
  }
}
