/** Multipart uploads of tinyclient/blossom-upload.js (BUD-14): the request
    plan, the retry loop, the remembered chunks and the two passes, against
    any replies, any clock and any prior state. */
module Upload {
  import opened Prelude
  import opened Grouping

  datatype Descriptor = Descriptor(sha256: string, size: nat)

  /** No answer at all, or a status and the descriptor that came with it. */
  datatype Reply = Lost | Answer(status: nat, descriptor: Option<Descriptor>)

  datatype Method = Patch | Put

  /** A PATCH request for one chunk, or a PUT of the whole blob. */
  datatype Request = Request(verb: Method, offset: nat, body: Bytes)

  datatype Target = Target(hash: string, bytes: Bytes, chunkSize: nat, url: string, mime: string)

  /** What an upload remembers of its target. */
  datatype Meta = Meta(hash: string, size: nat, chunkSize: nat, url: string, mime: string, lastAcceptedAt: int)

  datatype Error = Aborted | RequestFailed | ChunkRejected(status: nat) | BadDescriptor | Incomplete

  // ------------------------------------------------------------------
  // The plan

  /** The chunks of an upload; an empty blob is one empty chunk. */
  function Slices(bytes: Bytes, size: nat): (r: seq<Bytes>)
    requires size > 0
    ensures r != []
  {
    if bytes == [] then [[]] else Runs(bytes, size)
  }

  function Times(i: nat, n: nat): nat { i * n }

  /** One request for each chunk, at the chunk's offset. */
  function Requests(t: Target): (r: seq<Request>)
    requires t.chunkSize > 0
    ensures |r| == |Slices(t.bytes, t.chunkSize)|
    ensures forall i :: 0 <= i < |r| ==> r[i] == Request(Patch, Times(i, t.chunkSize), Slices(t.bytes, t.chunkSize)[i])
  {
    var s := Slices(t.bytes, t.chunkSize);
    seq(|s|, i requires 0 <= i < |s| => Request(Patch, Times(i, t.chunkSize), s[i]))
  }

  /** Put together in order, the chunks are the blob, each at its offset. */
  lemma {:induction false} SlicesJoin(bytes: Bytes, size: nat)
    requires size > 0
    ensures Concat(Slices(bytes, size)) == bytes
  {
    if bytes == [] {
      var none: Bytes := [];
      ConcatOne(none);
    } else {
      RunsConcat(bytes, size);
    }
  }

  lemma RequestAt(t: Target, i: nat)
    requires t.chunkSize > 0 && i < |Requests(t)|
    ensures var offset := Times(i, t.chunkSize);
      offset <= |t.bytes| && (offset < |t.bytes| || |t.bytes| == 0)
      && Requests(t)[i].body == t.bytes[offset..if offset + t.chunkSize < |t.bytes| then offset + t.chunkSize else |t.bytes|]
  {
    if |t.bytes| > 0 {
      RunAt(t.bytes, t.chunkSize, i);
      assert (i + 1) * t.chunkSize == i * t.chunkSize + t.chunkSize;
    }
  }

  lemma RequestCount(t: Target, i: nat)
    requires t.chunkSize > 0
    ensures |t.bytes| > 0 ==> (i < |Requests(t)| <==> i * t.chunkSize < |t.bytes|)
  {
    if |t.bytes| > 0 {
      RunsCounted(t.bytes, t.chunkSize);
      RunCountBound(|t.bytes|, t.chunkSize, i);
    }
  }

  /** plan: the request list of an upload. */
  method Plan(t: Target) returns (requests: seq<Request>)
    requires t.chunkSize > 0
    ensures requests == Requests(t)
  {
    hide Slices, Requests, Times;
    requests := [];
    var offset := 0;
    PlanStart(t);
    while offset < |t.bytes| || (|t.bytes| == 0 && offset == 0)
      invariant |requests| <= |Requests(t)| && requests == Requests(t)[..|requests|]
      invariant offset == Times(|requests|, t.chunkSize)
      invariant (offset < |t.bytes| || (|t.bytes| == 0 && offset == 0)) <==> |requests| < |Requests(t)|
      decreases |Requests(t)| - |requests|
    {
      ghost var i := |requests|;
      RequestAt(t, i);
      NextOffset(t, i);
      var end := if offset + t.chunkSize < |t.bytes| then offset + t.chunkSize else |t.bytes|;
      RequestIs(t, i, Request(Patch, offset, t.bytes[offset..end]));
      requests := requests + [Request(Patch, offset, t.bytes[offset..end])];
      offset := offset + t.chunkSize;
    }
  }

  lemma PlanStart(t: Target)
    requires t.chunkSize > 0
    ensures |Requests(t)| > 0 && Times(0, t.chunkSize) == 0
  {}

  // ------------------------------------------------------------------
  // Servers

  /** A server answers the last request of a history. */
  type Server = seq<Request> -> Reply

  predicate Accepts(a: Reply) { a.Answer? && (a.status == 200 || a.status == 201 || a.status == 204) }

  predicate Completes(a: Reply) { Accepts(a) && a.status != 204 }

  predicate Retryable(a: Reply) { a.Lost? || a.status >= 500 }

  predicate Matches(d: Option<Descriptor>, t: Target) { d == Some(Descriptor(t.hash, |t.bytes|)) }

  function Repeated(q: Request, k: nat): (r: seq<Request>)
    ensures |r| == k && forall x :: x in r ==> x == q
  {
    seq(k, i => q)
  }

  /** Within n + 1 tries of the same request, one is accepted. */
  ghost predicate Tolerable(server: Server, h: seq<Request>, q: Request, n: nat)
    decreases n
  {
    var a := server(h + [q]);
    Accepts(a) || (Retryable(a) && n > 0 && Tolerable(server, h + [q], q, n - 1))
  }

  /** From this history on, every chunk is accepted within the retries, and a
      completed upload is described truthfully. */
  ghost predicate Patient(server: Server, base: seq<Request>, t: Target, retries: nat)
    requires t.chunkSize > 0
  {
    && (forall h, q :: base <= h && q in Requests(t) ==> Tolerable(server, h, q, retries))
    && forall h :: base <= h && Completes(server(h)) ==> Matches(server(h).descriptor, t)
  }

  /** The offsets accepted since a moment. */
  ghost function AcceptedSince(server: Server, base: nat, h: seq<Request>): set<nat> {
    set i | base <= i < |h| && Accepts(server(h[..i + 1])) :: h[i].offset
  }

  ghost function AllOffsets(t: Target): set<nat>
    requires t.chunkSize > 0
  {
    set q | q in Requests(t) :: q.offset
  }

  /** From this moment the server keeps what it accepts: when nothing is missing
      any more, accepting means completing. */
  ghost predicate Keeps(server: Server, base: seq<Request>, t: Target)
    requires t.chunkSize > 0
  {
    forall h :: base < h && Accepts(server(h)) && AllOffsets(t) <= AcceptedSince(server, |base|, h) ==> Completes(server(h))
  }

  lemma AcceptedGrows(server: Server, base: nat, h: seq<Request>, more: seq<Request>)
    requires base <= |h|
    ensures AcceptedSince(server, base, h) <= AcceptedSince(server, base, h + more)
  {
    var l := h + more;
    forall i | base <= i < |h| && Accepts(server(h[..i + 1])) ensures h[i].offset in AcceptedSince(server, base, l) {
      assert l[..i + 1] == h[..i + 1] && l[i] == h[i];
    }
  }

  lemma LastAccepted(server: Server, base: nat, h: seq<Request>, q: Request)
    requires base < |h| && h[|h| - 1] == q && Accepts(server(h))
    ensures q.offset in AcceptedSince(server, base, h)
  {
    var i := |h| - 1;
    assert h[..i + 1] == h;
  }

  // ------------------------------------------------------------------
  // The uploader

  function WholeRequest(t: Target): Request { Request(Put, 0, t.bytes) }

  /** A server that accepts the blob within the retries, and describes it
      truthfully when it does. */
  ghost predicate Takes(server: Server, base: seq<Request>, t: Target, retries: nat) {
    && Tolerable(server, base, WholeRequest(t), retries)
    && forall h :: base < h && Accepts(server(h)) ==> Completes(server(h)) && Matches(server(h).descriptor, t)
  }

  /** Everything sent since is a request of the plan. */
  ghost predicate FromPlan(base: seq<Request>, h: seq<Request>, t: Target)
    requires t.chunkSize > 0
  {
    base <= h && forall q :: q in h[|base|..] ==> q in Requests(t)
  }

  /** Chunks skipped since were recorded as accepted in this state. */
  ghost predicate Remembered(state: map<int, nat>, before: set<nat>, after: set<nat>) {
    before <= after && forall o :: o in after && o !in before ==> o in state && state[o] == 204
  }

  /** No chunk this state recorded as accepted was sent since. */
  ghost predicate NotAgain(state: map<int, nat>, base: seq<Request>, h: seq<Request>) {
    base <= h && forall q :: q in h[|base|..] ==> !(q.offset in state && state[q.offset] == 204)
  }

  ghost predicate SameFrom(a: map<int, nat>, b: map<int, nat>, offset: nat) {
    forall o :: o >= offset ==> (o in a <==> o in b) && (o in a ==> a[o] == b[o])
  }

  /** The first i chunks are recorded as accepted. */
  ghost predicate Acknowledged(t: Target, state: map<int, nat>, i: nat)
    requires t.chunkSize > 0 && i <= |Requests(t)|
  {
    forall j :: 0 <= j < i ==> Requests(t)[j].offset in state && state[Requests(t)[j].offset] == 204
  }

  /** The first i chunks were accepted since. */
  ghost predicate Arrived(t: Target, server: Server, base: nat, h: seq<Request>, i: nat)
    requires t.chunkSize > 0 && i <= |Requests(t)|
  {
    forall j :: 0 <= j < i ==> Requests(t)[j].offset in AcceptedSince(server, base, h)
  }

  lemma AcknowledgedMore(t: Target, state: map<int, nat>, i: nat, q: Request)
    requires t.chunkSize > 0 && i < |Requests(t)| && q == Requests(t)[i] && Acknowledged(t, state, i)
    ensures Acknowledged(t, state[q.offset := 204], i + 1)
    ensures q.offset in state && state[q.offset] == 204 ==> Acknowledged(t, state, i + 1)
  {
    hide Requests;
  }

  lemma SkipRemembered(a: map<int, nat>, b: map<int, nat>, before: set<nat>, after: set<nat>, offset: nat)
    requires SameFrom(a, b, offset) && Remembered(a, before, after) && offset in b && b[offset] == 204
    ensures Remembered(a, before, after + {offset})
  {}

  lemma SameFurther(a: map<int, nat>, b: map<int, nat>, offset: nat, next: nat, status: nat)
    requires SameFrom(a, b, offset) && next > offset
    ensures SameFrom(a, b, next) && SameFrom(a, b[offset := status], next)
  {}

  datatype Outcome = Done(descriptor: Descriptor) | Failed(error: Error) | Exhausted

  class Uploader {
    const server: Server
    const clock: nat -> int
    const aborted: nat -> bool
    const retries: nat
    const target: Target
    var history: seq<Request>
    var ticks: nat
    var state: map<int, nat>
    var meta: Option<Meta>
    ghost var skipped: set<nat>

    constructor (server: Server, clock: nat -> int, aborted: nat -> bool, retries: nat, target: Target,
                 state: map<int, nat>, meta: Option<Meta>)
      ensures this.server == server && this.clock == clock && this.aborted == aborted
      ensures this.retries == retries && this.target == target
      ensures this.state == state && this.meta == meta && history == [] && ticks == 0 && skipped == {}
    {
      this.server, this.clock, this.aborted := server, clock, aborted;
      this.retries, this.target := retries, target;
      this.state, this.meta, history, ticks, skipped := state, meta, [], 0, {};
    }

    ghost predicate Uninterrupted() { forall i :: !aborted(i) }

    ghost predicate Valid() { target.chunkSize > 0 }

    /** The state was made for this very upload. */
    ghost predicate SameUpload(m: Option<Meta>) {
      && m.Some? && m.value.hash == target.hash && m.value.size == |target.bytes|
      && m.value.chunkSize == target.chunkSize && m.value.url == target.url && m.value.mime == target.mime
    }

    method IsAborted() returns (r: bool)
      modifies this`ticks
      ensures (r ==> !Uninterrupted()) && ticks == old(ticks) + 1
    {
      r := aborted(ticks);
      ticks := ticks + 1;
    }

    method Now() returns (r: int)
      modifies this`ticks
      ensures r == clock(old(ticks)) && ticks == old(ticks) + 1
    {
      r := clock(ticks);
      ticks := ticks + 1;
    }

    /** The time of the last accepted chunk: as it was, or read since. */
    ghost predicate Accepted(was: int, from: nat, to: nat, last: int) {
      last == was || exists j :: from <= j < to && last == clock(j)
    }

    /** At some moment since, less than a minute had passed from the last
        accepted chunk, which was accepted then or before. */
    ghost predicate Recent(was: int, from: nat, to: nat) {
      exists i :: from <= i < to && (clock(i) - was < 60000 || exists j :: from <= j < i && clock(i) - clock(j) < 60000)
    }

    /** The clock never says that a minute passed since a chunk was accepted. */
    ghost predicate Quick(was: int) {
      forall i: nat :: clock(i) - was < 60000 && forall j: nat :: clock(i) - clock(j) < 60000
    }

    /** The retry loop around one chunk's request: an answer below 500 is final,
        and no answer or one from 500 on is asked for again while tries last. */
    method Retry(q: Request) returns (r: Result<Reply, Error>, ghost tries: nat)
      modifies this`history, this`ticks
      ensures tries <= retries + 1 && history == old(history) + Repeated(q, tries)
      ensures r.Ok? ==> tries > 0 && r.value == server(history) && r.value.Answer?
      ensures r.Err? ==> r.error != Incomplete && r.error != BadDescriptor && !r.error.ChunkRejected?
      ensures r == Err(RequestFailed) || (r.Ok? && r.value.status >= 500) ==> tries == retries + 1
      ensures forall k :: 1 <= k < tries ==> var a := server(old(history) + Repeated(q, k)); a.Lost? || a.status >= 500
      ensures ticks >= old(ticks)
      ensures Uninterrupted() && Tolerable(server, old(history), q, retries) ==> r.Ok? && Accepts(r.value)
    {
      hide Repeated;
      var attempt := 0;
      tries := 0;
      RepeatNone(history, q);
      while true
        invariant attempt == tries <= retries && history == old(history) + Repeated(q, tries) && ticks >= old(ticks)
        invariant forall k :: 1 <= k <= tries ==> var a := server(old(history) + Repeated(q, k)); a.Lost? || a.status >= 500
        invariant Tolerable(server, old(history), q, retries) ==> Tolerable(server, history, q, retries - attempt)
        decreases retries - attempt
      {
        var stop := IsAborted();
        if stop {
          return Err(Aborted), tries;
        }
        RepeatMore(old(history), q, tries);
        history := history + [q];
        tries := tries + 1;
        var a := server(history);
        if a.Answer? && !(a.status >= 500 && attempt < retries) {
          return Ok(a), tries;
        }
        if a.Lost? {
          stop := IsAborted();
          if stop {
            return Err(Aborted), tries;
          }
          if attempt >= retries {
            return Err(RequestFailed), tries;
          }
        }
        attempt := attempt + 1;
        stop := IsAborted();
        if stop {
          return Err(Aborted), tries;
        }
      }
    }

    /** Sends one chunk; Exhausted here means it was accepted and more is
        wanted. */
    method SendChunk(q: Request, ghost base: seq<Request>) returns (r: Outcome)
      requires Valid() && SameUpload(meta) && q in Requests(target) && base <= history
      modifies this`history, this`ticks, this`state, this`meta
      ensures SameUpload(meta) && old(history) <= history && |history| <= |old(history)| + retries + 1
      ensures forall x :: x in history[|old(history)|..] ==> x == q
      ensures r.Done? ==> Matches(Some(r.descriptor), target)
      ensures r.Failed? ==> r.error != Incomplete
      ensures r.Exhausted? ==> old(history) < history && history[|history| - 1] == q && state == old(state)[q.offset := 204]
      ensures r.Exhausted? ==> server(history).Answer? && server(history).status == 204
      ensures r.Done? ==> server(history).Answer? && server(history).status in {200, 201}
      ensures r.Failed? && r.error.ChunkRejected? ==> server(history).Answer? && server(history).status == r.error.status && r.error.status !in {200, 201, 204}
      ensures ticks >= old(ticks) && Accepted(old(meta).value.lastAcceptedAt, old(ticks), ticks, meta.value.lastAcceptedAt)
      ensures Uninterrupted() && Patient(server, base, target, retries) ==> !r.Failed?
    {
      hide Patient, Tolerable, Requests, Matches;
      ghost var before := history;
      if Patient(server, base, target, retries) { PatientParts(server, base, target, retries, before, q); }
      var reply, tries := Retry(q);
      SentTries(before, history, q, tries);
      if reply.Err? {
        return Failed(reply.error);
      }
      var a := reply.value;
      if !Accepts(a) {
        return Failed(ChunkRejected(a.status));
      }
      state := state[q.offset := a.status];
      var now := Now();
      meta := Some(meta.value.(lastAcceptedAt := now));
      if a.status == 204 {
        return Exhausted;
      }
      if Patient(server, base, target, retries) { PatientTruth(server, base, target, retries, history); }
      DescriptorMatches(a.descriptor, target);
      if a.descriptor == None || a.descriptor.value != Descriptor(target.hash, |target.bytes|) {
        return Failed(BadDescriptor);
      }
      return Done(a.descriptor.value);
    }

    /** Whether the first pass skips a chunk: it was accepted before, and less
        than a minute has passed since the last one was. */
    method Skips(offset: nat, ghost was: int, ghost from: nat) returns (skip: bool)
      requires meta.Some? && from <= ticks && Accepted(was, from, ticks, meta.value.lastAcceptedAt)
      modifies this`ticks
      ensures ticks >= old(ticks) && Accepted(was, from, ticks, meta.value.lastAcceptedAt)
      ensures skip ==> offset in state && state[offset] == 204 && Recent(was, from, ticks)
      ensures Recent(was, from, old(ticks)) ==> Recent(was, from, ticks)
      ensures !skip && Quick(was) ==> !(offset in state && state[offset] == 204)
    {
      hide Accepted, Recent, Quick;
      if offset !in state || state[offset] != 204 {
        return false;
      }
      AcceptedNow(was, from, ticks, meta.value.lastAcceptedAt);
      var now := Now();
      skip := now - meta.value.lastAcceptedAt < 60000;
    }

    /** One pass over the chunks. The first pass may skip chunks the state
        remembers; the second sends everything again. */
    method Pass(replayed: bool) returns (r: Outcome)
      requires Valid() && SameUpload(meta)
      modifies this`history, this`ticks, this`state, this`meta, this`skipped
      ensures SameUpload(meta) && old(history) <= history
      ensures |history| <= |old(history)| + Times(|Requests(target)|, retries + 1)
      ensures FromPlan(old(history), history, target)
      ensures (replayed ==> skipped == old(skipped)) && Remembered(old(state), old(skipped), skipped)
      ensures skipped != old(skipped) ==> Recent(old(meta).value.lastAcceptedAt, old(ticks), ticks)
      ensures !replayed && Quick(old(meta).value.lastAcceptedAt) ==> NotAgain(old(state), old(history), history)
      ensures r.Done? ==> Matches(Some(r.descriptor), target)
      ensures r.Failed? ==> r.error != Incomplete
      ensures r.Exhausted? ==> Acknowledged(target, state, |Requests(target)|)
      ensures Uninterrupted() && Patient(server, old(history), target, retries) ==> !r.Failed?
      ensures replayed && Uninterrupted() && Patient(server, old(history), target, retries) && Keeps(server, old(history), target) ==> r.Done?
    {
      hide Patient, Keeps, AcceptedSince, Slices, Requests, Matches, Times, FromPlan, SameFrom, Remembered, Acknowledged, Arrived, NotAgain, Recent, Quick, Accepted, Uninterrupted;
      var t := target;
      ghost var n, base, was := |Requests(t)|, history, meta.value.lastAcceptedAt;
      var offset := 0;
      ghost var i: nat := 0;
      PassStart(t, base, state, skipped, retries);
      AcceptedStart(was, ticks);
      while offset < |t.bytes| || (|t.bytes| == 0 && offset == 0)
        invariant i <= n && offset == Times(i, t.chunkSize) && SameUpload(meta) && base <= history
        invariant (offset < |t.bytes| || (|t.bytes| == 0 && offset == 0)) <==> i < n
        invariant |history| <= |base| + Times(i, retries + 1)
        invariant FromPlan(base, history, t) && SameFrom(old(state), state, offset)
        invariant (replayed ==> skipped == old(skipped)) && Remembered(old(state), old(skipped), skipped)
        invariant ticks >= old(ticks) && Accepted(was, old(ticks), ticks, meta.value.lastAcceptedAt)
        invariant skipped != old(skipped) ==> Recent(was, old(ticks), ticks)
        invariant !replayed && Quick(was) ==> NotAgain(old(state), base, history)
        invariant Acknowledged(t, state, i) && (replayed ==> Arrived(t, server, |base|, history, i))
        invariant replayed && Keeps(server, base, t) ==> i < n
        decreases n - i
      {
        RequestAt(t, i);
        var end := if offset + t.chunkSize < |t.bytes| then offset + t.chunkSize else |t.bytes|;
        var q := Request(Patch, offset, t.bytes[offset..end]);
        RequestIs(t, i, q);
        NextOffset(t, i);
        AcknowledgedMore(t, state, i, q);
        TimesNext(i, retries + 1);
        TimesMono(i + 1, n, retries + 1);
        SameHere(old(state), state, offset);
        var skip := false;
        if !replayed {
          skip := Skips(offset, was, old(ticks));
        }
        if skip {
          SkipRemembered(old(state), state, old(skipped), skipped, offset);
          SameFurther(old(state), state, offset, offset + t.chunkSize, 204);
          skipped := skipped + {offset};
          i := i + 1;
          offset := offset + t.chunkSize;
          continue;
        }
        ghost var before, seen := history, state;
        ghost var soFar, last := ticks, meta.value.lastAcceptedAt;
        r := SendChunk(q, base);
        Sent(base, before, history, q, t);
        if !replayed && Quick(was) { SentNew(old(state), base, before, history, q); }
        AcceptedLater(was, old(ticks), soFar, ticks, last, meta.value.lastAcceptedAt);
        SameFurther(old(state), seen, offset, offset + t.chunkSize, 204);
        if !r.Exhausted? {
          return;
        }
        if replayed {
          ArrivedMore(server, |base|, before, history, t, i, q);
          if Keeps(server, base, t) && i + 1 == n { NotLast(server, base, history, t); }
        }
        i := i + 1;
        offset := offset + t.chunkSize;
      }
      return Exhausted;
    }

    lemma AcceptedNow(was: int, from: nat, now: nat, last: int)
      requires Accepted(was, from, now, last) && from <= now
      ensures Accepted(was, from, now + 1, last)
      ensures clock(now) - last < 60000 ==> Recent(was, from, now + 1)
      ensures clock(now) - last >= 60000 ==> !Quick(was)
      ensures Recent(was, from, now) ==> Recent(was, from, now + 1)
    {}

    lemma AcceptedLater(was: int, from: nat, mid: nat, now: nat, last: int, next: int)
      requires from <= mid <= now && Accepted(was, from, mid, last) && Accepted(last, mid, now, next)
      ensures Accepted(was, from, now, next)
      ensures Recent(was, from, mid) ==> Recent(was, from, now)
    {}

    lemma AcceptedStart(was: int, from: nat)
      ensures Accepted(was, from, from, was)
    {}

    /** The multipart path: forgets state made for something else or too long
        ago, then makes at most two passes. */
    method Multipart() returns (r: Result<Descriptor, Error>, ghost middle: seq<Request>)
      requires Valid()
      modifies this
      ensures old(history) <= history
      ensures |history| <= |old(history)| + 2 * (Times(|Requests(target)|, retries + 1))
      ensures FromPlan(old(history), history, target)
      ensures Remembered(old(state), old(skipped), skipped) && (skipped != old(skipped) ==> old(SameUpload(meta)))
      ensures skipped != old(skipped) ==> exists i :: clock(i) - old(meta).value.lastAcceptedAt < 60000
      ensures old(SameUpload(meta)) && Quick(old(meta).value.lastAcceptedAt) ==> NotAgain(old(state), old(history), middle)
      ensures r.Ok? ==> Matches(Some(r.value), target)
      ensures r == Err(Incomplete) ==> Acknowledged(target, state, |Requests(target)|)
      ensures old(history) <= middle <= history
      ensures Uninterrupted() && Patient(server, old(history), target, retries) && Keeps(server, middle, target) ==> r.Ok?
    {
      hide Patient, Keeps, AcceptedSince, Requests, Matches, Times, FromPlan;
      var t := target;
      var now := 0;
      var keep := false;
      if meta.Some? && meta.value.hash == t.hash && meta.value.size == |t.bytes| && meta.value.chunkSize == t.chunkSize
         && meta.value.url == t.url && meta.value.mime == t.mime {
        now := Now();
        keep := now - meta.value.lastAcceptedAt < 60000;
      }
      if !keep {
        state := map[];
        meta := Some(Meta(t.hash, |t.bytes|, t.chunkSize, t.url, t.mime, 0));
      }
      ghost var start := history;
      var first := Pass(false);
      middle := history;
      if first.Done? {
        return Ok(first.descriptor), middle;
      }
      if first.Failed? {
        return Err(first.error), middle;
      }
      if Patient(server, start, t, retries) { PatientLater(server, start, middle, t, retries); }
      var second := Pass(true);
      PlanTwice(start, middle, history, t);
      if second.Done? {
        return Ok(second.descriptor), middle;
      }
      if second.Failed? {
        return Err(second.error), middle;
      }
      return Err(Incomplete), middle;
    }

    /** The fallback for servers without PATCH: the whole blob in one request. */
    method PutWhole() returns (r: Result<Descriptor, Error>)
      modifies this`history, this`ticks
      ensures old(history) <= history && |history| <= |old(history)| + retries + 1
      ensures forall q :: q in history[|old(history)|..] ==> q == WholeRequest(target)
      ensures r.Ok? ==> Matches(Some(r.value), target)
      ensures Uninterrupted() && Takes(server, old(history), target, retries) ==> r.Ok?
    {
      hide Tolerable, Repeated, Matches;
      var q := WholeRequest(target);
      ghost var before := history;
      var reply, tries := Retry(q);
      SentTries(before, history, q, tries);
      if reply.Err? {
        return Err(reply.error);
      }
      var a := reply.value;
      if !(200 <= a.status < 300) {
        return Err(ChunkRejected(a.status));
      }
      var descriptor := if a.status == 200 || a.status == 201 then a.descriptor else None;
      DescriptorMatches(descriptor, target);
      if descriptor == None || descriptor.value != Descriptor(target.hash, |target.bytes|) {
        return Err(BadDescriptor);
      }
      return Ok(descriptor.value);
    }

    /** uploadTask, once it is known whether the server takes PATCH. */
    method Upload(supportsPatch: bool) returns (r: Result<Descriptor, Error>, ghost middle: seq<Request>)
      requires Valid()
      modifies this
      ensures old(history) <= middle <= history
      ensures |history| <= |old(history)| + (if supportsPatch then 2 * Times(|Requests(target)|, retries + 1) else retries + 1)
      ensures r.Ok? ==> Matches(Some(r.value), target)
      ensures !supportsPatch ==> state == old(state) && meta == old(meta) && skipped == old(skipped)
      ensures Remembered(old(state), old(skipped), skipped) && (skipped != old(skipped) ==> old(SameUpload(meta)))
      ensures Uninterrupted() && supportsPatch && Patient(server, old(history), target, retries) && Keeps(server, middle, target) ==> r.Ok?
      ensures Uninterrupted() && !supportsPatch && Takes(server, old(history), target, retries) ==> r.Ok?
    {
      hide Patient, Keeps, Takes, Requests, Matches, Times;
      if supportsPatch {
        r, middle := Multipart();
      } else {
        r := PutWhole();
        middle := history;
      }
    }
  }

  lemma RepeatNone(h: seq<Request>, q: Request)
    ensures h + Repeated(q, 0) == h
  {}

  lemma RepeatMore(h: seq<Request>, q: Request, k: nat)
    ensures h + Repeated(q, k) + [q] == h + Repeated(q, k + 1)
  {
    assert Repeated(q, k) + [q] == Repeated(q, k + 1);
  }

  lemma RequestIs(t: Target, i: nat, q: Request)
    requires t.chunkSize > 0 && i < |Requests(t)| && q == Request(Patch, Times(i, t.chunkSize), Requests(t)[i].body)
    ensures q == Requests(t)[i] && q in Requests(t)
  {
    assert q == Requests(t)[i];
  }

  lemma NextOffset(t: Target, i: nat)
    requires t.chunkSize > 0 && i < |Requests(t)|
    ensures Times(i + 1, t.chunkSize) == Times(i, t.chunkSize) + t.chunkSize
    ensures var offset := Times(i + 1, t.chunkSize);
      (offset < |t.bytes| || (|t.bytes| == 0 && offset == 0)) <==> i + 1 < |Requests(t)|
  {
    RequestCount(t, i + 1);
    TimesNext(i, t.chunkSize);
  }

  lemma TimesMono(i: nat, j: nat, n: nat)
    requires i <= j
    ensures Times(i, n) <= Times(j, n)
  {}

  lemma TimesNext(i: nat, n: nat)
    ensures Times(i + 1, n) == Times(i, n) + n
  {}

  lemma PassStart(t: Target, base: seq<Request>, state: map<int, nat>, skipped: set<nat>, retries: nat)
    requires t.chunkSize > 0
    ensures |Requests(t)| > 0 && Times(0, t.chunkSize) == 0 == Times(0, retries + 1)
    ensures FromPlan(base, base, t) && SameFrom(state, state, 0) && Remembered(state, skipped, skipped) && NotAgain(state, base, base)
    ensures Acknowledged(t, state, 0) && forall server, b, h :: Arrived(t, server, b, h, 0)
  {
    assert base[|base|..] == [];
  }

  lemma Sent(base: seq<Request>, before: seq<Request>, after: seq<Request>, q: Request, t: Target)
    requires t.chunkSize > 0 && FromPlan(base, before, t) && before <= after && q in Requests(t)
    requires forall x :: x in after[|before|..] ==> x == q
    ensures FromPlan(base, after, t)
  {
    hide Requests;
    assert after[|base|..] == before[|base|..] + after[|before|..];
  }

  lemma SentTries(before: seq<Request>, after: seq<Request>, q: Request, tries: nat)
    requires after == before + Repeated(q, tries)
    ensures before <= after && |after| == |before| + tries && forall x :: x in after[|before|..] ==> x == q
    ensures tries > 0 ==> before < after && after[|after| - 1] == q
  {
    assert after[|before|..] == Repeated(q, tries);
    if tries > 0 { assert after[|after| - 1] == Repeated(q, tries)[tries - 1]; }
  }

  lemma SentNew(state: map<int, nat>, base: seq<Request>, before: seq<Request>, after: seq<Request>, q: Request)
    requires NotAgain(state, base, before) && before <= after && forall x :: x in after[|before|..] ==> x == q
    requires !(q.offset in state && state[q.offset] == 204)
    ensures NotAgain(state, base, after)
  {
    assert after[|base|..] == before[|base|..] + after[|before|..];
  }

  lemma SameHere(a: map<int, nat>, b: map<int, nat>, offset: nat)
    requires SameFrom(a, b, offset)
    ensures offset in a && a[offset] == 204 <==> offset in b && b[offset] == 204
  {}

  lemma PatientParts(server: Server, base: seq<Request>, t: Target, retries: nat, h: seq<Request>, q: Request)
    requires t.chunkSize > 0 && Patient(server, base, t, retries) && base <= h && q in Requests(t)
    ensures Tolerable(server, h, q, retries)
  {}

  lemma PatientTruth(server: Server, base: seq<Request>, t: Target, retries: nat, h: seq<Request>)
    requires t.chunkSize > 0 && Patient(server, base, t, retries) && base <= h && Completes(server(h))
    ensures Matches(server(h).descriptor, t)
  {}

  lemma PatientLater(server: Server, base: seq<Request>, later: seq<Request>, t: Target, retries: nat)
    requires t.chunkSize > 0 && Patient(server, base, t, retries) && base <= later
    ensures Patient(server, later, t, retries)
  {
    hide Tolerable, Matches;
  }

  lemma DescriptorMatches(d: Option<Descriptor>, t: Target)
    ensures Matches(d, t) <==> d.Some? && d.value == Descriptor(t.hash, |t.bytes|)
  {}

  lemma ArrivedMore(server: Server, base: nat, before: seq<Request>, after: seq<Request>, t: Target, i: nat, q: Request)
    requires t.chunkSize > 0 && i < |Requests(t)| && q == Requests(t)[i] && base <= |before| && before < after
    requires after[|after| - 1] == q && Accepts(server(after))
    requires Arrived(t, server, base, before, i)
    ensures Arrived(t, server, base, after, i + 1)
  {
    hide AcceptedSince, Requests;
    assert after == before + after[|before|..];
    AcceptedGrows(server, base, before, after[|before|..]);
    LastAccepted(server, base, after, q);
  }

  /** Once everything arrived, a server that keeps its chunks completes. */
  lemma NotLast(server: Server, base: seq<Request>, h: seq<Request>, t: Target)
    requires t.chunkSize > 0 && Keeps(server, base, t) && base < h && Accepts(server(h))
    requires Arrived(t, server, |base|, h, |Requests(t)|)
    ensures Completes(server(h))
  {
    hide AcceptedSince, Requests;
    forall o | o in AllOffsets(t) ensures o in AcceptedSince(server, |base|, h) {
      var q :| q in Requests(t) && q.offset == o;
      var j :| 0 <= j < |Requests(t)| && Requests(t)[j] == q;
    }
  }

  lemma PlanTwice(a: seq<Request>, b: seq<Request>, c: seq<Request>, t: Target)
    requires t.chunkSize > 0 && FromPlan(a, b, t) && FromPlan(b, c, t)
    ensures FromPlan(a, c, t)
  {
    hide Requests;
    assert c[|a|..] == b[|a|..] + c[|b|..];
  }
}
