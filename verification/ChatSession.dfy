/** The page state of tinyclient/chat.js: conversations by account, loads and
    deliveries that end at any time, and caches keyed by the number of rumors. */
module ChatSession {
  import opened Prelude
  import opened Chat

  datatype Session = Session(
    actor: string, generation: nat, events: Events,
    deletedVersion: Option<nat>, deletedIDs: set<string>, reactionVersion: Option<nat>, reactionIndex: Index)

  /** What the page cannot choose: which rumors exist, and what an account's
      signer makes of a packet. */
  datatype World = World(genuine: Rumor -> bool, decrypt: (string, string) -> Option<Rumor>)

  /** A rumor's id is the digest of its content, and public keys are 64 digits. */
  ghost predicate Honest(w: World) {
    && (forall r, q :: w.genuine(r) && w.genuine(q) && r.id == q.id ==> r == q)
    && (forall r :: w.genuine(r) ==> |r.pubkey| == 64)
    && forall a, p :: w.decrypt(a, p).Some? ==> w.genuine(w.decrypt(a, p).value)
  }

  type Ref = nat

  datatype Page = Page(sessions: map<Ref, Session>, states: map<string, Ref>, generation: nat)

  const START: Page := Page(map[], map[], 0)

  // ------------------------------------------------------------------
  // One conversation

  function NewSession(actor: string, generation: nat): Session {
    Session(actor, generation, [], None, {}, None, map[])
  }

  /** What cacheEvents lets in. */
  predicate Admits(actor: string, r: Rumor) {
    && (Message(r) ==> |Participants(r)| == 2 && actor in Participants(r))
    && (r.kind == 5 || r.kind == 7 || Message(r))
  }

  /** A deletion, a reaction, or a message between the account and exactly one
      other person. */
  ghost predicate Belongs(actor: string, r: Rumor) {
    || r.kind in {5, 7}
    || (r.kind in {14, 15} && exists peer :: peer != actor && Between(r, actor, peer))
  }

  /** These two take part and nobody else. */
  ghost predicate Between(r: Rumor, a: string, b: string) { forall p :: TakesPart(r, p) <==> p == a || p == b }

  lemma AdmitsExact(actor: string, r: Rumor)
    ensures Admits(actor, r) <==> Belongs(actor, r)
  {
    hide Participants, TakesPart;
    var people := Participants(r);
    forall p ensures p in people <==> TakesPart(r, p) {
      TakesPartExact(r, p);
    }
    if |people| == 2 && actor in people {
      var peer := Other(people, actor);
      assert Between(r, actor, peer);
    }
    if peer :| peer != actor && Between(r, actor, peer) {
      assert people == {actor, peer};
    }
  }

  ghost function Other(people: set<string>, actor: string): (peer: string)
    requires |people| == 2 && actor in people
    ensures peer != actor && people == {actor, peer}
  {
    var more := people - {actor};
    assert |more| == 1;
    var peer :| peer in more;
    assert |more - {peer}| == 0;
    assert people == {actor, peer};
    peer
  }

  function Cached(v: Session, r: Rumor): Session {
    if Get(v.events, r.id).Some? || !Admits(v.actor, r) then v else v.(events := v.events + [r])
  }

  /** Map.set: a rumor that is there keeps its place. */
  function Replace(events: Events, r: Rumor): Events {
    if events == [] then [r] else if events[0].id == r.id then [r] + events[1..] else [events[0]] + Replace(events[1..], r)
  }

  function Delivered(v: Session, r: Rumor): Session { v.(events := Replace(v.events, r)) }

  ghost predicate Own(w: World, actor: string, r: Rumor) {
    w.genuine(r) && (r.pubkey == actor || exists packet :: w.decrypt(actor, packet) == Some(r))
  }

  /** Only this account's rumors, each once, and caches that were right for the
      rumors they counted. */
  ghost predicate Coherent(w: World, v: Session) {
    && (forall r :: r in v.events ==> Own(w, v.actor, r)) && DistinctIds(v.events)
    && (v.deletedVersion.Some? ==> v.deletedVersion.value <= |v.events| && v.deletedIDs == DeletedIds(v.events[..v.deletedVersion.value]))
    && (v.reactionVersion.Some? ==> v.reactionVersion.value <= |v.events| && Tallies(v.events[..v.reactionVersion.value], v.reactionIndex))
  }

  lemma AppendCoherent(w: World, v: Session, r: Rumor)
    requires Coherent(w, v) && Own(w, v.actor, r) && Get(v.events, r.id) == None
    ensures Coherent(w, v.(events := v.events + [r]))
  {
    hide Own, Tallies, DeletedIds;
    var more := v.events + [r];
    forall i, j | 0 <= i < j < |more| ensures more[i].id != more[j].id {
      if j == |v.events| { assert v.events[i] in v.events; }
    }
    forall n | 0 <= n <= |v.events| ensures more[..n] == v.events[..n] {}
  }

  lemma {:induction false} ReplaceSame(events: Events, r: Rumor)
    ensures Get(events, r.id) == Some(r) ==> Replace(events, r) == events
    ensures Get(events, r.id) == None ==> Replace(events, r) == events + [r]
  {
    if events != [] && events[0].id != r.id {
      ReplaceSame(events[1..], r);
      assert events == [events[0]] + events[1..];
      Associative([events[0]], events[1..], [r]);
    } else if events != [] {
      assert events == [events[0]] + events[1..];
    }
  }

  lemma {:induction false} ReplaceAt(events: Events, r: Rumor, i: nat)
    requires i < |events| && events[i].id == r.id && DistinctIds(events)
    ensures Replace(events, r) == events[i := r]
  {
    if i > 0 {
      ReplaceAt(events[1..], r, i - 1);
    }
  }

  /** Delivering a rumor that came back from the server first changes nothing. */
  lemma DeliveredCoherent(w: World, v: Session, r: Rumor)
    requires Honest(w) && Coherent(w, v) && Own(w, v.actor, r)
    ensures Coherent(w, Delivered(v, r)) && v.events <= Delivered(v, r).events
  {
    ReplaceSame(v.events, r);
    var there := Get(v.events, r.id);
    if there.Some? {
      assert Own(w, v.actor, there.value) && w.genuine(there.value) && w.genuine(r);
    } else {
      AppendCoherent(w, v, r);
    }
  }

  lemma CachedCoherent(w: World, v: Session, r: Rumor)
    requires Coherent(w, v) && Own(w, v.actor, r)
    ensures Coherent(w, Cached(v, r)) && v.events <= Cached(v, r).events
  {
    hide Coherent, Own;
    if Get(v.events, r.id) == None { AppendCoherent(w, v, r); }
  }

  /** A cache whose version is the number of rumors is a fresh computation. */
  lemma CachesFresh(w: World, v: Session)
    requires Coherent(w, v)
    ensures v.deletedVersion == Some(|v.events|) ==> v.deletedIDs == DeletedIds(v.events)
    ensures v.reactionVersion == Some(|v.events|) ==> Tallies(v.events, v.reactionIndex)
  {
    assert v.events[..|v.events|] == v.events;
  }

  // ------------------------------------------------------------------
  // Steps of the page

  datatype Step =
    | Open(actor: string, ref: Ref)
    | Clear
    | Cache(at: Ref, packet: string)
    | Deliver(at: Ref, rumor: Rumor)
    | AskDeleted(at: Ref)
    | AskReactions(at: Ref, index: Index)

  ghost predicate Enabled(w: World, p: Page, e: Step) {
    match e
    case Open(actor, ref) => actor !in p.states && ref !in p.sessions
    case Clear => true
    case Cache(ref, packet) => ref in p.sessions && w.decrypt(p.sessions[ref].actor, packet).Some?
    case Deliver(ref, rumor) => ref in p.sessions && w.genuine(rumor) && rumor.pubkey == p.sessions[ref].actor
    case AskDeleted(ref) => ref in p.sessions
    case AskReactions(ref, index) => ref in p.sessions && Tallies(p.sessions[ref].events, index)
  }

  ghost function Refreshed(v: Session): Session {
    if v.deletedVersion == Some(|v.events|) then v
    else v.(deletedIDs := DeletedIds(v.events), deletedVersion := Some(|v.events|))
  }

  predicate SomeReaction(events: Events) { exists r :: r in events && r.kind == 7 }

  /** Counting reactions asks whether each of them is deleted. */
  ghost function Tallied(v: Session, index: Index): Session {
    if v.reactionVersion == Some(|v.events|) then v
    else (if SomeReaction(v.events) then Refreshed(v) else v).(reactionIndex := index, reactionVersion := Some(|v.events|))
  }

  ghost function Apply(w: World, p: Page, e: Step): Page
    requires Enabled(w, p, e)
  {
    match e
    case Open(actor, ref) =>
      p.(sessions := p.sessions[ref := NewSession(actor, p.generation)], states := p.states[actor := ref])
    case Clear =>
      Page(map ref | ref in p.sessions :: if ref in p.states.Values then p.sessions[ref].(events := []) else p.sessions[ref],
           map[], p.generation + 1)
    case Cache(ref, packet) => Set(p, ref, Cached(p.sessions[ref], w.decrypt(p.sessions[ref].actor, packet).value))
    case Deliver(ref, rumor) => Set(p, ref, Delivered(p.sessions[ref], rumor))
    case AskDeleted(ref) => Set(p, ref, Refreshed(p.sessions[ref]))
    case AskReactions(ref, index) => Set(p, ref, Tallied(p.sessions[ref], index))
  }

  function Set(p: Page, ref: Ref, v: Session): Page { p.(sessions := p.sessions[ref := v]) }

  /** current(). */
  predicate Live(p: Page, ref: Ref) {
    && ref in p.sessions && p.sessions[ref].generation == p.generation
    && p.sessions[ref].actor in p.states && p.states[p.sessions[ref].actor] == ref
  }

  ghost predicate Inv(w: World, p: Page) {
    && (forall ref :: ref in p.sessions ==> Live(p, ref) || p.sessions[ref].generation < p.generation)
    && (forall ref :: Live(p, ref) ==> Coherent(w, p.sessions[ref]))
    && forall actor :: actor in p.states ==> Live(p, p.states[actor]) && p.sessions[p.states[actor]].actor == actor
  }

  lemma RefreshedCoherent(w: World, v: Session)
    requires Coherent(w, v)
    ensures Coherent(w, Refreshed(v))
  {
    hide Own;
    assert v.events[..|v.events|] == v.events;
  }

  lemma TalliedCoherent(w: World, v: Session, index: Index)
    requires Coherent(w, v) && Tallies(v.events, index)
    ensures Coherent(w, Tallied(v, index))
  {
    hide Own, Tallies, DeletedIds, SomeReaction;
    RefreshedCoherent(w, v);
    assert v.events[..|v.events|] == v.events;
  }

  /** Changing one session and not who is current. */
  lemma SetKeeps(w: World, p: Page, ref: Ref, v: Session)
    requires Inv(w, p) && ref in p.sessions && v.actor == p.sessions[ref].actor && v.generation == p.sessions[ref].generation
    requires Live(p, ref) ==> Coherent(w, v)
    ensures Inv(w, Set(p, ref, v)) && forall x :: Live(Set(p, ref, v), x) <==> Live(p, x)
  {
    hide Coherent;
  }

  lemma ClearKeeps(w: World, p: Page)
    requires Inv(w, p)
    ensures Inv(w, Apply(w, p, Clear)) && forall x :: !Live(Apply(w, p, Clear), x)
  {
    hide Coherent;
  }

  lemma OpenKeeps(w: World, p: Page, actor: string, ref: Ref)
    requires Inv(w, p) && actor !in p.states && ref !in p.sessions
    ensures Inv(w, Apply(w, p, Open(actor, ref))) && forall x :: Live(p, x) ==> Live(Apply(w, p, Open(actor, ref)), x)
  {
    hide Coherent;
    assert Coherent(w, NewSession(actor, p.generation)) by { NewCoherent(w, actor, p.generation); }
  }

  lemma NewCoherent(w: World, actor: string, generation: nat)
    ensures Coherent(w, NewSession(actor, generation))
  {}

  lemma StepKeeps(w: World, p: Page, e: Step)
    requires Honest(w) && Inv(w, p) && Enabled(w, p, e)
    ensures Inv(w, Apply(w, p, e))
    ensures forall ref :: Live(p, ref) && Live(Apply(w, p, e), ref) ==> p.sessions[ref].events <= Apply(w, p, e).sessions[ref].events
  {
    hide Coherent, Cached, Delivered, Refreshed, Tallied;
    match e {
      case Open(actor, ref) => OpenKeeps(w, p, actor, ref);
      case Clear => ClearKeeps(w, p);
      case Cache(ref, packet) => ChangeKeeps(w, p, e, ref);
      case Deliver(ref, rumor) => ChangeKeeps(w, p, e, ref);
      case AskDeleted(ref) => ChangeKeeps(w, p, e, ref);
      case AskReactions(ref, index) => ChangeKeeps(w, p, e, ref);
    }
  }

  lemma ChangeKeeps(w: World, p: Page, e: Step, ref: Ref)
    requires Honest(w) && Inv(w, p) && Enabled(w, p, e) && !e.Open? && !e.Clear? && e.at == ref
    ensures Inv(w, Apply(w, p, e))
    ensures forall x :: Live(p, x) ==> p.sessions[x].events <= Apply(w, p, e).sessions[x].events
  {
    hide Coherent, Honest, Tallies, Own;
    var v := p.sessions[ref];
    var v' := Apply(w, p, e).sessions[ref];
    SameOwner(w, p, e, ref);
    if Live(p, ref) {
      match e {
        case Cache(_, packet) =>
          OwnDecrypted(w, v.actor, packet);
          CachedCoherent(w, v, w.decrypt(v.actor, packet).value);
        case Deliver(_, rumor) =>
          OwnBuilt(w, v.actor, rumor);
          DeliveredCoherent(w, v, rumor);
        case AskDeleted(_) => RefreshedCoherent(w, v);
        case AskReactions(_, index) => TalliedCoherent(w, v, index);
      }
    }
    SetKeeps(w, p, ref, v');
  }

  lemma SameOwner(w: World, p: Page, e: Step, ref: Ref)
    requires Enabled(w, p, e) && !e.Open? && !e.Clear? && e.at == ref
    ensures var v := Apply(w, p, e).sessions[ref];
      v.actor == p.sessions[ref].actor && v.generation == p.sessions[ref].generation && Apply(w, p, e) == Set(p, ref, v)
  {
    hide Tallies, DeletedIds;
  }

  lemma OwnDecrypted(w: World, actor: string, packet: string)
    requires Honest(w) && w.decrypt(actor, packet).Some?
    ensures Own(w, actor, w.decrypt(actor, packet).value)
  {}

  lemma OwnBuilt(w: World, actor: string, r: Rumor)
    requires w.genuine(r) && r.pubkey == actor
    ensures Own(w, actor, r)
  {}

  // ------------------------------------------------------------------
  // Runs

  ghost predicate Legal(w: World, p: Page, steps: seq<Step>)
    decreases |steps|
  {
    steps == [] || (Enabled(w, p, steps[0]) && Legal(w, Apply(w, p, steps[0]), steps[1..]))
  }

  ghost function After(w: World, p: Page, steps: seq<Step>): Page
    requires Legal(w, p, steps)
    decreases |steps|
  {
    if steps == [] then p else After(w, Apply(w, p, steps[0]), steps[1..])
  }

  lemma {:induction false} RunKeeps(w: World, p: Page, steps: seq<Step>)
    requires Honest(w) && Inv(w, p) && Legal(w, p, steps)
    ensures Inv(w, After(w, p, steps))
    decreases |steps|
  {
    hide Honest, Inv, Enabled, Apply;
    if steps != [] {
      StepKeeps(w, p, steps[0]);
      RunKeeps(w, Apply(w, p, steps[0]), steps[1..]);
    }
  }

  /** In every interleaving of loads, deliveries, renders and clears, a current
      conversation holds only rumors decrypted for its own account or written by
      it, and a cache that looks up to date is a fresh computation: the deleted
      ids are those an author deleted, and each reaction count is the number of
      people with that mark. */
  lemma AlwaysFresh(w: World, steps: seq<Step>, ref: Ref)
    requires Honest(w) && Legal(w, START, steps) && Live(After(w, START, steps), ref)
    ensures var v := After(w, START, steps).sessions[ref];
      && (forall r :: r in v.events ==> Own(w, v.actor, r))
      && (v.deletedVersion == Some(|v.events|) ==> v.deletedIDs == DeletedIds(v.events))
      && (v.reactionVersion == Some(|v.events|) ==> Tallies(v.events, v.reactionIndex))
  {
    hide Honest, Enabled, Apply, Own, Tallies, DeletedIds;
    RunKeeps(w, START, steps);
    CachesFresh(w, After(w, START, steps).sessions[ref]);
  }

  lemma StepEnds(w: World, p: Page, e: Step, ref: Ref)
    requires Inv(w, p) && Enabled(w, p, e) && ref in p.sessions
    ensures var r := Apply(w, p, e);
      ref in r.sessions && r.sessions[ref].generation == p.sessions[ref].generation && r.generation >= p.generation
  {
    hide Tallies, DeletedIds, Coherent;
  }

  lemma {:induction false} DeadStays(w: World, p: Page, steps: seq<Step>, ref: Ref)
    requires Honest(w) && Inv(w, p) && Legal(w, p, steps) && ref in p.sessions && p.sessions[ref].generation < p.generation
    ensures !Live(After(w, p, steps), ref)
    decreases |steps|
  {
    hide Honest, Inv, Enabled, Apply;
    if steps != [] {
      StepKeeps(w, p, steps[0]);
      StepEnds(w, p, steps[0], ref);
      DeadStays(w, Apply(w, p, steps[0]), steps[1..], ref);
    }
  }

  /** Between two moments at which a conversation is current, its rumors only
      grow at the end. */
  lemma {:induction false} OnlyGrows(w: World, p: Page, steps: seq<Step>, ref: Ref)
    requires Honest(w) && Inv(w, p) && Legal(w, p, steps) && Live(p, ref) && Live(After(w, p, steps), ref)
    ensures p.sessions[ref].events <= After(w, p, steps).sessions[ref].events
    decreases |steps|
  {
    hide Honest, Enabled, Apply, Coherent;
    if steps != [] {
      var next := Apply(w, p, steps[0]);
      StepKeeps(w, p, steps[0]);
      StepEnds(w, p, steps[0], ref);
      if Live(next, ref) {
        OnlyGrows(w, next, steps[1..], ref);
      } else {
        DeadStays(w, next, steps[1..], ref);
      }
    }
  }

  // ------------------------------------------------------------------
  // One conversation as it runs

  class Conversation {
    const actor: string
    const generation: nat
    var events: Events
    var deletedVersion: Option<nat>
    var deletedIDs: set<string>
    var reactionVersion: Option<nat>
    var reactionIndex: Index

    ghost function View(): Session
      reads this
    {
      Session(actor, generation, events, deletedVersion, deletedIDs, reactionVersion, reactionIndex)
    }

    constructor (actor: string, generation: nat)
      ensures View() == NewSession(actor, generation)
    {
      this.actor, this.generation := actor, generation;
      events, deletedVersion, deletedIDs, reactionVersion, reactionIndex := [], None, {}, None, map[];
    }

    method CacheRumor(r: Rumor)
      modifies this
      ensures View() == Cached(old(View()), r)
      ensures var known := exists x :: x in old(events) && x.id == r.id;
        events == if known || !Belongs(actor, r) then old(events) else old(events) + [r]
    {
      AdmitsExact(actor, r);
      if Get(events, r.id).Some? || !Admits(actor, r) {
        return;
      }
      events := events + [r];
    }

    method Keep(r: Rumor)
      modifies this
      ensures View() == Delivered(old(View()), r)
      ensures forall i :: 0 <= i < |old(events)| && old(events)[i].id == r.id && DistinctIds(old(events)) ==> events == old(events)[i := r]
      ensures (forall i :: 0 <= i < |old(events)| ==> old(events)[i].id != r.id) ==> events == old(events) + [r]
    {
      forall i | 0 <= i < |events| && events[i].id == r.id && DistinctIds(events) ensures Replace(events, r) == events[i := r] {
        ReplaceAt(events, r, i);
      }
      ReplaceSame(events, r);
      events := Replace(events, r);
    }

    method Refresh(ghost w: World)
      requires Coherent(w, View())
      modifies this
      ensures View() == Refreshed(old(View())) && Coherent(w, View())
      ensures deletedVersion == Some(|events|) && deletedIDs == DeletedIds(events)
    {
      hide DeletedIds, Tallies, Own;
      CachesFresh(w, View());
      RefreshedCoherent(w, View());
      if deletedVersion != Some(|events|) {
        deletedIDs := ComputeDeleted(events);
        deletedVersion := Some(|events|);
      }
    }

    /** deleted(). */
    method Deleted(ghost w: World, r: Rumor) returns (gone: bool)
      requires Coherent(w, View())
      modifies this
      ensures View() == Refreshed(old(View())) && Coherent(w, View())
      ensures gone <==> r.id in DeletedIds(events)
    {
      hide DeletedIds, Coherent;
      Refresh(w);
      gone := r.id in deletedIDs;
    }

    method Tally(ghost w: World)
      requires Honest(w) && Coherent(w, View())
      modifies this
      ensures exists index :: Tallies(events, index) && View() == Tallied(old(View()), index)
      ensures Coherent(w, View()) && Tallies(events, reactionIndex) && events == old(events)
    {
      hide DeletedIds, Coherent, Tallies, Honest;
      ghost var v := View();
      CachesFresh(w, v);
      var index: Index := map[];
      if reactionVersion == Some(|events|) {
        return;
      }
      if exists r :: r in events && r.kind == 7 {
        CoherentParts(w, v);
        Refresh(w);
        index := ComputeReactions(events, deletedIDs);
      } else {
        NoTally(events);
      }
      reactionIndex, reactionVersion := index, Some(|events|);
      TalliedCoherent(w, v, index);
      assert View() == Tallied(v, index);
    }

    /** reactions(). */
    method Reactions(ghost w: World, target: Rumor) returns (counts: map<string, nat>)
      requires Honest(w) && Coherent(w, View())
      modifies this
      ensures Coherent(w, View()) && events == old(events)
      ensures TalliesFor(events, target.id, counts)
    {
      hide DeletedIds, Coherent, Authors, TalliesFor, Honest, Tallied, ReactsOn;
      Tally(w);
      if target.id in reactionIndex {
        return reactionIndex[target.id];
      }
      NoReactions(events, target.id, reactionIndex);
      return map[];
    }
  }

  lemma CoherentParts(w: World, v: Session)
    requires Honest(w) && Coherent(w, v)
    ensures DistinctIds(v.events) && KeysWide(v.events)
  {
    hide DeletedIds, Tallies;
    WideKeys(w, v.actor, v.events);
  }

  lemma NoTally(events: Events)
    requires !SomeReaction(events)
    ensures Tallies(events, map[])
  {}

  lemma WideKeys(w: World, actor: string, events: Events)
    requires Honest(w) && forall r :: r in events ==> Own(w, actor, r)
    ensures KeysWide(events)
  {}

  lemma NoReactions(events: Events, id: string, index: Index)
    requires Tallies(events, index) && id !in index
    ensures TalliesFor(events, id, map[])
  {
    hide ReactsOn;
  }
}
