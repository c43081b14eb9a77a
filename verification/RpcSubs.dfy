/** The subscription registry of tinyagent/main.go: handlers run concurrently,
    the registry changes under its lock, contexts are cancelled outside it, and
    a semaphore bounds the other requests. */
module RpcSubs {
  import opened Prelude

  type Id = nat

  /** A context, named by a number that is never reused. */
  type Ctx = nat

  datatype Kind = Subscribe(name: string) | Unsubscribe(name: string) | Other

  /** Where a handler is: a subscriber has made its context, has registered it
      and holds the one it replaced, or has cancelled that one; an unsubscriber
      holds the context it took. */
  datatype Place = Begin | Made(ctx: Ctx) | Swapped(ctx: Ctx, previous: Option<Ctx>) | Launching(ctx: Ctx) | Taken(stop: Option<Ctx>) | Ended

  datatype Handler = Handler(kind: Kind, place: Place)

  /** serve reads requests, waits for handlers, stops everything, then waits
      for the streams. */
  datatype Phase = Reading | Waiting | Draining | Returned

  const SLOTS: nat := 32

  /** `created` and `cancelled` record history. */
  datatype State = State(
    phase: Phase, handlers: map<Id, Handler>, sem: nat, subs: map<string, Ctx>, streams: set<Ctx>,
    created: set<Ctx>, cancelled: set<Ctx>)

  const START: State := State(Reading, map[], 0, map[], {}, {}, {})

  datatype Step =
    | Accept(id: Id, kind: Kind)
    | Refuse(id: Id)
    | Create(id: Id, ctx: Ctx)
    | Swap(id: Id)
    | StopPrevious(id: Id)
    | Launch(id: Id)
    | Take(id: Id)
    | StopTaken(id: Id)
    | Work(id: Id)
    | Finish(id: Id)
    | StreamEnds(ctx: Ctx)
    | EndOfInput
    | StopAll
    | Return

  predicate Is(s: State, h: Id, place: Place) { h in s.handlers && s.handlers[h].place == place }

  predicate Enabled(s: State, e: Step) {
    match e
    case Accept(h, kind) => s.phase == Reading && h !in s.handlers && (kind.Subscribe? || s.sem < SLOTS)
    case Refuse(h) => Is(s, h, Begin)
    case Create(h, ctx) => Is(s, h, Begin) && s.handlers[h].kind.Subscribe? && ctx !in s.created
    case Swap(h) => h in s.handlers && s.handlers[h].place.Made? && s.handlers[h].kind.Subscribe?
    case StopPrevious(h) => h in s.handlers && s.handlers[h].place.Swapped?
    case Launch(h) => h in s.handlers && s.handlers[h].place.Launching?
    case Take(h) => Is(s, h, Begin) && s.handlers[h].kind.Unsubscribe?
    case StopTaken(h) => h in s.handlers && s.handlers[h].place.Taken?
    case Work(h) => Is(s, h, Begin) && s.handlers[h].kind.Other?
    case Finish(h) => Is(s, h, Ended)
    case StreamEnds(ctx) => ctx in s.streams
    case EndOfInput => s.phase == Reading
    case StopAll => s.phase == Waiting && s.handlers == map[]
    case Return => s.phase == Draining && s.streams == {}
  }

  function Move(s: State, h: Id, place: Place): State
    requires h in s.handlers
  {
    s.(handlers := s.handlers[h := s.handlers[h].(place := place)])
  }

  function Cancel(s: State, c: Option<Ctx>): State { if c.Some? then s.(cancelled := s.cancelled + {c.value}) else s }

  function Registered(subs: map<string, Ctx>, name: string): Option<Ctx> { if name in subs then Some(subs[name]) else None }

  function Apply(s: State, e: Step): State
    requires Enabled(s, e)
  {
    match e
    case Accept(h, kind) =>
      s.(handlers := s.handlers[h := Handler(kind, Begin)], sem := if kind.Subscribe? then s.sem else s.sem + 1)
    case Refuse(h) => Move(s, h, Ended)
    case Create(h, ctx) => Move(s, h, Made(ctx)).(created := s.created + {ctx})
    case Swap(h) =>
      var name, ctx := s.handlers[h].kind.name, s.handlers[h].place.ctx;
      Move(s, h, Swapped(ctx, Registered(s.subs, name))).(subs := s.subs[name := ctx])
    case StopPrevious(h) => Move(Cancel(s, s.handlers[h].place.previous), h, Launching(s.handlers[h].place.ctx))
    case Launch(h) => Move(s, h, Ended).(streams := s.streams + {s.handlers[h].place.ctx})
    case Take(h) =>
      var name := s.handlers[h].kind.name;
      Move(s, h, Taken(Registered(s.subs, name))).(subs := s.subs - {name})
    case StopTaken(h) => Move(Cancel(s, s.handlers[h].place.stop), h, Ended)
    case Work(h) => Move(s, h, Ended)
    case Finish(h) =>
      s.(handlers := s.handlers - {h}, sem := if s.handlers[h].kind.Subscribe? || s.sem == 0 then s.sem else s.sem - 1)
    case StreamEnds(ctx) => s.(streams := s.streams - {ctx})
    case EndOfInput => s.(phase := Waiting)
    case StopAll => s.(phase := Draining, cancelled := s.cancelled + s.subs.Values, subs := map[])
    case Return => s.(phase := Returned)
  }

  // ------------------------------------------------------------------
  // What every step keeps

  /** The handler is about to register or to cancel this context. */
  predicate Holds(place: Place, c: Ctx) {
    match place
    case Made(ctx) => c == ctx
    case Swapped(_, previous) => previous == Some(c)
    case Taken(stop) => stop == Some(c)
    case _ => false
  }

  ghost predicate Held(s: State, c: Ctx) { exists h :: h in s.handlers && Holds(s.handlers[h].place, c) }

  /** Every context ever created is cancelled, registered, or held by a handler
      that is about to deal with it. */
  ghost predicate NoLeak(s: State) {
    && (forall c :: c in s.created ==> c in s.cancelled || c in s.subs.Values || Held(s, c))
    && s.streams <= s.created
    && forall h :: h in s.handlers && s.handlers[h].place.Launching? ==> s.handlers[h].place.ctx in s.created
  }

  ghost predicate Placed(s: State) {
    forall h :: h in s.handlers ==>
      match s.handlers[h].place
      case Made(ctx) => s.handlers[h].kind.Subscribe? && ctx in s.created
      case Swapped(ctx, _) => ctx in s.created
      case _ => true
  }

  /** The handlers that took a slot of the semaphore. */
  ghost function Others(s: State): set<Id> { set h | h in s.handlers && !s.handlers[h].kind.Subscribe? }

  ghost predicate SlotsOK(s: State) { s.sem == |Others(s)| <= SLOTS }

  /** Once serve stops everything, no handler runs and nothing is registered. */
  ghost predicate PhaseOK(s: State) {
    s.phase == Draining || s.phase == Returned ==> s.handlers == map[] && s.subs == map[]
  }

  /** A registered context is alive, under one name, and nobody is about to
      cancel it; one that is held has one holder and is alive too. */
  ghost predicate Exclusive(s: State) {
    && (forall n :: n in s.subs ==> s.subs[n] in s.created && s.subs[n] !in s.cancelled && !Held(s, s.subs[n]))
    && (forall n, m :: n in s.subs && m in s.subs && s.subs[n] == s.subs[m] ==> n == m)
    && (forall h, c :: h in s.handlers && Holds(s.handlers[h].place, c) ==> c in s.created && c !in s.cancelled)
    && (forall h, x, c :: h in s.handlers && x in s.handlers && Holds(s.handlers[h].place, c) && Holds(s.handlers[x].place, c) ==> h == x)
    && s.cancelled <= s.created
  }

  ghost predicate Inv(s: State) { NoLeak(s) && Placed(s) && Exclusive(s) && SlotsOK(s) && PhaseOK(s) }

  lemma OthersSame(s: State, r: State)
    requires r.handlers.Keys == s.handlers.Keys && r.sem == s.sem
    requires forall h :: h in s.handlers ==> r.handlers[h].kind == s.handlers[h].kind
    ensures Others(r) == Others(s) && (SlotsOK(s) ==> SlotsOK(r))
  {}

  lemma AcceptSlots(s: State, h: Id, kind: Kind)
    requires SlotsOK(s) && Enabled(s, Accept(h, kind))
    ensures SlotsOK(Apply(s, Accept(h, kind)))
  {
    var r := Apply(s, Accept(h, kind));
    assert Others(r) == if kind.Subscribe? then Others(s) else Others(s) + {h};
  }

  lemma FinishSlots(s: State, h: Id)
    requires SlotsOK(s) && Enabled(s, Finish(h))
    ensures SlotsOK(Apply(s, Finish(h)))
  {
    var r := Apply(s, Finish(h));
    assert Others(r) == Others(s) - {h};
    if h in Others(s) { assert s.sem > 0; }
  }

  lemma StepSlots(s: State, e: Step)
    requires SlotsOK(s) && Enabled(s, e)
    ensures SlotsOK(Apply(s, e))
  {
    hide SlotsOK;
    match e {
      case Accept(h, kind) => AcceptSlots(s, h, kind);
      case Finish(h) => FinishSlots(s, h);
      case _ => OthersSame(s, Apply(s, e));
    }
  }

  /** A context stays accounted for when its holder hands it on. */
  lemma MoveLeak(s: State, r: State, h: Id)
    requires NoLeak(s) && h in s.handlers && h in r.handlers && s.subs.Values <= r.subs.Values + r.cancelled
    requires s.cancelled <= r.cancelled && r.created == s.created && r.streams <= s.created
    requires forall x :: x in r.handlers ==> x in s.handlers && (x != h ==> r.handlers[x] == s.handlers[x])
    requires forall x :: x in s.handlers ==> x in r.handlers
    requires forall c :: Holds(s.handlers[h].place, c) ==> c in r.cancelled || c in r.subs.Values || Holds(r.handlers[h].place, c)
    requires r.handlers[h].place.Launching? ==> r.handlers[h].place.ctx in s.created
    ensures NoLeak(r)
  {
    forall c | c in r.created ensures c in r.cancelled || c in r.subs.Values || Held(r, c) {
      if Held(s, c) {
        var x :| x in s.handlers && Holds(s.handlers[x].place, c);
        if x != h { assert Holds(r.handlers[x].place, c); }
      }
    }
  }

  lemma SwapLeak(s: State, h: Id)
    requires NoLeak(s) && Placed(s) && Enabled(s, Swap(h))
    ensures NoLeak(Apply(s, Swap(h)))
  {
    var r := Apply(s, Swap(h));
    var name, ctx := s.handlers[h].kind.name, s.handlers[h].place.ctx;
    assert r.subs[name] == ctx;
    forall c | c in r.created ensures c in r.cancelled || c in r.subs.Values || Held(r, c) {
      if c in s.subs.Values {
        var n :| n in s.subs && s.subs[n] == c;
        if n == name { assert Holds(r.handlers[h].place, c); } else { assert r.subs[n] == c; }
      } else if Held(s, c) {
        var x :| x in s.handlers && Holds(s.handlers[x].place, c);
        if x != h { assert Holds(r.handlers[x].place, c); }
      }
    }
  }

  lemma TakeLeak(s: State, h: Id)
    requires NoLeak(s) && Enabled(s, Take(h))
    ensures NoLeak(Apply(s, Take(h)))
  {
    var r := Apply(s, Take(h));
    var name := s.handlers[h].kind.name;
    forall c | c in r.created ensures c in r.cancelled || c in r.subs.Values || Held(r, c) {
      if c in s.subs.Values {
        var n :| n in s.subs && s.subs[n] == c;
        if n == name { assert Holds(r.handlers[h].place, c); } else { assert r.subs[n] == c; }
      } else if Held(s, c) {
        var x :| x in s.handlers && Holds(s.handlers[x].place, c);
        assert Holds(r.handlers[x].place, c);
      }
    }
  }

  lemma CreateLeak(s: State, h: Id, ctx: Ctx)
    requires NoLeak(s) && Enabled(s, Create(h, ctx))
    ensures NoLeak(Apply(s, Create(h, ctx)))
  {
    var r := Apply(s, Create(h, ctx));
    assert Holds(r.handlers[h].place, ctx);
    forall c | c in r.created ensures c in r.cancelled || c in r.subs.Values || Held(r, c) {
      if c != ctx && Held(s, c) {
        var x :| x in s.handlers && Holds(s.handlers[x].place, c);
        assert Holds(r.handlers[x].place, c);
      }
    }
  }

  lemma AcceptLeak(s: State, h: Id, kind: Kind)
    requires NoLeak(s) && Enabled(s, Accept(h, kind))
    ensures NoLeak(Apply(s, Accept(h, kind)))
  {
    var r := Apply(s, Accept(h, kind));
    forall c | c in r.created ensures c in r.cancelled || c in r.subs.Values || Held(r, c) {
      if Held(s, c) {
        var x :| x in s.handlers && Holds(s.handlers[x].place, c);
        assert Holds(r.handlers[x].place, c);
      }
    }
  }

  lemma FinishLeak(s: State, h: Id)
    requires NoLeak(s) && Enabled(s, Finish(h))
    ensures NoLeak(Apply(s, Finish(h)))
  {
    var r := Apply(s, Finish(h));
    forall c | c in r.created ensures c in r.cancelled || c in r.subs.Values || Held(r, c) {
      if Held(s, c) {
        var x :| x in s.handlers && Holds(s.handlers[x].place, c);
        assert x in r.handlers && Holds(r.handlers[x].place, c);
      }
    }
  }

  /** Steps that leave the handlers alone. */
  lemma QuietLeak(s: State, r: State)
    requires NoLeak(s) && r.handlers == s.handlers && r.created == s.created && r.streams <= s.streams
    requires s.cancelled <= r.cancelled && s.subs.Values <= r.subs.Values + r.cancelled
    ensures NoLeak(r)
  {
    forall c | c in r.created ensures c in r.cancelled || c in r.subs.Values || Held(r, c) {
      if Held(s, c) {
        var x :| x in s.handlers && Holds(s.handlers[x].place, c);
        assert Holds(r.handlers[x].place, c);
      }
    }
  }

  lemma StepLeak(s: State, e: Step)
    requires NoLeak(s) && Placed(s) && Enabled(s, e)
    ensures NoLeak(Apply(s, e))
  {
    hide NoLeak;
    match e {
      case Accept(h, kind) => AcceptLeak(s, h, kind);
      case Refuse(h) => MoveLeak(s, Apply(s, e), h) by { Streams(s); }
      case Create(h, ctx) => CreateLeak(s, h, ctx);
      case Swap(h) => SwapLeak(s, h);
      case StopPrevious(h) => MoveLeak(s, Apply(s, e), h) by { Streams(s); }
      case Launch(h) => MoveLeak(s, Apply(s, e), h) by { Streams(s); }
      case Take(h) => TakeLeak(s, h);
      case StopTaken(h) => MoveLeak(s, Apply(s, e), h) by { Streams(s); }
      case Work(h) => MoveLeak(s, Apply(s, e), h) by { Streams(s); }
      case Finish(h) => FinishLeak(s, h);
      case StreamEnds(ctx) => QuietLeak(s, Apply(s, e));
      case EndOfInput => QuietLeak(s, Apply(s, e));
      case StopAll => QuietLeak(s, Apply(s, e));
      case Return => QuietLeak(s, Apply(s, e));
    }
  }

  lemma Streams(s: State)
    requires NoLeak(s)
    ensures s.streams <= s.created
    ensures forall h :: h in s.handlers && s.handlers[h].place.Launching? ==> s.handlers[h].place.ctx in s.created
  {}

  lemma StepPlaced(s: State, e: Step)
    requires Placed(s) && Enabled(s, e)
    ensures Placed(Apply(s, e))
  {}

  lemma StepPhase(s: State, e: Step)
    requires PhaseOK(s) && Enabled(s, e)
    ensures PhaseOK(Apply(s, e))
  {}

  /** A handler moves on, and may cancel what it held. */
  lemma MoveExclusive(s: State, r: State, h: Id)
    requires Exclusive(s) && h in s.handlers && r.handlers.Keys == s.handlers.Keys && r.subs == s.subs && r.created == s.created
    requires forall x :: x in s.handlers && x != h ==> r.handlers[x] == s.handlers[x]
    requires forall c :: !Holds(r.handlers[h].place, c)
    requires s.cancelled <= r.cancelled <= s.created
    requires forall c :: c in r.cancelled && c !in s.cancelled ==> Holds(s.handlers[h].place, c)
    ensures Exclusive(r)
  {
    forall c: Ctx | Held(r, c) ensures Held(s, c) {
      var x :| x in r.handlers && Holds(r.handlers[x].place, c);
      assert Holds(s.handlers[x].place, c);
    }
  }

  /** Handlers come and go without holding anything. */
  lemma QuietExclusive(s: State, r: State)
    requires Exclusive(s) && r.created == s.created && r.cancelled == s.cancelled && r.subs == s.subs
    requires forall h, c :: h in r.handlers && Holds(r.handlers[h].place, c) ==> h in s.handlers && r.handlers[h] == s.handlers[h]
    ensures Exclusive(r)
  {
    forall c: Ctx | Held(r, c) ensures Held(s, c) {
      var x :| x in r.handlers && Holds(r.handlers[x].place, c);
      assert Holds(s.handlers[x].place, c);
    }
  }

  lemma CreateExclusive(s: State, h: Id, ctx: Ctx)
    requires Exclusive(s) && Enabled(s, Create(h, ctx))
    ensures Exclusive(Apply(s, Create(h, ctx)))
  {
    var r := Apply(s, Create(h, ctx));
    forall c: Ctx | Held(r, c) ensures Held(s, c) || c == ctx {
      var x :| x in r.handlers && Holds(r.handlers[x].place, c);
      if x != h { assert Holds(s.handlers[x].place, c); }
    }
  }

  lemma SwapExclusive(s: State, h: Id)
    requires Exclusive(s) && Enabled(s, Swap(h))
    ensures Exclusive(Apply(s, Swap(h)))
  {
    var r := Apply(s, Swap(h));
    var name, ctx := s.handlers[h].kind.name, s.handlers[h].place.ctx;
    assert Holds(s.handlers[h].place, ctx);
    assert Held(s, ctx);
    forall c: Ctx | Held(r, c) ensures (Held(s, c) || Registered(s.subs, name) == Some(c)) && c != ctx {
      var x :| x in r.handlers && Holds(r.handlers[x].place, c);
      if x != h { assert Holds(s.handlers[x].place, c); }
    }
    TakenOver(s, r, h, name);
  }

  lemma TakeExclusive(s: State, h: Id)
    requires Exclusive(s) && Enabled(s, Take(h))
    ensures Exclusive(Apply(s, Take(h)))
  {
    var r := Apply(s, Take(h));
    var name := s.handlers[h].kind.name;
    forall c: Ctx | Held(r, c) ensures Held(s, c) || Registered(s.subs, name) == Some(c) {
      var x :| x in r.handlers && Holds(r.handlers[x].place, c);
      if x != h { assert Holds(s.handlers[x].place, c); }
    }
    TakenOver(s, r, h, name);
  }

  /** The handler that takes a registered context is its only holder. */
  lemma TakenOver(s: State, r: State, h: Id, name: string)
    requires Exclusive(s) && h in s.handlers && r.handlers.Keys == s.handlers.Keys
    requires forall x :: x in s.handlers && x != h ==> r.handlers[x] == s.handlers[x]
    requires forall c: Ctx :: Holds(r.handlers[h].place, c) ==> Registered(s.subs, name) == Some(c)
    ensures forall x, c :: x in r.handlers && Holds(r.handlers[x].place, c) ==> c in s.created && c !in s.cancelled
    ensures forall x, y, c :: x in r.handlers && y in r.handlers && Holds(r.handlers[x].place, c) && Holds(r.handlers[y].place, c) ==> x == y
  {
    forall x, c | x in r.handlers && Holds(r.handlers[x].place, c) && x != h ensures Held(s, c) {
      assert Holds(s.handlers[x].place, c);
    }
  }

  lemma StopAllExclusive(s: State)
    requires Exclusive(s) && Enabled(s, StopAll)
    ensures Exclusive(Apply(s, StopAll))
  {}

  lemma StepExclusive(s: State, e: Step)
    requires Exclusive(s) && Enabled(s, e)
    ensures Exclusive(Apply(s, e))
  {
    hide Exclusive;
    match e {
      case Accept(h, kind) => QuietExclusive(s, Apply(s, e));
      case Create(h, ctx) => CreateExclusive(s, h, ctx);
      case Swap(h) => SwapExclusive(s, h);
      case StopPrevious(h) => HeldCreated(s, h); MoveExclusive(s, Apply(s, e), h);
      case Take(h) => TakeExclusive(s, h);
      case StopTaken(h) => HeldCreated(s, h); MoveExclusive(s, Apply(s, e), h);
      case StopAll => StopAllExclusive(s);
      case _ => QuietExclusive(s, Apply(s, e));
    }
  }

  lemma HeldCreated(s: State, h: Id)
    requires Exclusive(s) && h in s.handlers
    ensures s.cancelled <= s.created && forall c :: Holds(s.handlers[h].place, c) ==> c in s.created
  {}

  /** A step cancels only a context that its handler replaced or took out, or
      every registered one at the end; and only a subscriber or an unsubscriber
      of its own name takes one out of the registry. */
  lemma StepCancels(s: State, e: Step, c: Ctx)
    requires Enabled(s, e)
    ensures c in Apply(s, e).cancelled <==> (
      || c in s.cancelled
      || (e.StopPrevious? && s.handlers[e.id].place.previous == Some(c))
      || (e.StopTaken? && s.handlers[e.id].place.stop == Some(c))
      || (e.StopAll? && c in s.subs.Values))
  {}

  lemma StepRegisters(s: State, e: Step, name: string)
    requires Enabled(s, e)
    ensures var r, was := Registered(Apply(s, e).subs, name), Registered(s.subs, name);
      if e.Swap? && s.handlers[e.id].kind.name == name then
        r == Some(s.handlers[e.id].place.ctx) && Apply(s, e).handlers[e.id].place == Swapped(s.handlers[e.id].place.ctx, was)
      else if e.Take? && s.handlers[e.id].kind.name == name then r == None && Apply(s, e).handlers[e.id].place == Taken(was)
      else if e.StopAll? then r == None
      else r == was
  {}

  /** A request waits only when 32 others run. */
  lemma SlotFree(s: State, h: Id, kind: Kind)
    requires Inv(s) && s.phase == Reading && h !in s.handlers
    ensures Enabled(s, Accept(h, kind)) <==> kind.Subscribe? || |Others(s)| < 32
  {
    hide NoLeak, Placed, Exclusive;
  }

  lemma StepKeeps(s: State, e: Step)
    requires Inv(s) && Enabled(s, e)
    ensures Inv(Apply(s, e))
  {
    hide NoLeak, Placed, SlotsOK, PhaseOK, Exclusive, Enabled, Apply;
    StepLeak(s, e);
    StepExclusive(s, e);
    StepPlaced(s, e);
    StepSlots(s, e);
    StepPhase(s, e);
  }

  // ------------------------------------------------------------------
  // Runs

  ghost predicate Legal(s: State, steps: seq<Step>)
    decreases |steps|
  {
    steps == [] || (Enabled(s, steps[0]) && Legal(Apply(s, steps[0]), steps[1..]))
  }

  ghost function After(s: State, steps: seq<Step>): State
    requires Legal(s, steps)
    decreases |steps|
  {
    if steps == [] then s else After(Apply(s, steps[0]), steps[1..])
  }

  lemma {:induction false} RunKeeps(s: State, steps: seq<Step>)
    requires Inv(s) && Legal(s, steps)
    ensures Inv(After(s, steps))
    decreases |steps|
  {
    hide Inv, Enabled, Apply;
    if steps != [] {
      StepKeeps(s, steps[0]);
      RunKeeps(Apply(s, steps[0]), steps[1..]);
    }
  }

  /** In every interleaving: no context is lost, a registered one is alive and
      has one name, never more than 32 other requests run at once, and once serve has stopped everything every context
      ever created is cancelled, so it only ever waits for streams whose
      contexts are. */
  lemma NothingLeaks(steps: seq<Step>)
    requires Legal(START, steps)
    ensures var s := After(START, steps);
      && (forall c :: c in s.created ==> c in s.cancelled || c in s.subs.Values || Held(s, c))
      && (forall n :: n in s.subs ==> s.subs[n] in s.created && s.subs[n] !in s.cancelled)
      && (forall n, m :: n in s.subs && m in s.subs && s.subs[n] == s.subs[m] ==> n == m)
      && |Others(s)| <= 32
      && (s.phase == Draining || s.phase == Returned ==> s.created <= s.cancelled && s.streams <= s.cancelled)
  {
    hide Enabled, Apply;
    assert Others(START) == {};
    RunKeeps(START, steps);
    var s := After(START, steps);
    if s.phase == Draining || s.phase == Returned {
      forall c | c in s.created ensures c in s.cancelled {}
    }
  }

  // ------------------------------------------------------------------
  // The registry under its lock

  class Registry {
    var subs: map<string, Ctx>
    var cancelled: set<Ctx>

    constructor ()
      ensures subs == map[] && cancelled == {}
    {
      subs, cancelled := map[], {};
    }

    method Stop(c: Ctx)
      modifies this`cancelled
      ensures cancelled == old(cancelled) + {c}
    {
      cancelled := cancelled + {c};
    }

    /** launchSubscribe: the new context takes the name, the old one stops. */
    method Replace(name: string, ctx: Ctx)
      modifies this
      ensures subs == old(subs)[name := ctx]
      ensures cancelled == old(cancelled) + (if name in old(subs) then {old(subs)[name]} else {})
    {
      var previous := Registered(subs, name);
      subs := subs[name := ctx];
      if previous.Some? {
        Stop(previous.value);
      }
    }

    /** The unsubscribe case of dispatch. */
    method Remove(name: string) returns (stopped: bool)
      modifies this
      ensures subs == old(subs) - {name} && stopped == (name in old(subs))
      ensures cancelled == old(cancelled) + (if stopped then {old(subs)[name]} else {})
    {
      var stop := Registered(subs, name);
      subs := subs - {name};
      if stop.Some? {
        Stop(stop.value);
      }
      stopped := stop.Some?;
    }

    /** stopAll. */
    method StopEverything()
      modifies this
      ensures subs == map[] && cancelled == old(cancelled) + old(subs).Values
    {
      ghost var all := subs;
      while subs != map[]
        invariant subs.Keys <= all.Keys && forall n :: n in subs ==> subs[n] == all[n]
        invariant forall c :: c in cancelled <==> c in old(cancelled) || exists n :: n in all && n !in subs && all[n] == c
        decreases |subs|
      {
        var name :| name in subs;
        var before := subs;
        Stop(subs[name]);
        subs := subs - {name};
        assert subs.Keys == before.Keys - {name};
        Smaller(before, name);
        forall c ensures c in cancelled <==> c in old(cancelled) || exists n :: n in all && n !in subs && all[n] == c {
          if c == all[name] { assert name in all && name !in subs && all[name] == c; }
        }
      }
    }
  }

  lemma Smaller(m: map<string, Ctx>, name: string)
    requires name in m
    ensures |m - {name}| < |m|
  {
    assert (m - {name}).Keys == m.Keys - {name};
    assert |m| == |m.Keys| && |m - {name}| == |(m - {name}).Keys|;
  }
}
