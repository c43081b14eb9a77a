/** The remote signer connection of tinyclient/bridge.js: reconnect tasks,
    manual connections, sign-out, losses and guarded calls, as steps that run
    without interruption between two awaits. */
module Signer {
  import opened Prelude

  /** Signers, tasks and calls are named by numbers that are never reused. */
  type Id = nat

  /** Where a reconnect task waits. A task that has ended still holds the
      single-flight slot until its `finally` runs. */
  datatype Place = Begin | Native | Ping | Load | Connect(opening: Id) | Identify(opening: Id) | Ended | Released

  datatype Task = Task(generation: nat, force: bool, place: Place)

  datatype Phase = InFlight | Canceled | Answered | Errored(losing: bool) | Succeeded | Failed

  datatype Call = Call(target: Id, phase: Phase)

  /** `closed` and `candidates` record history: every signer closed so far and
      every signer a reconnect opened. */
  datatype State = State(
    activeRemote: Option<Id>, activeSigner: Option<Id>, tinySigner: Option<Id>,
    generation: nat, reconnecting: Option<Id>, pending: map<Id, set<Id>>,
    tasks: map<Id, Task>, calls: map<Id, Call>,
    known: set<Id>, closed: set<Id>, candidates: set<Id>)

  const START: State := State(None, None, None, 0, None, map[], map[], map[], {}, {}, {})

  // ------------------------------------------------------------------
  // The functions that change the connection

  function CancelAll(calls: map<Id, Call>, waiting: set<Id>): (r: map<Id, Call>)
    ensures r.Keys == calls.Keys
  {
    map c | c in calls ::
      if c in waiting && calls[c].phase == InFlight then calls[c].(phase := Canceled) else calls[c]
  }

  /** closeRemote: rejects what waits on the signer and closes it. */
  function Close(s: State, signer: Option<Id>): State {
    match signer
    case None => s
    case Some(x) =>
      var waiting := if x in s.pending then s.pending[x] else {};
      s.(calls := CancelAll(s.calls, waiting), pending := s.pending - {x}, closed := s.closed + {x})
  }

  function Clear(s: State): State { s.(activeRemote := None, activeSigner := None, tinySigner := None) }

  /** loseRemote. */
  function Lose(s: State, x: Id): State {
    if s.activeRemote != Some(x) then s else Close(Clear(s), Some(x))
  }

  /** setSigner. */
  function Install(s: State, x: Id): State {
    var previous := s.activeRemote;
    var next := s.(generation := s.generation + 1, activeRemote := Some(x), activeSigner := Some(x), tinySigner := Some(x));
    if previous != Some(x) then Close(next, previous) else next
  }

  /** The sign-out step, after the server agreed. */
  function SignOut(s: State): State {
    Clear(Close(s.(generation := s.generation + 1), s.activeRemote))
  }

  function Move(s: State, t: Id, place: Place): State
    requires t in s.tasks
  {
    s.(tasks := s.tasks[t := s.tasks[t].(place := place)])
  }

  function Candidate(place: Place): Option<Id> {
    match place
    case Connect(x) => Some(x)
    case Identify(x) => Some(x)
    case _ => None
  }

  /** The catch block of a reconnect. */
  function Fail(s: State, t: Id): State
    requires t in s.tasks
  {
    var task := s.tasks[t];
    var shut := Close(s, Candidate(task.place));
    var cleared := if task.generation == shut.generation then Close(Clear(shut), shut.activeRemote) else shut;
    Move(cleared, t, Ended)
  }

  // ------------------------------------------------------------------
  // Steps

  datatype Stored = NotStored | Broken | Found(opening: Id)

  datatype Step =
    | StartReconnect(task: Id, force: bool)
    | Enter(task: Id, to: Place)
    | NativeChecked(task: Id)
    | Pinged(task: Id, ok: bool)
    | Loaded(task: Id, stored: Stored)
    | Connected(task: Id, ok: bool)
    | Identified(task: Id, ok: bool)
    | Release(task: Id)
    | ManualConnect(signer: Id)
    | LogOut
    | Drop(signer: Id)
    | StartCall(call: Id, target: Id)
    | Answer(call: Id)
    | Error(call: Id, losing: bool)
    | FinishCall(call: Id)

  predicate At(s: State, t: Id, place: Place) { t in s.tasks && s.tasks[t].place == place }

  predicate Enabled(s: State, e: Step) {
    match e
    case StartReconnect(t, _) => s.reconnecting == None && t !in s.tasks
    case Enter(t, to) =>
      At(s, t, Begin) && (to == Native || to == Ended || to == Load || (to == Ping && !s.tasks[t].force && s.activeRemote.Some?))
    case NativeChecked(t) => At(s, t, Native)
    case Pinged(t, _) => At(s, t, Ping)
    case Loaded(t, stored) => At(s, t, Load) && (stored.Found? ==> stored.opening !in s.known)
    case Connected(t, _) => t in s.tasks && s.tasks[t].place.Connect?
    case Identified(t, _) => t in s.tasks && s.tasks[t].place.Identify?
    case Release(t) => At(s, t, Ended)
    case ManualConnect(x) => x !in s.known
    case LogOut => true
    case Drop(x) => true
    case StartCall(c, x) => c !in s.calls && x in s.known
    case Answer(c) => c in s.calls && s.calls[c].phase == InFlight
    case Error(c, _) => c in s.calls && s.calls[c].phase == InFlight
    case FinishCall(c) => c in s.calls && (s.calls[c].phase in {Canceled, Answered} || s.calls[c].phase.Errored?)
  }

  function Apply(s: State, e: Step): State
    requires Enabled(s, e)
  {
    match e
    case StartReconnect(t, force) => s.(reconnecting := Some(t), tasks := s.tasks[t := Task(s.generation, force, Begin)])
    case Enter(t, to) => Move(s, t, to)
    case NativeChecked(t) => Move(s, t, Ended)
    case Pinged(t, ok) => Move(s, t, if ok || s.tasks[t].generation != s.generation then Ended else Load)
    case Loaded(t, stored) =>
      (match stored
       case NotStored => Move(s, t, Ended)
       case Broken => Fail(s, t)
       case Found(x) => Move(s, t, Connect(x)).(known := s.known + {x}, candidates := s.candidates + {x}))
    case Connected(t, ok) => if ok then Move(s, t, Identify(s.tasks[t].place.opening)) else Fail(s, t)
    case Identified(t, ok) => if ok then TryInstall(s, t) else Fail(s, t)
    case Release(t) => Move(s, t, Released).(reconnecting := if s.reconnecting == Some(t) then None else s.reconnecting)
    case ManualConnect(x) => Install(s.(known := s.known + {x}), x)
    case LogOut => SignOut(s)
    case Drop(x) => Lose(s, x)
    case StartCall(c, x) => BeginCall(s, c, x)
    case Answer(c) => s.(calls := s.calls[c := s.calls[c].(phase := Answered)])
    case Error(c, losing) => s.(calls := s.calls[c := s.calls[c].(phase := Errored(losing))])
    case FinishCall(c) => Finish(s, c)
  }

  /** The candidate proved its identity: it is installed, unless somebody else
      connected or signed out in the meantime. */
  function TryInstall(s: State, t: Id): State
    requires t in s.tasks && s.tasks[t].place.Identify?
  {
    var x := s.tasks[t].place.opening;
    if s.tasks[t].generation != s.generation then Move(Close(s, Some(x)), t, Ended)
    else Move(Install(s, x), t, Ended)
  }

  /** A guarded call starts only on the active signer. */
  function BeginCall(s: State, c: Id, x: Id): State {
    if s.activeRemote != Some(x) then s.(calls := s.calls[c := Call(x, Failed)])
    else
      var waiting := if x in s.pending then s.pending[x] else {};
      s.(calls := s.calls[c := Call(x, InFlight)], pending := s.pending[x := waiting + {c}])
  }

  /** A guarded call returns: it succeeds only if it was answered and its signer
      is still the active one; an error that says nothing about consent loses
      the signer. */
  function Finish(s: State, c: Id): State
    requires c in s.calls
  {
    var call := s.calls[c];
    var x := call.target;
    var good := call.phase == Answered && s.activeRemote == Some(x);
    var lost := if good || (call.phase.Errored? && !call.phase.losing) then s else Lose(s, x);
    var done := lost.(calls := lost.calls[c := Call(x, if good then Succeeded else Failed)]);
    if x in done.pending then done.(pending := done.pending[x := done.pending[x] - {c}]) else done
  }

  // ------------------------------------------------------------------
  // What every step keeps

  /** The three references to the active signer move together, and it is open. */
  ghost predicate ActiveOK(s: State) {
    && s.activeRemote == s.activeSigner == s.tinySigner
    && (s.activeRemote.Some? ==> s.activeRemote.value in s.known && s.activeRemote.value !in s.closed)
    && s.closed <= s.known && s.candidates <= s.known
  }

  /** Only the reconnect in the slot is still under way. */
  ghost predicate SlotOK(s: State) {
    forall t :: t in s.tasks ==> s.tasks[t].generation <= s.generation && (s.tasks[t].place != Released ==> s.reconnecting == Some(t))
  }

  ghost predicate Holds(s: State, t: Id, x: Id) { t in s.tasks && Candidate(s.tasks[t].place) == Some(x) }

  /** A candidate is held by its task, active, or closed. */
  ghost predicate CandidatesOK(s: State) {
    && (forall x :: x in s.candidates ==> x in s.closed || s.activeRemote == Some(x) || exists t :: Holds(s, t, x))
    && forall t, x :: Holds(s, t, x) ==> x in s.candidates && x !in s.closed && s.activeRemote != Some(x)
  }

  /** A call waits only on the active signer, where closing will find it. */
  ghost predicate CallsOK(s: State) {
    forall c :: c in s.calls && s.calls[c].phase == InFlight
      ==> s.activeRemote == Some(s.calls[c].target) && s.calls[c].target in s.pending && c in s.pending[s.calls[c].target]
  }

  ghost predicate Inv(s: State) { ActiveOK(s) && SlotOK(s) && CandidatesOK(s) && CallsOK(s) }

  /** The reconnect in the slot is the only one that can hold a candidate. */
  lemma OneHolder(s: State, t: Id, x: Id, u: Id, y: Id)
    requires SlotOK(s) && Holds(s, t, x) && Holds(s, u, y)
    ensures t == u && x == y
  {}

  /** Closing the active signer once nothing refers to it. */
  lemma CloseActive(s: State)
    requires Inv(s)
    ensures Inv(Close(Clear(s), s.activeRemote)) && Inv(Clear(Close(s, s.activeRemote)))
  {
    hide SlotOK;
    var r := Close(Clear(s), s.activeRemote);
    assert r == Clear(Close(s, s.activeRemote));
    assert r.tasks == s.tasks;
    forall t, x ensures Holds(r, t, x) <==> Holds(s, t, x) {}
    assert SlotOK(r) by { SlotSame(s, r); }
  }

  lemma SlotSame(s: State, r: State)
    requires SlotOK(s) && r.tasks == s.tasks && r.generation >= s.generation && r.reconnecting == s.reconnecting
    ensures SlotOK(r)
  {}

  lemma LoseKeeps(s: State, x: Id)
    requires Inv(s)
    ensures Inv(Lose(s, x))
  {
    hide Inv, Close, Clear;
    if s.activeRemote == Some(x) { CloseActive(s); }
  }

  lemma RaiseKeeps(s: State)
    requires Inv(s)
    ensures Inv(s.(generation := s.generation + 1))
  {
    var r := s.(generation := s.generation + 1);
    forall t, x ensures Holds(r, t, x) <==> Holds(s, t, x) {}
  }

  /** A signer nobody holds is put in place of the active one. */
  lemma InstallKeeps(s: State, x: Id)
    requires Inv(s) && x in s.known && x !in s.closed && s.activeRemote != Some(x) && forall t :: !Holds(s, t, x)
    ensures Inv(Install(s, x))
  {
    hide SlotOK;
    var r := Install(s, x);
    assert SlotOK(r) by { SlotSame(s, r); }
    forall t, y ensures Holds(r, t, y) <==> Holds(s, t, y) {}
  }

  /** A task moves on and holds what it held. */
  lemma MoveKeeps(s: State, t: Id, place: Place)
    requires Inv(s) && t in s.tasks && s.tasks[t].place != Released && place != Released
    requires Candidate(place) == Candidate(s.tasks[t].place)
    ensures Inv(Move(s, t, place))
  {
    var r := Move(s, t, place);
    forall u, y ensures Holds(r, u, y) <==> Holds(s, u, y) {}
  }

  function Abandon(s: State, t: Id): State
    requires t in s.tasks
  {
    Move(Close(s, Candidate(s.tasks[t].place)), t, Ended)
  }

  /** A task ends and closes its candidate, if it has one. */
  lemma AbandonKeeps(s: State, t: Id)
    requires Inv(s) && t in s.tasks && s.tasks[t].place != Released
    ensures Inv(Abandon(s, t))
  {
    var held := Candidate(s.tasks[t].place);
    if held == None {
      MoveKeeps(s, t, Ended);
    } else {
      hide CallsOK;
      var x, r := held.value, Abandon(s, t);
      assert Holds(s, t, x);
      forall u, y ensures Holds(r, u, y) <==> Holds(s, u, y) && y != x {
        if Holds(s, u, y) { OneHolder(s, t, x, u, y); }
      }
      CloseOther(s, x);
      assert CallsOK(r) by { CallsSame(Close(s, held), r); }
    }
  }

  /** Closing a signer that is not the active one cancels nothing that waits. */
  lemma CloseOther(s: State, x: Id)
    requires CallsOK(s) && s.activeRemote != Some(x)
    ensures CallsOK(Close(s, Some(x)))
  {}

  lemma CallsSame(s: State, r: State)
    requires CallsOK(s) && r.calls == s.calls && r.pending == s.pending && r.activeRemote == s.activeRemote
    ensures CallsOK(r)
  {}

  lemma FailKeeps(s: State, t: Id)
    requires Inv(s) && t in s.tasks && s.tasks[t].place != Released
    ensures Inv(Fail(s, t))
  {
    hide Inv, CancelAll;
    AbandonKeeps(s, t);
    var r := Abandon(s, t);
    if s.tasks[t].generation == s.generation {
      CloseActive(r);
      assert Fail(s, t) == Close(Clear(r), r.activeRemote);
    } else {
      assert Fail(s, t) == r;
    }
  }

  /** The candidate of a task becomes the active signer. */
  lemma CandidateInstalled(s: State, t: Id, x: Id)
    requires Inv(s) && Holds(s, t, x)
    ensures Inv(Move(Install(s, x), t, Ended))
  {
    hide CallsOK;
    var r := Move(Install(s, x), t, Ended);
    forall u, y ensures Holds(r, u, y) <==> Holds(s, u, y) && y != x {
      if Holds(s, u, y) { OneHolder(s, t, x, u, y); }
    }
    assert CallsOK(r) by { InstallCalls(s, x); CallsSame(Install(s, x), r); }
  }

  lemma InstallCalls(s: State, x: Id)
    requires CallsOK(s) && s.activeRemote != Some(x)
    ensures CallsOK(Install(s, x))
  {}

  lemma CandidateOpened(s: State, t: Id, x: Id)
    requires Inv(s) && At(s, t, Load) && x !in s.known
    ensures Inv(Move(s, t, Connect(x)).(known := s.known + {x}, candidates := s.candidates + {x}))
  {
    var r := Move(s, t, Connect(x)).(known := s.known + {x}, candidates := s.candidates + {x});
    assert Holds(r, t, x);
    forall u, y ensures Holds(r, u, y) <==> Holds(s, u, y) || (u == t && y == x) {}
  }

  lemma ReleaseKeeps(s: State, t: Id)
    requires Inv(s) && At(s, t, Ended)
    ensures Inv(Apply(s, Release(t)))
  {
    var r := Apply(s, Release(t));
    forall u, y ensures Holds(r, u, y) <==> Holds(s, u, y) {}
  }

  lemma StartKeeps(s: State, t: Id, force: bool)
    requires Inv(s) && s.reconnecting == None && t !in s.tasks
    ensures Inv(Apply(s, StartReconnect(t, force)))
  {
    var r := Apply(s, StartReconnect(t, force));
    forall u, y ensures Holds(r, u, y) <==> Holds(s, u, y) {}
  }

  lemma ManualKeeps(s: State, x: Id)
    requires Inv(s) && x !in s.known
    ensures Inv(Apply(s, ManualConnect(x)))
  {
    hide CallsOK;
    var r := s.(known := s.known + {x});
    forall u, y ensures Holds(r, u, y) <==> Holds(s, u, y) {}
    CallsSame(s, r);
    InstallKeeps(r, x);
  }

  /** Steps of a guarded call leave the connection to loseRemote. */
  lemma CallKeeps(s: State, r: State)
    requires Inv(s) && CallsOK(r) && r == s.(calls := r.calls, pending := r.pending)
    ensures Inv(r)
  {
    forall u, y ensures Holds(r, u, y) <==> Holds(s, u, y) {}
  }

  lemma FinishKeeps(s: State, c: Id)
    requires Inv(s) && Enabled(s, FinishCall(c))
    ensures Inv(Finish(s, c))
  {
    var call := s.calls[c];
    var good := call.phase == Answered && s.activeRemote == Some(call.target);
    var lost := if good || (call.phase.Errored? && !call.phase.losing) then s else Lose(s, call.target);
    LoseKeeps(s, call.target);
    var r := Finish(s, c);
    assert CallsOK(r) by {
      hide Lose;
      assert CallsOK(lost);
    }
    CallKeeps(lost, r);
  }

  lemma StepKeeps(s: State, e: Step)
    requires Inv(s) && Enabled(s, e)
    ensures Inv(Apply(s, e))
  {
    hide Inv, Close, Install, Fail, Lose, Finish, Clear, Move;
    match e {
      case StartReconnect(t, force) => StartKeeps(s, t, force);
      case Enter(t, to) => MoveKeeps(s, t, to);
      case NativeChecked(t) => MoveKeeps(s, t, Ended);
      case Pinged(t, ok) => MoveKeeps(s, t, if ok || s.tasks[t].generation != s.generation then Ended else Load);
      case Loaded(t, stored) =>
        match stored {
          case NotStored => MoveKeeps(s, t, Ended);
          case Broken => FailKeeps(s, t);
          case Found(x) => CandidateOpened(s, t, x);
        }
      case Connected(t, ok) =>
        if ok { MoveKeeps(s, t, Identify(s.tasks[t].place.opening)); } else { FailKeeps(s, t); }
      case Identified(t, ok) =>
        if !ok {
          FailKeeps(s, t);
        } else if s.tasks[t].generation != s.generation {
          AbandonKeeps(s, t);
        } else {
          CandidateInstalled(s, t, s.tasks[t].place.opening);
        }
      case Release(t) => ReleaseKeeps(s, t);
      case ManualConnect(x) => ManualKeeps(s, x);
      case LogOut =>
        RaiseKeeps(s);
        CloseActive(s.(generation := s.generation + 1));
      case Drop(x) => LoseKeeps(s, x);
      case StartCall(c, x) => StartCallKeeps(s, c, x);
      case Answer(c) => PhaseKeeps(s, c, Answered);
      case Error(c, losing) => PhaseKeeps(s, c, Errored(losing));
      case FinishCall(c) => FinishKeeps(s, c);
    }
  }

  lemma StartCallKeeps(s: State, c: Id, x: Id)
    requires Inv(s) && c !in s.calls
    ensures Inv(BeginCall(s, c, x))
  {
    CallKeeps(s, BeginCall(s, c, x));
  }

  lemma PhaseKeeps(s: State, c: Id, phase: Phase)
    requires Inv(s) && c in s.calls && phase != InFlight
    ensures Inv(s.(calls := s.calls[c := s.calls[c].(phase := phase)]))
  {
    CallKeeps(s, s.(calls := s.calls[c := s.calls[c].(phase := phase)]));
  }
}
