/** Whole runs of the signer connection of tinyclient/bridge.js, in every
    interleaving, and the connection's own functions as they run. */
module SignerRuns {
  import opened Prelude
  import opened Signer

  ghost predicate Legal(s: State, steps: seq<Step>)
    decreases |steps|
  {
    steps == [] || (Enabled(s, steps[0]) && Legal(Apply(s, steps[0]), steps[1..]))
  }

  ghost function After(s: State, steps: seq<Step>): State
    requires Legal(s, steps)
    decreases |steps|
  {
    if steps == [] then s else After(Apply(s, steps[0]), steps[1..])
  }

  lemma {:induction false} RunKeeps(s: State, steps: seq<Step>)
    requires Inv(s) && Legal(s, steps)
    ensures Inv(After(s, steps))
    decreases |steps|
  {
    hide Inv, Enabled, Apply;
    if steps != [] {
      StepKeeps(s, steps[0]);
      RunKeeps(Apply(s, steps[0]), steps[1..]);
    }
  }

  ghost predicate UnderWay(s: State, t: Id) { t in s.tasks && s.tasks[t].place != Released }

  /** In every state any run reaches: the three references agree, the active
      signer is not closed, at most one reconnect is in flight, every candidate
      a finished reconnect opened is active or closed, and no call waits on a
      signer other than the active one. */
  lemma AlwaysSafe(steps: seq<Step>)
    requires Legal(START, steps)
    ensures var s := After(START, steps);
      && s.activeRemote == s.activeSigner == s.tinySigner
      && (s.activeRemote.Some? ==> s.activeRemote.value !in s.closed)
      && (forall t, u :: UnderWay(s, t) && UnderWay(s, u) ==> t == u)
      && ((forall t :: !UnderWay(s, t)) ==> forall x :: x in s.candidates ==> x in s.closed || s.activeRemote == Some(x))
      && forall c :: c in s.calls && s.calls[c].phase == InFlight ==> s.activeRemote == Some(s.calls[c].target)
  {
    hide Enabled, Apply;
    RunKeeps(START, steps);
    var s := After(START, steps);
    if forall t :: !UnderWay(s, t) {
      forall x | x in s.candidates ensures x in s.closed || s.activeRemote == Some(x) {
        if t :| Holds(s, t, x) {
          HolderUnderWay(s, t, x);
        }
      }
    }
  }

  lemma HolderUnderWay(s: State, t: Id, x: Id)
    requires Holds(s, t, x)
    ensures UnderWay(s, t)
  {}

  // ------------------------------------------------------------------
  // What never goes back

  /** A later state: generations, closings and call results only accumulate. */
  ghost predicate Later(s: State, r: State) {
    && s.generation <= r.generation && s.closed <= r.closed
    && (forall t :: t in s.tasks ==> t in r.tasks && r.tasks[t].generation == s.tasks[t].generation)
    && (forall c :: c in s.calls ==> c in r.calls && r.calls[c].target == s.calls[c].target)
    && (forall c :: c in s.calls && s.calls[c].phase == Failed ==> r.calls[c].phase == Failed)
    && (s.activeRemote.Some? ==> r.activeRemote == s.activeRemote || s.activeRemote.value in r.closed)
  }

  lemma CloseLater(s: State, x: Option<Id>)
    ensures Later(s, Close(s, x)) && Close(s, x).tasks == s.tasks && Close(s, x).activeRemote == s.activeRemote
    ensures x.Some? ==> x.value in Close(s, x).closed
  {}

  lemma LoseLater(s: State, x: Id)
    ensures Later(s, Lose(s, x)) && Lose(s, x).tasks == s.tasks
  {}

  lemma InstallLater(s: State, x: Id)
    ensures Later(s, Install(s, x)) && Install(s, x).tasks == s.tasks
  {}

  lemma FailLater(s: State, t: Id)
    requires t in s.tasks
    ensures Later(s, Fail(s, t))
  {}

  lemma FinishLater(s: State, c: Id)
    requires Enabled(s, FinishCall(c))
    ensures Later(s, Finish(s, c))
  {
    hide CancelAll;
    LoseLater(s, s.calls[c].target);
  }

  lemma MoveLater(s: State, r: State, t: Id, place: Place)
    requires Later(s, r) && t in r.tasks
    ensures Later(s, Move(r, t, place))
  {}

  lemma CallLater(s: State, c: Id, call: Call)
    requires c in s.calls ==> s.calls[c].target == call.target && s.calls[c].phase != Failed
    ensures Later(s, s.(calls := s.calls[c := call]))
  {}

  /** Steps that leave tasks, calls, closings and the active signer alone. */
  lemma SameLater(s: State, r: State)
    requires r == s.(known := r.known, candidates := r.candidates, pending := r.pending, generation := r.generation)
    requires s.generation <= r.generation
    ensures Later(s, r)
  {}

  lemma LaterOn(a: State, b: State, c: State)
    requires Later(a, b) && Later(b, c)
    ensures Later(a, c)
  {}

  lemma StartLater(s: State, t: Id, task: Task)
    requires t !in s.tasks
    ensures Later(s, s.(reconnecting := Some(t), tasks := s.tasks[t := task]))
  {}

  lemma LogOutLater(s: State)
    ensures Later(s, SignOut(s))
  {}

  lemma StepLater(s: State, e: Step)
    requires Enabled(s, e)
    ensures Later(s, Apply(s, e))
  {
    hide Close, Install, Fail, Lose, Finish, Later, Move, SignOut;
    SameLater(s, s);
    match e {
      case StartReconnect(t, force) => StartLater(s, t, Task(s.generation, force, Begin));
      case Enter(t, to) => MoveLater(s, s, t, to);
      case NativeChecked(t) => MoveLater(s, s, t, Ended);
      case Pinged(t, ok) => MoveLater(s, s, t, if ok || s.tasks[t].generation != s.generation then Ended else Load);
      case Loaded(t, stored) => LoadedLater(s, t, stored);
      case Connected(t, ok) =>
        if ok { MoveLater(s, s, t, Identify(s.tasks[t].place.opening)); } else { FailLater(s, t); }
      case Identified(t, ok) => IdentifiedLater(s, t, ok);
      case Release(t) => ReleaseLater(s, t);
      case ManualConnect(x) =>
        var r := s.(known := s.known + {x});
        SameLater(s, r);
        InstallLater(r, x);
        LaterOn(s, r, Install(r, x));
      case LogOut => LogOutLater(s);
      case Drop(x) => LoseLater(s, x);
      case StartCall(c, x) => StartCallLater(s, c, x);
      case Answer(c) => CallLater(s, c, s.calls[c].(phase := Answered));
      case Error(c, losing) => CallLater(s, c, s.calls[c].(phase := Errored(losing)));
      case FinishCall(c) => FinishLater(s, c);
    }
  }

  lemma LoadedLater(s: State, t: Id, stored: Stored)
    requires Enabled(s, Loaded(t, stored))
    ensures Later(s, Apply(s, Loaded(t, stored)))
  {
    hide Fail;
    if stored.Broken? { FailLater(s, t); }
  }

  lemma IdentifiedLater(s: State, t: Id, ok: bool)
    requires Enabled(s, Identified(t, ok))
    ensures Later(s, Apply(s, Identified(t, ok)))
  {
    hide Close, Install, Fail, Later, Move;
    var x := s.tasks[t].place.opening;
    FailLater(s, t);
    CloseLater(s, Some(x));
    InstallLater(s, x);
    MoveLater(s, Close(s, Some(x)), t, Ended);
    MoveLater(s, Install(s, x), t, Ended);
  }

  lemma ReleaseLater(s: State, t: Id)
    requires Enabled(s, Release(t))
    ensures Later(s, Apply(s, Release(t)))
  {}

  lemma StartCallLater(s: State, c: Id, x: Id)
    requires c !in s.calls
    ensures Later(s, BeginCall(s, c, x))
  {}

  lemma {:induction false} ClosedStays(s: State, steps: seq<Step>, x: Id)
    requires Legal(s, steps) && x in s.closed
    ensures x in After(s, steps).closed
    decreases |steps|
  {
    hide Enabled, Apply;
    if steps != [] {
      StepLater(s, steps[0]);
      ClosedStays(Apply(s, steps[0]), steps[1..], x);
    }
  }

  // ------------------------------------------------------------------
  // A reconnect that was overtaken

  ghost predicate Overtaken(s: State, t: Id) { t in s.tasks && s.tasks[t].generation < s.generation }

  lemma {:induction false} OvertakenStays(s: State, steps: seq<Step>, t: Id)
    requires Legal(s, steps) && Overtaken(s, t)
    ensures Overtaken(After(s, steps), t)
    decreases |steps|
  {
    hide Enabled, Apply;
    if steps != [] {
      StepLater(s, steps[0]);
      OvertakenStays(Apply(s, steps[0]), steps[1..], t);
    }
  }

  /** A reconnect begun before a manual connection or a sign-out never installs
      its candidate, however the run goes on: when its candidate proves its
      identity it is closed and the active signer stays. */
  lemma NeverInstalls(s: State, t: Id, takeover: Step, steps: seq<Step>, ok: bool)
    requires Inv(s) && t in s.tasks && Enabled(s, takeover) && (takeover.ManualConnect? || takeover.LogOut?)
    requires Legal(Apply(s, takeover), steps) && Enabled(After(Apply(s, takeover), steps), Identified(t, ok))
    ensures var r := After(Apply(s, takeover), steps);
      var end := Apply(r, Identified(t, ok));
      end.activeRemote == r.activeRemote && r.tasks[t].place.opening in end.closed
  {
    var first := Apply(s, takeover);
    assert Overtaken(first, t) by {
      hide Enabled;
      assert SlotOK(s);
      StepLater(s, takeover);
    }
    OvertakenStays(first, steps, t);
    Settles(After(first, steps), t, ok);
  }

  lemma Settles(r: State, t: Id, ok: bool)
    requires Overtaken(r, t) && Enabled(r, Identified(t, ok))
    ensures var end := Apply(r, Identified(t, ok));
      end.activeRemote == r.activeRemote && r.tasks[t].place.opening in end.closed
  {}

  // ------------------------------------------------------------------
  // Guarded calls

  /** A signer that is active at both ends of a run was active throughout:
      nothing puts a closed signer back. */
  lemma {:induction false} ActiveThroughout(s: State, steps: seq<Step>, x: Id, k: nat)
    requires Inv(s) && Legal(s, steps) && s.activeRemote == Some(x) == After(s, steps).activeRemote && k <= |steps|
    ensures Legal(s, steps[..k]) && After(s, steps[..k]).activeRemote == Some(x)
    decreases |steps|
  {
    hide Enabled, Apply, Inv;
    if k > 0 {
      var next := Apply(s, steps[0]);
      StepKeeps(s, steps[0]);
      StepLater(s, steps[0]);
      if next.activeRemote != Some(x) {
        ClosedStays(next, steps[1..], x);
        RunKeeps(next, steps[1..]);
        OpenActive(After(next, steps[1..]));
      } else {
        ActiveThroughout(next, steps[1..], x, k - 1);
        assert steps[..k][0] == steps[0] && steps[..k][1..] == steps[1..][..k - 1];
      }
    }
  }

  lemma OpenActive(s: State)
    requires Inv(s)
    ensures s.activeRemote.Some? ==> s.activeRemote.value !in s.closed
  {}

  lemma {:induction false} CallKept(s: State, steps: seq<Step>, c: Id)
    requires Legal(s, steps) && c in s.calls
    ensures c in After(s, steps).calls && After(s, steps).calls[c].target == s.calls[c].target
    ensures s.calls[c].phase == Failed ==> After(s, steps).calls[c].phase == Failed
    decreases |steps|
  {
    hide Enabled, Apply;
    if steps != [] {
      StepLater(s, steps[0]);
      CallKept(Apply(s, steps[0]), steps[1..], c);
    }
  }

  /** A guarded call that succeeds had the active signer when it started, when
      it returned, and in every state in between. */
  lemma GuardedCall(s: State, c: Id, x: Id, steps: seq<Step>, k: nat)
    requires Inv(s) && Enabled(s, StartCall(c, x)) && Legal(Apply(s, StartCall(c, x)), steps) && k <= |steps|
    requires var r := After(Apply(s, StartCall(c, x)), steps);
      Enabled(r, FinishCall(c)) && Apply(r, FinishCall(c)).calls[c].phase == Succeeded
    ensures s.activeRemote == Some(x)
    ensures var first := Apply(s, StartCall(c, x)); Legal(first, steps[..k]) && After(first, steps[..k]).activeRemote == Some(x)
    ensures var r := After(Apply(s, StartCall(c, x)), steps); Apply(r, FinishCall(c)).activeRemote == Some(x)
  {
    var first := Apply(s, StartCall(c, x));
    StepKeeps(s, StartCall(c, x));
    CallKept(first, steps, c);
    var r := After(first, steps);
    SuccessActive(r, c);
    ActiveThroughout(first, steps, x, k);
  }

  lemma SuccessActive(r: State, c: Id)
    requires Enabled(r, FinishCall(c)) && Apply(r, FinishCall(c)).calls[c].phase == Succeeded
    ensures r.activeRemote == Some(r.calls[c].target) == Apply(r, FinishCall(c)).activeRemote
  {}

  // ------------------------------------------------------------------
  // What the steps achieve

  /** All three references are to this signer, or all are empty. */
  ghost predicate Active(s: State, signer: Option<Id>) {
    s.activeRemote == signer && s.activeSigner == signer && s.tinySigner == signer
  }

  /** Every call that waited was rejected, and no other call changed. */
  ghost predicate WaitersRejected(s: State, r: State) {
    r.calls.Keys == s.calls.Keys
    && forall c :: c in s.calls ==> r.calls[c] == if s.calls[c].phase == InFlight then s.calls[c].(phase := Canceled) else s.calls[c]
  }

  ghost predicate PreviousClosed(s: State, r: State) { s.activeRemote.Some? ==> s.activeRemote.value in r.closed }

  /** Replacing or dropping the active signer rejects everything that waits. */
  lemma CloseRejects(s: State)
    requires Inv(s)
    ensures WaitersRejected(s, Close(s, s.activeRemote))
  {
    var r := Close(s, s.activeRemote);
    forall c | c in s.calls ensures r.calls[c] == if s.calls[c].phase == InFlight then s.calls[c].(phase := Canceled) else s.calls[c] {
      if s.calls[c].phase == InFlight { assert s.activeRemote == Some(s.calls[c].target); }
    }
  }

  lemma InstallEffect(s: State, x: Id)
    requires Inv(s) && s.activeRemote != Some(x) && x !in s.closed
    ensures var r := Install(s, x);
      Active(r, Some(x)) && x !in r.closed && r.generation == s.generation + 1 && PreviousClosed(s, r) && WaitersRejected(s, r)
      && r.tasks == s.tasks && r.reconnecting == s.reconnecting
  {
    hide Inv, CancelAll;
    CloseRejects(s);
    var previous := s.activeRemote;
    var r := Install(s, x);
    assert r.calls == Close(s, previous).calls;
  }

  /** A manual connection takes over at once. */
  lemma ManualEffect(s: State, x: Id)
    requires Inv(s) && Enabled(s, ManualConnect(x))
    ensures var r := Apply(s, ManualConnect(x));
      Active(r, Some(x)) && x !in r.closed && r.generation == s.generation + 1 && PreviousClosed(s, r) && WaitersRejected(s, r)
  {
    hide Install, WaitersRejected;
    var known := s.(known := s.known + {x});
    assert Inv(known) by {
      forall t, y ensures Holds(known, t, y) <==> Holds(s, t, y) {}
    }
    InstallEffect(known, x);
    SameCalls(s, known, Install(known, x));
  }

  lemma SameCalls(s: State, t: State, r: State)
    requires s.calls == t.calls && WaitersRejected(t, r)
    ensures WaitersRejected(s, r)
  {}

  /** Signing out leaves no signer, and ends the generation. */
  lemma LogOutEffect(s: State)
    requires Inv(s)
    ensures var r := Apply(s, LogOut);
      Active(r, None) && r.generation == s.generation + 1 && PreviousClosed(s, r) && WaitersRejected(s, r) && r.tasks == s.tasks
  {
    hide Inv, CancelAll;
    CloseRejects(s);
  }

  /** Losing the active signer leaves none; losing another changes nothing. */
  lemma DropEffect(s: State, x: Id)
    requires Inv(s)
    ensures var r := Apply(s, Drop(x));
      if s.activeRemote == Some(x)
      then Active(r, None) && x in r.closed && WaitersRejected(s, r) && r.generation == s.generation && r.tasks == s.tasks
      else r == s
  {
    hide Inv, CancelAll;
    CloseRejects(s);
  }

  /** A failed reconnect closes its candidate, and the connection too when
      nobody took over in the meantime. */
  lemma FailEffect(s: State, t: Id)
    requires Inv(s) && t in s.tasks && s.tasks[t].place != Released
    ensures var r, held := Fail(s, t), Candidate(s.tasks[t].place);
      && At(r, t, Ended) && r.generation == s.generation
      && (held.Some? ==> held.value in r.closed)
      && (if s.tasks[t].generation == s.generation
          then Active(r, None) && PreviousClosed(s, r)
          else r.activeRemote == s.activeRemote && Active(r, s.activeRemote))
  {
    hide CancelAll;
  }

  /** A reconnect that nobody overtook installs the candidate that proved its
      identity: from its start to that moment the generation is unchanged, and
      then the candidate is the one active signer. */
  lemma ReconnectInstalls(s: State, t: Id, force: bool, steps: seq<Step>)
    requires Inv(s) && Enabled(s, StartReconnect(t, force)) && Legal(Apply(s, StartReconnect(t, force)), steps)
    requires var r := After(Apply(s, StartReconnect(t, force)), steps);
      Enabled(r, Identified(t, true)) && r.generation == s.generation
    ensures var r := After(Apply(s, StartReconnect(t, force)), steps);
      var x, end := r.tasks[t].place.opening, Apply(r, Identified(t, true));
      && Active(end, Some(x)) && x !in end.closed && end.generation == r.generation + 1
      && PreviousClosed(r, end) && WaitersRejected(r, end) && At(end, t, Ended)
  {
    hide Install, Inv, WaitersRejected;
    var first := Apply(s, StartReconnect(t, force));
    var r := After(first, steps);
    StepKeeps(s, StartReconnect(t, force));
    RunKeeps(first, steps);
    TaskKept(first, steps, t);
    var x := r.tasks[t].place.opening;
    HeldOpen(r, t, x);
    InstallEffect(r, x);
    SameCallsAfter(r, Install(r, x), Move(Install(r, x), t, Ended));
  }

  lemma SameCallsAfter(s: State, t: State, r: State)
    requires t.calls == r.calls && WaitersRejected(s, t)
    ensures WaitersRejected(s, r)
  {}

  lemma HeldOpen(s: State, t: Id, x: Id)
    requires Inv(s) && Holds(s, t, x)
    ensures x !in s.closed && s.activeRemote != Some(x)
  {}

  lemma {:induction false} TaskKept(s: State, steps: seq<Step>, t: Id)
    requires Legal(s, steps) && t in s.tasks
    ensures t in After(s, steps).tasks && After(s, steps).tasks[t].generation == s.tasks[t].generation
    decreases |steps|
  {
    hide Enabled, Apply;
    if steps != [] {
      StepLater(s, steps[0]);
      TaskKept(Apply(s, steps[0]), steps[1..], t);
    }
  }

  function FirstSteps(t: Id, x: Id): seq<Step> {
    [StartReconnect(t, true), Enter(t, Load), Loaded(t, Found(x)), Connected(t, true), Identified(t, true)]
  }

  /** From a fresh page a reconnect connects. */
  lemma FirstConnect(t: Id, x: Id)
    ensures Legal(START, FirstSteps(t, x)) && Active(After(START, FirstSteps(t, x)), Some(x))
  {
    hide CancelAll;
    var e := FirstSteps(t, x);
    var s1 := Apply(START, e[0]);
    var s2 := Apply(s1, e[1]);
    var s3 := Apply(s2, e[2]);
    var s4 := Apply(s3, e[3]);
    var s5 := Apply(s4, e[4]);
    Run(s4, e[4..]);
    Run(s3, e[3..]);
    Run(s2, e[2..]);
    Run(s1, e[1..]);
    Run(START, e);
    assert e[4..][1..] == [] && e[3..][1..] == e[4..] && e[2..][1..] == e[3..] && e[1..][1..] == e[2..];
  }

  lemma Run(s: State, steps: seq<Step>)
    requires steps != [] && Enabled(s, steps[0])
    ensures Legal(s, steps) <==> Legal(Apply(s, steps[0]), steps[1..])
    ensures Legal(s, steps) ==> After(s, steps) == After(Apply(s, steps[0]), steps[1..])
  {
    hide Apply, Enabled;
  }

  /** A guarded call answered while its signer is active succeeds, and leaves
      the connection alone; it fails exactly otherwise. */
  lemma CallEffect(s: State, c: Id)
    requires Inv(s) && Enabled(s, FinishCall(c))
    ensures var r, call := Apply(s, FinishCall(c)), s.calls[c];
      var good := call.phase == Answered && s.activeRemote == Some(call.target);
      && r.calls[c] == Call(call.target, if good then Succeeded else Failed)
      && (good || (call.phase.Errored? && !call.phase.losing) || s.activeRemote != Some(call.target) ==> Active(r, s.activeRemote))
      && (!good && !(call.phase.Errored? && !call.phase.losing) && s.activeRemote == Some(call.target)
          ==> Active(r, None) && call.target in r.closed)
  {
    hide CancelAll;
  }

  /** A call on the active signer waits where closing will find it; on any other
      it fails at once. */
  lemma StartEffect(s: State, c: Id, x: Id)
    requires Enabled(s, StartCall(c, x))
    ensures var r := Apply(s, StartCall(c, x));
      && r.calls == s.calls[c := Call(x, if s.activeRemote == Some(x) then InFlight else Failed)]
      && (s.activeRemote == Some(x) ==> x in r.pending && c in r.pending[x]) && Active(r, s.activeRemote) == Active(s, s.activeRemote)
  {}

  // ------------------------------------------------------------------
  // The connection's functions as they run

  class Bridge {
    var activeRemote: Option<Id>
    var activeSigner: Option<Id>
    var tinySigner: Option<Id>
    var signerGeneration: nat
    var reconnecting: Option<Id>
    var pendingCalls: map<Id, set<Id>>
    var tasks: map<Id, Task>
    var calls: map<Id, Call>
    ghost var known: set<Id>
    ghost var closed: set<Id>
    ghost var candidates: set<Id>

    ghost function View(): State
      reads this
    {
      State(activeRemote, activeSigner, tinySigner, signerGeneration, reconnecting, pendingCalls, tasks, calls, known, closed, candidates)
    }

    constructor ()
      ensures View() == START
    {
      activeRemote, activeSigner, tinySigner, signerGeneration, reconnecting := None, None, None, 0, None;
      pendingCalls, tasks, calls := map[], map[], map[];
      known, closed, candidates := {}, {}, {};
    }

    method CloseRemote(signer: Option<Id>)
      modifies this
      ensures View() == Close(old(View()), signer)
    {
      if signer == None {
        return;
      }
      var x := signer.value;
      var waiting: set<Id> := if x in pendingCalls then pendingCalls[x] else {};
      calls := CancelAll(calls, waiting);
      pendingCalls := pendingCalls - {x};
      closed := closed + {x};
    }

    method LoseRemote(x: Id)
      modifies this
      ensures View() == Lose(old(View()), x)
    {
      if activeRemote != Some(x) {
        return;
      }
      activeRemote, activeSigner, tinySigner := None, None, None;
      CloseRemote(Some(x));
    }

    method SetSigner(x: Id)
      modifies this
      ensures View() == Install(old(View()), x)
    {
      var previous := activeRemote;
      signerGeneration := signerGeneration + 1;
      activeRemote := Some(x);
      activeSigner := Some(x);
      tinySigner := activeSigner;
      if previous != Some(x) {
        CloseRemote(previous);
      }
    }

    method SignedOut()
      modifies this
      ensures View() == SignOut(old(View()))
    {
      signerGeneration := signerGeneration + 1;
      CloseRemote(activeRemote);
      activeRemote, activeSigner, tinySigner := None, None, None;
    }

    /** The end of a reconnect whose candidate answered, or failed to. */
    method Conclude(t: Id, ok: bool)
      requires t in tasks && tasks[t].place.Identify?
      modifies this
      ensures View() == Apply(old(View()), Identified(t, ok))
    {
      var task := tasks[t];
      var candidate := task.place.opening;
      if ok {
        if task.generation != signerGeneration {
          CloseRemote(Some(candidate));
        } else {
          SetSigner(candidate);
        }
      } else {
        CloseRemote(Some(candidate));
        if task.generation == signerGeneration {
          var previous := activeRemote;
          activeRemote, activeSigner, tinySigner := None, None, None;
          CloseRemote(previous);
        }
      }
      tasks := tasks[t := task.(place := Ended)];
    }

    /** The end of a guarded call. */
    method ReturnCall(c: Id) returns (good: bool)
      requires Enabled(View(), FinishCall(c))
      modifies this
      ensures View() == Apply(old(View()), FinishCall(c))
      ensures good <==> calls[c].phase == Succeeded
    {
      var call := calls[c];
      var x := call.target;
      good := call.phase == Answered && activeRemote == Some(x);
      if !good && !(call.phase.Errored? && !call.phase.losing) {
        LoseRemote(x);
      }
      calls := calls[c := Call(x, if good then Succeeded else Failed)];
      if x in pendingCalls {
        pendingCalls := pendingCalls[x := pendingCalls[x] - {c}];
      }
    }
  }
}
