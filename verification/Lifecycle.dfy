/** Start, Pause, Resume and Stop against the emulator thread, one memory access at a time. */
module Lifecycle {

  datatype RunnerState = Idle | Running | Paused | Stopping | Stopped

  datatype Op = Start | Pause | Resume | Stop

  /** The controlling thread: outside, or in front of an access of the operation it is in. */
  datatype Control =
    | Outside
    | StartSetsState | StartResets | StartsThread
    | PauseSetsState | PauseResets
    | ResumeSetsState | ResumeSets
    | StopSetsState | StopSets | StopCancels | StopJoins | StopEnds

  /** The emulator thread: in front of a test of the loop, of the wait, or in the rest of an iteration. */
  datatype Emulator = NotStarted | TestToken | TestState | Wait | TestAgain | Body | Exited

  /** `begun` and `done` count iterations behind the wait. */
  datatype System = System(state: RunnerState, event: bool, cancelled: bool, control: Control, emulator: Emulator,
                           begun: nat, done: nat)

  const INITIAL := System(Idle, false, false, Outside, NotStarted, 0, 0)

  /**
   * `Proceed` is the next access of the operation; a join may always time out. `Emulate` is the
   * next one of the loop; `notices` says whether the wait sees a cancellation before a set event.
   */
  datatype Move = Call(op: Op) | Proceed | Emulate(notices: bool)

  /** The test an operation begins with; `Start` from another state throws. */
  function Enter(s: System, op: Op): Control {
    match op
    case Start => if s.state == Idle then StartSetsState else Outside
    case Pause => if s.state == Running then PauseSetsState else Outside
    case Resume => if s.state == Paused then ResumeSetsState else Outside
    case Stop => if s.state in {Stopped, Idle} then Outside else StopSetsState
  }

  function Continue(s: System): System {
    match s.control
    case Outside => s
    case StartSetsState => s.(state := Paused, control := StartResets)
    case StartResets => s.(event := false, control := StartsThread)
    case StartsThread => s.(emulator := TestToken, control := Outside)
    case PauseSetsState => s.(state := Paused, control := PauseResets)
    case PauseResets => s.(event := false, control := Outside)
    case ResumeSetsState => s.(state := Running, control := ResumeSets)
    case ResumeSets => s.(event := true, control := Outside)
    case StopSetsState => s.(state := Stopping, control := StopSets)
    case StopSets => s.(event := true, control := StopCancels)
    case StopCancels => s.(cancelled := true, control := StopJoins)
    case StopJoins => s.(control := StopEnds)
    case StopEnds => s.(state := Stopped, control := Outside)
  }

  function Loop(s: System, notices: bool): System {
    match s.emulator
    case NotStarted => s
    case TestToken => s.(emulator := if s.cancelled then Exited else TestState)
    case TestState => s.(emulator := if s.state == Stopping then Exited else Wait)
    case Wait =>
      if s.cancelled && (notices || !s.event) then s.(emulator := Exited)
      else if s.event then s.(emulator := TestAgain)
      else s
    case TestAgain => if s.cancelled then s.(emulator := Exited) else s.(emulator := Body, begun := s.begun + 1)
    case Body => s.(emulator := TestToken, done := s.done + 1)
    case Exited => s
  }

  function Step(s: System, m: Move): System {
    match m
    case Call(op) => if s.control == Outside then s.(control := Enter(s, op)) else s
    case Proceed => Continue(s)
    case Emulate(notices) => Loop(s, notices)
  }

  /** The states of a run, from the construction of the runner. */
  ghost predicate IsRun(t: seq<System>, ms: seq<Move>) {
    && |t| == |ms| + 1 && t[0] == INITIAL
    && forall k :: 0 <= k < |ms| ==> IsStep(t[k], ms[k], t[k + 1])
  }

  ghost predicate IsStep(s: System, m: Move, s': System) {
    s' == Step(s, m)
  }

  /** What holds between any two accesses. */
  predicate Invariant(s: System) {
    && (s.cancelled ==> s.event && s.control in {StopJoins, StopEnds, Outside})
    && (s.emulator == NotStarted ==> s.begun == 0 && s.done == 0)
    && s.begun == s.done + (if s.emulator == Body then 1 else 0)
    && match s.control
       case Outside =>
         && s.state != Stopping
         && (s.state == Idle ==> s.emulator == NotStarted && !s.event)
         && (s.state == Running ==> s.event && !s.cancelled)
         && (s.state == Paused ==> !s.event)
         && (s.state == Stopped ==> s.cancelled)
       case StartSetsState => s.state == Idle && s.emulator == NotStarted && !s.event
       case StartResets => s.state == Paused && s.emulator == NotStarted && !s.event
       case StartsThread => s.state == Paused && s.emulator == NotStarted && !s.event
       case PauseSetsState => s.state == Running
       case PauseResets => s.state == Paused
       case ResumeSetsState => s.state == Paused && !s.event
       case ResumeSets => s.state == Running
       case StopSetsState => s.state in {Running, Paused}
       case StopSets => s.state == Stopping
       case StopCancels => s.state == Stopping && s.event
       case StopJoins => s.state == Stopping && s.cancelled
       case StopEnds => s.state == Stopping && s.cancelled
  }

  lemma {:induction false} EveryRun(t: seq<System>, ms: seq<Move>, k: nat)
    requires IsRun(t, ms) && k <= |ms|
    ensures Invariant(t[k])
  {
    if k > 0 {
      EveryRun(t, ms, k - 1);
      assert IsStep(t[k - 1], ms[k - 1], t[k]);
    }
  }

  // ---------- pausing ----------

  /** Between two points of a run, nobody resumes or stops. */
  ghost predicate LeftAlone(ms: seq<Move>, a: nat, b: nat)
    requires a <= b <= |ms|
  {
    forall k :: a <= k < b ==> ms[k] != Call(Resume) && ms[k] != Call(Stop)
  }

  function One(b: bool): nat {
    if b then 1 else 0
  }

  /** Emulator moves between two points. */
  function Moves(ms: seq<Move>, a: nat, b: nat): nat
    requires a <= b <= |ms|
  {
    if a == b then 0 else Moves(ms, a, b - 1) + One(ms[b - 1].Emulate?)
  }

  /** Emulator moves until it parks at the wait. */
  function ToWait(e: Emulator): nat {
    match e
    case TestAgain => 4 case Body => 3 case TestToken => 2 case TestState => 1 case _ => 0
  }

  /**
   * From the moment a Pause has returned until Resume or Stop is called, at most the iteration
   * that had passed the wait begins, at most that or the running one ends, and after four moves
   * of its own the emulator thread is parked.
   */
  lemma {:induction false} PausedRun(t: seq<System>, ms: seq<Move>, a: nat, b: nat)
    requires IsRun(t, ms) && a <= b <= |ms| && LeftAlone(ms, a, b)
    requires t[a].control == Outside && t[a].state == Paused
    ensures t[b].control == Outside && t[b].state == Paused
    ensures t[b].begun + One(t[b].emulator == TestAgain) <= t[a].begun + One(t[a].emulator == TestAgain)
    ensures t[b].done <= t[a].done + One(t[a].emulator in {TestAgain, Body})
    ensures ToWait(t[b].emulator) + Moves(ms, a, b) <= ToWait(t[a].emulator) || ToWait(t[b].emulator) == 0
  {
    EveryRun(t, ms, a);
    if a < b {
      PausedRun(t, ms, a, b - 1);
      EveryRun(t, ms, b - 1);
      EveryRun(t, ms, b);
      assert IsStep(t[b - 1], ms[b - 1], t[b]);
    }
  }

  // ---------- stopping ----------

  /** Iterations the emulator thread may still begin once Stop has set the state. */
  function MayBegin(s: System): nat {
    One(!s.cancelled && s.emulator in {Wait, TestAgain})
  }

  predicate StopUnderWay(s: System) {
    s.state == Stopping || s.cancelled
  }

  /**
   * Once Stop has set the state, at most one more iteration begins, and only if the thread was
   * at the wait or just behind it.
   */
  lemma {:induction false} StoppingRun(t: seq<System>, ms: seq<Move>, a: nat, b: nat)
    requires IsRun(t, ms) && a <= b <= |ms| && StopUnderWay(t[a])
    ensures StopUnderWay(t[b]) && (t[a].cancelled ==> t[b].cancelled)
    ensures t[b].begun + MayBegin(t[b]) <= t[a].begun + MayBegin(t[a])
  {
    if a < b {
      StoppingRun(t, ms, a, b - 1);
      EveryRun(t, ms, b - 1);
      assert IsStep(t[b - 1], ms[b - 1], t[b]);
    }
  }

  /** Some continuation of the run begins another iteration. */
  ghost predicate CanBegin(t: seq<System>, ms: seq<Move>)
    requires |t| == |ms| + 1
  {
    exists u: seq<System>, more: seq<Move> ::
      Continues(t, ms, u, more) && u[|ms| + |more|].begun > t[|ms|].begun
  }

  ghost predicate Continues(t: seq<System>, ms: seq<Move>, u: seq<System>, more: seq<Move>)
    requires |t| == |ms| + 1
  {
    IsRun(u, ms + more) && u[|ms|] == t[|ms|]
  }

  /**
   * The bound is exact: once Stop has set the state, another iteration can begin if and only if
   * the token is not cancelled and the thread is at the wait or just behind it.
   */
  lemma StopBeginsIff(t: seq<System>, ms: seq<Move>)
    requires IsRun(t, ms) && StopUnderWay(t[|ms|])
    ensures CanBegin(t, ms) <==> !t[|ms|].cancelled && t[|ms|].emulator in {Wait, TestAgain}
  {
    if CanBegin(t, ms) {
      var u: seq<System>, more: seq<Move> :| Continues(t, ms, u, more) && u[|ms| + |more|].begun > t[|ms|].begun;
      StoppingRun(u, ms + more, |ms|, |ms| + |more|);
    }
    if !t[|ms|].cancelled && t[|ms|].emulator in {Wait, TestAgain} {
      var u, more := OneMore(t, ms);
      assert Continues(t, ms, u, more);
    }
  }

  /** Nobody has to call Resume for it. */
  lemma OneMore(t: seq<System>, ms: seq<Move>) returns (u: seq<System>, more: seq<Move>)
    requires IsRun(t, ms) && StopUnderWay(t[|ms|]) && MayBegin(t[|ms|]) == 1
    ensures Continues(t, ms, u, more) && u[|ms| + |more|].begun == t[|ms|].begun + 1
    ensures forall k :: 0 <= k < |more| ==> !more[k].Call?
  {
    EveryRun(t, ms, |ms|);
    var s := t[|ms|];
    u, more := t, [];
    assert ms + more == ms;
    if !s.event {
      u, more := MoveOn(t, ms, u, more, Proceed);
    }
    if s.emulator == Wait {
      u, more := MoveOn(t, ms, u, more, Emulate(false));
    }
    u, more := MoveOn(t, ms, u, more, Emulate(false));
  }

  lemma MoveOn(t: seq<System>, ms: seq<Move>, u: seq<System>, more: seq<Move>, m: Move)
    returns (u': seq<System>, more': seq<Move>)
    requires |t| == |ms| + 1 && Continues(t, ms, u, more)
    ensures more' == more + [m] && Continues(t, ms, u', more')
    ensures u'[|ms| + |more'|] == Step(u[|ms| + |more|], m)
  {
    var s := Step(u[|ms| + |more|], m);
    RunMore(u, ms + more, m, s);
    u', more' := u + [s], more + [m];
    assert ms + more' == (ms + more) + [m];
  }

  /** Emulator moves until the thread has exited, once the token is cancelled. */
  function ToExit(e: Emulator): nat {
    match e
    case TestState => 3 case Wait => 2 case TestAgain => 1 case Body => 2 case TestToken => 1 case _ => 0
  }

  /**
   * After the cancellation no iteration begins, at most the running one ends, and three moves of
   * its own later the thread has exited - also when the join timed out and the state is Stopped.
   */
  lemma {:induction false} CancelledRun(t: seq<System>, ms: seq<Move>, a: nat, b: nat)
    requires IsRun(t, ms) && a <= b <= |ms| && t[a].cancelled
    ensures t[b].cancelled && t[b].begun == t[a].begun
    ensures t[b].done <= t[a].done + One(t[a].emulator == Body)
    ensures ToExit(t[b].emulator) + Moves(ms, a, b) <= ToExit(t[a].emulator) || ToExit(t[b].emulator) == 0
    ensures t[a].emulator != NotStarted ==> t[b].emulator != NotStarted
  {
    EveryRun(t, ms, a);
    if a < b {
      CancelledRun(t, ms, a, b - 1);
      EveryRun(t, ms, b - 1);
      assert IsStep(t[b - 1], ms[b - 1], t[b]);
      CancelledStep(t[b - 1], ms[b - 1]);
    }
  }

  /** One move after the cancellation. */
  lemma CancelledStep(s: System, m: Move)
    requires Invariant(s) && s.cancelled
    ensures var s' := Step(s, m);
      && s'.cancelled && s'.begun == s.begun
      && s'.done + One(s'.emulator == Body) == s.done + One(s.emulator == Body)
      && (ToExit(s'.emulator) + One(m.Emulate?) <= ToExit(s.emulator) || ToExit(s'.emulator) == 0)
      && (s.emulator != NotStarted ==> s'.emulator != NotStarted)
  {
  }

  /** Three emulator moves after the cancellation, the thread is gone. */
  lemma StopTerminates(t: seq<System>, ms: seq<Move>, a: nat, b: nat)
    requires IsRun(t, ms) && a <= b <= |ms| && t[a].cancelled && Moves(ms, a, b) >= 3
    ensures t[b].emulator == Exited
  {
    CancelledRun(t, ms, a, b);
    EveryRun(t, ms, a);
    Started(t, ms, a);
    CancelledRun(t, ms, a, b);
  }

  /** The thread runs from the end of Start on. */
  lemma {:induction false} Started(t: seq<System>, ms: seq<Move>, k: nat)
    requires IsRun(t, ms) && k <= |ms|
    ensures t[k].emulator == NotStarted ==> t[k].control in {Outside, StartSetsState, StartResets, StartsThread}
    ensures t[k].emulator == NotStarted && t[k].control == Outside ==> t[k].state == Idle
    ensures t[k].emulator == NotStarted ==> !t[k].cancelled
  {
    if k > 0 {
      Started(t, ms, k - 1);
      EveryRun(t, ms, k - 1);
      assert IsStep(t[k - 1], ms[k - 1], t[k]);
    }
  }

  // ---------- running ----------

  /** Between two points of a run, nobody pauses or stops. */
  ghost predicate LeftRunning(ms: seq<Move>, a: nat, b: nat)
    requires a <= b <= |ms|
  {
    forall k :: a <= k < b ==> ms[k] != Call(Pause) && ms[k] != Call(Stop)
  }

  /** Accesses since the last iteration ended. */
  function Phase(e: Emulator): nat {
    match e
    case TestState => 1 case Wait => 2 case TestAgain => 3 case Body => 4 case _ => 0
  }

  /** The thread does not exit before Stop. */
  lemma {:induction false} ExitsOnStop(t: seq<System>, ms: seq<Move>, k: nat)
    requires IsRun(t, ms) && k <= |ms|
    ensures t[k].emulator == Exited ==> StopUnderWay(t[k])
  {
    if k > 0 {
      ExitsOnStop(t, ms, k - 1);
      EveryRun(t, ms, k - 1);
      assert IsStep(t[k - 1], ms[k - 1], t[k]);
    }
  }

  /**
   * From the moment Start and Resume have returned until Pause or Stop is called, every fifth
   * access of the emulator thread ends an iteration: it never waits.
   */
  lemma {:induction false} RunningRun(t: seq<System>, ms: seq<Move>, a: nat, b: nat)
    requires IsRun(t, ms) && a <= b <= |ms| && LeftRunning(ms, a, b)
    requires t[a].control == Outside && t[a].state == Running
    ensures t[b].control == Outside && t[b].state == Running && t[b].emulator !in {NotStarted, Exited}
    ensures 5 * t[b].done + Phase(t[b].emulator) == 5 * t[a].done + Phase(t[a].emulator) + Moves(ms, a, b)
  {
    EveryRun(t, ms, a);
    Started(t, ms, a);
    ExitsOnStop(t, ms, a);
    if a < b {
      RunningRun(t, ms, a, b - 1);
      EveryRun(t, ms, b - 1);
      assert IsStep(t[b - 1], ms[b - 1], t[b]);
      RunningStep(t[b - 1], ms[b - 1]);
    }
  }

  lemma RunningStep(s: System, m: Move)
    requires Invariant(s) && s.control == Outside && s.state == Running && s.emulator !in {NotStarted, Exited}
    requires m != Call(Pause) && m != Call(Stop)
    ensures var s' := Step(s, m);
      && s'.control == Outside && s'.state == Running && s'.emulator !in {NotStarted, Exited}
      && 5 * s'.done + Phase(s'.emulator) == 5 * s.done + Phase(s.emulator) + One(m.Emulate?)
  {
  }

  // ---------- what the operations do ----------

  /** The effect of an operation called in state `s`: what `Start` throws at and the others ignore has none. */
  ghost predicate Does(s: System, op: Op, u: System) {
    if op == Start && s.state == Idle then u.state == Paused && !u.event && u.emulator != NotStarted
    else if op == Pause && s.state == Running then u.state == Paused && !u.event
    else if op == Resume && s.state == Paused then u.state == Running && u.event
    else if op == Stop && s.state in {Running, Paused} then u.state == Stopped && u.event && u.cancelled
    else u.state == s.state && u.event == s.event && u.cancelled == s.cancelled
  }

  ghost predicate Calls(ms: seq<Move>, op: Op, a: nat, b: nat)
    requires a < b <= |ms|
  {
    ms[a] == Call(op) && forall k :: a < k < b ==> !ms[k].Call?
  }

  /** The accesses of the controlling thread. */
  function Accesses(ms: seq<Move>, a: nat, b: nat): nat
    requires a <= b <= |ms|
  {
    if a == b then 0 else Accesses(ms, a, b - 1) + One(ms[b - 1].Proceed?)
  }

  function ToReturn(c: Control): nat {
    match c
    case Outside => 0
    case StartSetsState => 3 case StartResets => 2 case StartsThread => 1
    case PauseSetsState => 2 case PauseResets => 1
    case ResumeSetsState => 2 case ResumeSets => 1
    case StopSetsState => 5 case StopSets => 4 case StopCancels => 3 case StopJoins => 2 case StopEnds => 1
  }

  predicate InOperation(c: Control, op: Op) {
    match op
    case Start => c in {StartSetsState, StartResets, StartsThread}
    case Pause => c in {PauseSetsState, PauseResets}
    case Resume => c in {ResumeSetsState, ResumeSets}
    case Stop => c in {StopSetsState, StopSets, StopCancels, StopJoins, StopEnds}
  }

  ghost predicate Accepted(s: System, op: Op) {
    match op
    case Start => s.state == Idle
    case Pause => s.state == Running
    case Resume => s.state == Paused
    case Stop => s.state in {Running, Paused}
  }

  /** While the operation called in state `s` is under way, and once it has returned. */
  ghost predicate Underway(s: System, op: Op, u: System) {
    if u.control == Outside then Does(s, op, u) else InOperation(u.control, op) && Accepted(s, op)
  }

  /** Whatever the emulator thread does meanwhile, an operation returns in five accesses, and has its effect. */
  lemma OperationDoes(t: seq<System>, ms: seq<Move>, op: Op, a: nat, b: nat)
    requires IsRun(t, ms) && a < b <= |ms| && t[a].control == Outside && Calls(ms, op, a, b)
    ensures Accesses(ms, a, b) >= 5 ==> t[b].control == Outside
    ensures t[b].control == Outside ==> Does(t[a], op, t[b])
  {
    OperationUnderway(t, ms, op, a, b);
  }

  lemma {:induction false} OperationUnderway(t: seq<System>, ms: seq<Move>, op: Op, a: nat, b: nat)
    requires IsRun(t, ms) && a < b <= |ms| && t[a].control == Outside && Calls(ms, op, a, b)
    ensures Underway(t[a], op, t[b]) && (t[b].control == Outside || ToReturn(t[b].control) + Accesses(ms, a, b) <= 5)
  {
    EveryRun(t, ms, b - 1);
    assert IsStep(t[b - 1], ms[b - 1], t[b]);
    if b == a + 1 {
      assert Accesses(ms, a, a) == 0;
    } else {
      OperationUnderway(t, ms, op, a, b - 1);
      UnderwayStep(t[a], op, t[b - 1], ms[b - 1]);
    }
  }

  lemma UnderwayStep(s: System, op: Op, u: System, m: Move)
    requires Underway(s, op, u) && Invariant(u) && !m.Call?
    ensures var v := Step(u, m);
      && Underway(s, op, v)
      && (v.control == Outside
          || (u.control != Outside && ToReturn(v.control) + One(m.Proceed?) == ToReturn(u.control)))
  {
  }

  // ---------- a thread that is stopped while it waits ----------

  /** A run with one more move. */
  lemma RunMore(t: seq<System>, ms: seq<Move>, m: Move, s: System)
    requires IsRun(t, ms) && IsStep(t[|ms|], m, s)
    ensures IsRun(t + [s], ms + [m])
  {
    var t', ms' := t + [s], ms + [m];
    forall k | 0 <= k < |ms'|
      ensures IsStep(t'[k], ms'[k], t'[k + 1])
    {
      assert k < |ms| ==> t'[k] == t[k] && ms'[k] == ms[k] && t'[k + 1] == t[k + 1];
    }
  }

  /** Once started, the emulator thread waits. */
  lemma StartThenWait() returns (ms: seq<Move>, t: seq<System>)
    ensures |ms| == 7 && IsRun(t, ms) && forall k :: 0 <= k < 7 ==> ms[k] != Call(Resume)
    ensures t[7] == System(Paused, false, false, Outside, Wait, 0, 0)
  {
    ms := [Call(Start), Proceed, Proceed, Proceed, Emulate(true), Emulate(true), Emulate(true)];
    var s1 := INITIAL.(control := StartSetsState);
    var s2 := s1.(state := Paused, control := StartResets);
    var s3 := s2.(control := StartsThread);
    var s4 := s3.(emulator := TestToken, control := Outside);
    var s5 := s4.(emulator := TestState);
    var s6 := s5.(emulator := Wait);
    t := [INITIAL, s1, s2, s3, s4, s5, s6, s6];
  }

  /**
   * Stop sets the event before it cancels: a thread parked by Pause can begin one iteration
   * although nobody resumed it.
   */
  lemma StopMayRunOneMore() returns (ms: seq<Move>, t: seq<System>)
    ensures |ms| == 13 && IsRun(t, ms) && forall k :: 0 <= k < 13 ==> ms[k] != Call(Resume)
    ensures t[7].state == Paused && t[7].emulator == Wait && t[7].begun == 0 && ms[7] == Call(Stop)
    ensures t[13].cancelled && t[13].begun == 1
  {
    ms, t := StartThenWait();
    var s8 := t[7].(control := StopSetsState);
    var s9 := s8.(state := Stopping, control := StopSets);
    var s10 := s9.(event := true, control := StopCancels);
    var s11 := s10.(emulator := TestAgain);
    var s12 := s11.(emulator := Body, begun := 1);
    RunMore(t, ms, Call(Stop), s8);
    RunMore(t + [s8], ms + [Call(Stop)], Proceed, s9);
    ms, t := ms + [Call(Stop)] + [Proceed], t + [s8] + [s9];
    RunMore(t, ms, Proceed, s10);
    RunMore(t + [s10], ms + [Proceed], Emulate(true), s11);
    ms, t := ms + [Proceed] + [Emulate(true)], t + [s10] + [s11];
    RunMore(t, ms, Emulate(true), s12);
    RunMore(t + [s12], ms + [Emulate(true)], Proceed, s12.(cancelled := true, control := StopJoins));
    ms, t := ms + [Emulate(true)] + [Proceed], t + [s12] + [s12.(cancelled := true, control := StopJoins)];
  }
}
