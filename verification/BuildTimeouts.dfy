/** What the end of the context can cost, and exactly when. */
module BuildTimeouts {
  import opened Wrappers
  import opened BuildProtocol
  import opened BuildInvariants
  import opened BuildRuns
  import opened BuildProgress

  lemma {:induction false} ExecConcat(objects: seq<Kind>, s: State, acts: seq<Action>, more: seq<Action>)
    requires |s.work| == |objects|
    requires Exec(objects, s, acts).Some?
    ensures Exec(objects, s, acts + more) == Exec(objects, Exec(objects, s, acts).value, more)
    decreases |acts|
  {
    if acts == [] {
      assert acts + more == more;
    } else {
      assert (acts + more)[1..] == acts[1..] + more;
      ExecConcat(objects, Next(objects, s, acts[0]).value, acts[1..], more);
    }
  }

  lemma RunSnoc(objects: seq<Kind>, acts: seq<Action>, a: Action)
    requires Run(objects, acts).Some? && Next(objects, Run(objects, acts).value, a).Some?
    ensures Run(objects, acts + [a]) == Next(objects, Run(objects, acts).value, a)
    ensures |acts| < 10 * |objects| + 40
  {
    ExecSnoc(objects, Init(objects), acts, a);
    RunsAreFinite(objects, acts + [a]);
  }

  /** The `ctx.Done` branch of a goroutine that would hand something to the caller; any other step as it is. */
  function Aborting(a: Action): Action {
    match a
    case StartedAct(ValueToCaller) => StartedAct(FetcherAbort)
    case StartedAct(ErrorToCaller) => StartedAct(FetcherAbort)
    case FinishedAct(ValueToCaller) => FinishedAct(FetcherAbort)
    case FinishedAct(ErrorToCaller) => FinishedAct(FetcherAbort)
    case ListerAct(ListErrorToCaller) => ListerAct(ListAbort)
    case StageAct(name, StageErrorToCaller) => StageAct(name, StageAbort)
    case _ => a
  }

  /** Once the context has ended, every hand-over to the caller can be replaced. */
  lemma CanAbort(objects: seq<Kind>, s: State, a: Action)
    requires |s.work| == |objects| && s.ended && Listens(s)
    requires !a.CallerAct? && (a == WaiterAct(DoneToCaller) ==> s.call.pc.Collect?)
    requires Next(objects, s, a).Some?
    ensures Next(objects, s, Aborting(a)).Some?
    ensures var t := Next(objects, s, Aborting(a)).value; t.ended && t.call == s.call
  {
    hide Quiet;
    hide EveryoneLeft;
  }

  // ----- a caller that never returns

  /** From wherever the caller is in its first receive loop and the context has ended, it can stay there for ever. */
  lemma {:induction false} HangInReach(objects: seq<Kind>, acts: seq<Action>) returns (longer: seq<Action>)
    requires Run(objects, acts).Some?
    requires Run(objects, acts).value.ended && Run(objects, acts).value.call.pc.Collect?
    ensures acts <= longer && Run(objects, longer).Some?
    ensures Stuck(objects, Run(objects, longer).value) && Run(objects, longer).value.call.pc.Collect?
    decreases 10 * |objects| + 40 - |acts|
  {
    hide Stuck;
    hide Next;
    var s := Run(objects, acts).value;
    if Stuck(objects, s) {
      return acts;
    }
    var a := StepOf(objects, s);
    NoCallerStep(objects, s, a);
    CanAbort(objects, s, a);
    RunSnoc(objects, acts, Aborting(a));
    longer := HangInReach(objects, acts + [Aborting(a)]);
  }

  lemma StepOf(objects: seq<Kind>, s: State) returns (a: Action)
    requires |s.work| == |objects| && !Stuck(objects, s)
    ensures !a.Timeout? && Next(objects, s, a).Some?
  {
    a :| !a.Timeout? && Next(objects, s, a).Some?;
  }

  lemma NoCallerStep(objects: seq<Kind>, s: State, a: Action)
    requires |s.work| == |objects| && s.call.pc.Collect? && Next(objects, s, a).Some?
    ensures !a.CallerAct?
  {
  }

  /** `more` continues the run to where nothing can move. */
  ghost predicate StopsAfter(objects: seq<Kind>, acts: seq<Action>, more: seq<Action>) {
    Run(objects, acts + more).Some? && Stuck(objects, Run(objects, acts + more).value)
  }

  lemma StepLeavesLoop(objects: seq<Kind>, s: State, a: Action)
    requires |s.work| == |objects| && Next(objects, s, a).Some?
    ensures var t := Next(objects, s, a).value;
            |t.work| == |objects| && (!s.call.pc.Collect? ==> !t.call.pc.Collect?)
  {
    hide EveryoneLeft;
    hide NextLister;
    hide NextForward;
    hide NextStage;
    hide NextWorker;
    hide NextConsumer;
    if !NearCaller(a) {
      OthersOnlyFail(objects, s, a);
    }
  }

  lemma {:induction false} LoopNotReentered(objects: seq<Kind>, s: State, acts: seq<Action>)
    requires |s.work| == |objects| && !s.call.pc.Collect?
    requires Exec(objects, s, acts).Some?
    ensures !Exec(objects, s, acts).value.call.pc.Collect?
    decreases |acts|
  {
    hide Next;
    if acts != [] {
      StepLeavesLoop(objects, s, acts[0]);
      LoopNotReentered(objects, Next(objects, s, acts[0]).value, acts[1..]);
    }
  }

  /** The caller is sure to return, wherever the run stops, if and only if it has left its first receive loop. */
  lemma ReturnsExactly(objects: seq<Kind>, acts: seq<Action>)
    requires Run(objects, acts).Some?
    ensures (forall more :: StopsAfter(objects, acts, more) ==> Run(objects, acts + more).value.call.pc.Returned?) <==>
            !Run(objects, acts).value.call.pc.Collect?
  {
    hide Stuck;
    hide Next;
    var s := Run(objects, acts).value;
    if s.call.pc.Collect? {
      var ended := EndContext(objects, acts);
      var longer := HangInReach(objects, ended);
      assert acts + longer[|acts|..] == longer;
      assert StopsAfter(objects, acts, longer[|acts|..]);
    } else {
      forall more | StopsAfter(objects, acts, more)
        ensures Run(objects, acts + more).value.call.pc.Returned?
      {
        ExecConcat(objects, Init(objects), acts, more);
        LoopNotReentered(objects, s, more);
        RunKeeps(objects, acts + more);
        StuckMeansGone(objects, Run(objects, acts + more).value);
      }
    }
  }

  /** The context can end at any time. */
  lemma EndContext(objects: seq<Kind>, acts: seq<Action>) returns (longer: seq<Action>)
    requires Run(objects, acts).Some?
    ensures acts <= longer && Run(objects, longer) == Some(Run(objects, acts).value.(ended := true))
  {
    longer := acts;
    if !Run(objects, acts).value.ended {
      longer := acts + [Timeout];
      RunSnoc(objects, acts, Timeout);
    }
  }

  /** For every listing, a run whose context ends at once can leave the caller in its first receive loop for ever. */
  lemma TimeoutCanHangCaller(objects: seq<Kind>) returns (acts: seq<Action>)
    ensures [Timeout] <= acts && Run(objects, acts).Some?
    ensures Stuck(objects, Run(objects, acts).value) && Run(objects, acts).value.call.pc.Collect?
  {
    RunSnoc(objects, [], Timeout);
    assert [] + [Timeout] == [Timeout];
    acts := HangInReach(objects, [Timeout]);
  }

  // ----- a Finished that comes too early

  /** The value has been received, or its fetcher can still bring it. */
  predicate CanCome(received: bool, f: Fetcher) {
    received || f.Fetching? || f.OfferValue?
  }

  /** `Finished` can still be called, or is about to be. */
  predicate CanFinish(s: State) {
    match s.call.pc
    case Collect(started, finished) => CanCome(started, s.started) && CanCome(finished, s.finished)
    case Metadata => !s.waiter.WaiterExited?
    case AwaitDone => !s.waiter.WaiterExited?
    case Finish => true
    case Returned(_) => false
  }

  predicate Taken(s: State, i: nat) {
    i in s.sink.handed || s.sink.pc == Adding(i)
  }

  /** `more` continues the run to a call of `Finished`. */
  predicate FinishesAfter(objects: seq<Kind>, acts: seq<Action>, more: seq<Action>) {
    Run(objects, acts + more).Some? && Run(objects, acts + more).value.call.pc.Finish?
  }

  /** The steps that bring the caller to its second select: both values, `AddMetadata`, and the end of the context. */
  function TowardsDone(s: State): Action {
    if s.call.pc.Collect? && !s.call.pc.started then
      StartedAct(if s.started.Fetching? then Fetched(true) else ValueToCaller)
    else if s.call.pc.Collect? then FinishedAct(if s.finished.Fetching? then Fetched(true) else ValueToCaller)
    else if s.call.pc.Metadata? then CallerAct(AddMetadata(true, Verdict(true, 0)))
    else Timeout
  }

  lemma TowardsDoneStep(objects: seq<Kind>, s: State)
    requires Inv(objects, s) && CanFinish(s) && !s.call.pc.Finish?
    requires !(s.call.pc.AwaitDone? && s.ended)
    ensures Next(objects, s, TowardsDone(s)).Some?
    ensures var t := Next(objects, s, TowardsDone(s)).value;
            CanFinish(t) && !t.call.pc.Finish? && t.sink == s.sink
  {
    WaiterStays(objects, s);
    hide Inv;
    hide EveryoneLeft;
    hide Quiet;
  }

  lemma WaiterStays(objects: seq<Kind>, s: State)
    requires Inv(objects, s) && CanFinish(s) && !s.call.pc.Finish?
    ensures !s.waiter.WaiterExited?
    ensures s.call.pc.Collect? ==> !(s.call.pc.started && s.call.pc.finished)
  {
    hide WorkersBorn;
    hide Waited;
    hide Delivered;
    hide StageShape;
    hide LiveShape;
  }

  lemma {:induction false} DoneInReach(objects: seq<Kind>, acts: seq<Action>) returns (longer: seq<Action>)
    requires Run(objects, acts).Some?
    requires CanFinish(Run(objects, acts).value) && !Run(objects, acts).value.call.pc.Finish?
    ensures acts <= longer && Run(objects, longer).Some?
    ensures var t := Run(objects, longer).value;
            t.ended && t.call.pc.AwaitDone? && !t.waiter.WaiterExited? && t.sink == Run(objects, acts).value.sink
    decreases 10 * |objects| + 40 - |acts|
  {
    hide Next;
    var s := Run(objects, acts).value;
    if s.call.pc.AwaitDone? && s.ended {
      return acts;
    }
    RunKeeps(objects, acts);
    TowardsDoneStep(objects, s);
    RunSnoc(objects, acts, TowardsDone(s));
    longer := DoneInReach(objects, acts + [TowardsDone(s)]);
  }

  /** A step that neither involves the caller nor hands over the suites of object `i`. */
  function Avoiding(i: nat, a: Action): Action {
    if a == WorkerAct(i, SuitesToConsumer) then WorkerAct(i, WorkerAbort) else Aborting(a)
  }

  lemma CanAvoid(objects: seq<Kind>, s: State, i: nat, a: Action)
    requires |s.work| == |objects| && s.ended && s.call.pc.AwaitDone? && s.waiter.WaitAll? && !Taken(s, i)
    requires !a.CallerAct? && Next(objects, s, a).Some?
    ensures Next(objects, s, Avoiding(i, a)).Some?
    ensures var t := Next(objects, s, Avoiding(i, a)).value;
            t.ended && t.call == s.call && !t.waiter.WaiterExited? && !Taken(t, i)
  {
    hide Quiet;
    hide EveryoneLeft;
  }

  /** Without the caller some goroutine can still move until the waiter has seen all of them leave. */
  lemma OthersMove(objects: seq<Kind>, s: State) returns (a: Action)
    requires Inv(objects, s) && s.ended && s.call.pc.AwaitDone? && s.waiter.WaitAll?
    ensures !a.CallerAct? && !a.Timeout? && Next(objects, s, a).Some?
  {
    var returned := Return(s, Interrupted);
    assert Inv(objects, returned) by {
      assert Next(objects, s, CallerAct(CallerInterrupted)) == Some(returned);
      StepKeeps(objects, s, CallerAct(CallerInterrupted));
    }
    if Stuck(objects, returned) {
      StuckMeansGone(objects, returned);
    }
    a := StepOf(objects, returned);
    SameWithoutCaller(objects, s, a);
  }

  lemma SameWithoutCaller(objects: seq<Kind>, s: State, a: Action)
    requires |s.work| == |objects| && s.ended && !a.Timeout?
    requires Next(objects, Return(s, Interrupted), a).Some?
    ensures !a.CallerAct? && Next(objects, s, a).Some?
  {
    hide Quiet;
    assert EveryoneLeft(Return(s, Interrupted)) <==> EveryoneLeft(s);
    hide EveryoneLeft;
  }

  lemma {:induction false} FinishWithout(objects: seq<Kind>, acts: seq<Action>, i: nat) returns (longer: seq<Action>)
    requires Run(objects, acts).Some?
    requires var s := Run(objects, acts).value;
             s.ended && s.call.pc.AwaitDone? && !s.waiter.WaiterExited? && !Taken(s, i)
    ensures acts <= longer && Run(objects, longer).Some?
    ensures Run(objects, longer).value.call.pc.Finish? && i !in Run(objects, longer).value.sink.handed
    decreases 10 * |objects| + 40 - |acts|
  {
    var s := Run(objects, acts).value;
    if s.waiter.OfferDone? {
      RunSnoc(objects, acts, WaiterAct(DoneToCaller));
      return acts + [WaiterAct(DoneToCaller)];
    }
    RunKeeps(objects, acts);
    var a := OthersMove(objects, s);
    CanAvoid(objects, s, i, a);
    hide Next;
    RunSnoc(objects, acts, Avoiding(i, a));
    longer := FinishWithout(objects, acts + [Avoiding(i, a)], i);
  }

  lemma StillFinish(objects: seq<Kind>, s: State, a: Action)
    requires |s.work| == |objects| && Next(objects, s, a).Some?
    ensures CanFinish(Next(objects, s, a).value) ==> CanFinish(s)
  {
    hide EveryoneLeft;
    hide NextLister;
    hide NextForward;
    hide NextStage;
    hide NextWorker;
    hide NextConsumer;
    if !NearCaller(a) {
      OthersOnlyFail(objects, s, a);
    }
  }

  lemma StillTaken(objects: seq<Kind>, s: State, i: nat, a: Action)
    requires |s.work| == |objects| && Next(objects, s, a).Some?
    ensures Taken(s, i) ==> Taken(Next(objects, s, a).value, i)
  {
    hide Quiet;
    hide EveryoneLeft;
  }

  /** What can no longer be finished stays so, and what was taken stays taken. */
  lemma {:induction false} RunsTowardsFinish(objects: seq<Kind>, s: State, i: nat, acts: seq<Action>)
    requires Inv(objects, s) && Exec(objects, s, acts).Some?
    ensures var t := Exec(objects, s, acts).value; (CanFinish(t) ==> CanFinish(s)) && (Taken(s, i) ==> Taken(t, i))
    decreases |acts|
  {
    if acts != [] {
      StepKeeps(objects, s, acts[0]);
      StillFinish(objects, s, acts[0]);
      StillTaken(objects, s, i, acts[0]);
      RunsTowardsFinish(objects, Next(objects, s, acts[0]).value, i, acts[1..]);
    }
  }

  /** Every continuation that calls `Finished` has handed object `i` to `AddSuites` if and only if that was done or
    begun already, or `Finished` cannot be called any more. */
  lemma HandedExactly(objects: seq<Kind>, acts: seq<Action>, i: nat)
    requires Run(objects, acts).Some?
    ensures (forall more :: FinishesAfter(objects, acts, more) ==>
            i in Run(objects, acts + more).value.sink.handed) <==>
            var s := Run(objects, acts).value; Taken(s, i) || !CanFinish(s)
  {
    hide Next;
    var s := Run(objects, acts).value;
    RunKeeps(objects, acts);
    if Taken(s, i) || !CanFinish(s) {
      forall more | FinishesAfter(objects, acts, more)
        ensures i in Run(objects, acts + more).value.sink.handed
      {
        ExecConcat(objects, Init(objects), acts, more);
        RunsTowardsFinish(objects, s, i, more);
        RunKeeps(objects, acts + more);
      }
    } else {
      var longer := FinishedWithout(objects, acts, i);
      assert acts + longer[|acts|..] == longer;
      assert FinishesAfter(objects, acts, longer[|acts|..]);
    }
  }

  lemma FinishedWithout(objects: seq<Kind>, acts: seq<Action>, i: nat) returns (longer: seq<Action>)
    requires Run(objects, acts).Some?
    requires CanFinish(Run(objects, acts).value) && !Taken(Run(objects, acts).value, i)
    ensures acts <= longer && Run(objects, longer).Some?
    ensures Run(objects, longer).value.call.pc.Finish? && i !in Run(objects, longer).value.sink.handed
  {
    longer := acts;
    if !Run(objects, acts).value.call.pc.Finish? {
      var done := DoneInReach(objects, acts);
      longer := FinishWithout(objects, done, i);
    }
  }

  lemma Above(xs: set<nat>) returns (n: nat)
    ensures forall x :: x in xs ==> x < n
  {
    if xs == {} {
      return 0;
    }
    var x :| x in xs;
    var m := Above(xs - {x});
    n := if m <= x then x + 1 else m;
    assert forall y :: y in xs ==> y == x || y in xs - {x};
  }

  lemma NotTaken(s: State) returns (i: nat)
    ensures !Taken(s, i)
  {
    i := Above(s.sink.handed + if s.sink.pc.Adding? then {s.sink.pc.obj} else {});
  }

  /** `Finished` can be called in some continuation exactly when the values that are missing can still come, and
    the waiter has not left before the caller listened. */
  lemma FinishInReachExactly(objects: seq<Kind>, acts: seq<Action>)
    requires Run(objects, acts).Some?
    ensures (exists more :: FinishesAfter(objects, acts, more)) <==> CanFinish(Run(objects, acts).value)
  {
    hide Next;
    var s := Run(objects, acts).value;
    RunKeeps(objects, acts);
    if more :| FinishesAfter(objects, acts, more) {
      ExecConcat(objects, Init(objects), acts, more);
      RunsTowardsFinish(objects, s, 0, more);
    }
    if CanFinish(s) {
      var i := NotTaken(s);
      var longer := FinishedWithout(objects, acts, i);
      assert acts + longer[|acts|..] == longer;
      assert FinishesAfter(objects, acts, longer[|acts|..]);
    }
  }

  /** For every listing and every object in it, `Finished` can be called although the object was never handed to
    `AddSuites`: its worker takes the `ctx.Done` branch, and waiter and caller both prefer the error channel. */
  lemma TimeoutCanFinishEarly(objects: seq<Kind>, i: nat) returns (acts: seq<Action>)
    ensures Run(objects, acts).Some?
    ensures var s := Run(objects, acts).value;
            Next(objects, s, CallerAct(CallFinished)).Some? && i !in s.sink.handed
  {
    acts := FinishedWithout(objects, [], i);
  }
}
