/** Runs in which no call fails and the context does not end by itself. */
module BuildSuccess {
  import opened BuildProtocol
  import opened BuildRuns
  import opened BuildProgress

  /** A step that is neither a failing call nor the end of the context. */
  predicate Succeeds(a: Action) {
    match a
    case Timeout => false
    case StartedAct(f) => f != Fetched(false)
    case FinishedAct(f) => f != Fetched(false)
    case ListerAct(l) => l != Page(false)
    case WorkerAct(_, w) => w != WorkerIO(false)
    case CallerAct(c) => !(c.AddMetadata? && !c.ok)
    case Forward => true
    case StageAct(_, _) => true
    case ConsumerAct(_) => true
    case WaiterAct(_) => true
  }

  predicate AllSucceed(acts: seq<Action>) {
    forall i :: 0 <= i < |acts| ==> Succeeds(acts[i])
  }

  predicate StageUnfailed(pc: StagePc) {
    !pc.OfferStageError? && pc != Draining(true)
  }

  /** Nobody holds an error. */
  predicate NoErrors(s: State) {
    && !s.started.OfferError? && !s.finished.OfferError? && !s.feed.pc.OfferListError?
    && StageUnfailed(s.artifacts.pc) && StageUnfailed(s.suites.pc)
    && !s.call.pc.Returned?
    && forall i :: 0 <= i < |s.work| ==> !s.work[i].OfferWorkerError?
  }

  /** Nothing has failed: nobody holds an error, or the caller has returned with success. */
  predicate Unfailed(s: State) {
    if s.ended then s.call.pc == Returned(Success) else NoErrors(s)
  }

  lemma SuccessStays(objects: seq<Kind>, s: State, a: Action)
    requires |s.work| == |objects| && s.ended && s.call.pc == Returned(Success)
    requires Next(objects, s, a).Some?
    ensures var t := Next(objects, s, a).value;
            |t.work| == |objects| && t.ended && t.call.pc == Returned(Success)
  {
    hide Quiet;
    hide EveryoneLeft;
  }

  lemma UnfailedWorker(objects: seq<Kind>, s: State, i: nat, a: WorkerStep)
    requires |s.work| == |objects| && i < |objects| && !s.ended && NoErrors(s) && a != WorkerIO(false)
    requires NextWorker(objects, s, i, a).Some?
    ensures var t := NextWorker(objects, s, i, a).value; |t.work| == |objects| && !t.ended && NoErrors(t)
  {
  }

  lemma UnfailedStage(objects: seq<Kind>, s: State, name: StageName, a: StageStep)
    requires |s.work| == |objects| && !s.ended && NoErrors(s)
    requires NextStage(objects, s, name, a).Some?
    ensures var t := NextStage(objects, s, name, a).value; |t.work| == |objects| && !t.ended && NoErrors(t)
  {
    hide Quiet;
  }

  lemma UnfailedLister(objects: seq<Kind>, s: State, a: ListerStep)
    requires |s.work| == |objects| && !s.ended && NoErrors(s) && a != Page(false)
    requires NextLister(objects, s, a).Some?
    ensures var t := NextLister(objects, s, a).value; |t.work| == |objects| && !t.ended && NoErrors(t)
  {
  }

  lemma UnfailedStep(objects: seq<Kind>, s: State, a: Action)
    requires |s.work| == |objects| && !s.ended && NoErrors(s) && Succeeds(a)
    requires Next(objects, s, a).Some?
    ensures |Next(objects, s, a).value.work| == |objects| && Unfailed(Next(objects, s, a).value)
  {
    hide EveryoneLeft;
    hide NextWorker;
    hide NextStage;
    hide NextLister;
    match a
    case WorkerAct(i, w) => UnfailedWorker(objects, s, i, w);
    case StageAct(name, g) => UnfailedStage(objects, s, name, g);
    case ListerAct(l) => UnfailedLister(objects, s, l);
    case StartedAct(_) =>
    case FinishedAct(_) =>
    case Forward =>
    case ConsumerAct(_) =>
    case WaiterAct(_) =>
    case CallerAct(_) =>
  }

  lemma {:induction false} UnfailedRun(objects: seq<Kind>, s: State, acts: seq<Action>)
    requires |s.work| == |objects| && Unfailed(s) && AllSucceed(acts) && Exec(objects, s, acts).Some?
    ensures Unfailed(Exec(objects, s, acts).value)
    decreases |acts|
  {
    hide Next;
    if acts != [] {
      assert Succeeds(acts[0]);
      if s.ended {
        SuccessStays(objects, s, acts[0]);
      } else {
        UnfailedStep(objects, s, acts[0]);
      }
      UnfailedRun(objects, Next(objects, s, acts[0]).value, acts[1..]);
    }
  }

  /** A run without a timeout and without a failing call that cannot go on has returned with success, and
    left no goroutine behind. */
  lemma UnfailedRunsSucceed(objects: seq<Kind>, acts: seq<Action>)
    requires Run(objects, acts).Some? && AllSucceed(acts)
    requires Stuck(objects, Run(objects, acts).value)
    ensures Run(objects, acts).value.call.pc == Returned(Success)
    ensures AllGone(Run(objects, acts).value)
  {
    RunKeeps(objects, acts);
    UnfailedRun(objects, Init(objects), acts);
    StuckMeansGone(objects, Run(objects, acts).value);
  }

  // ----- such runs can always be completed

  /** The same step with the call succeeding. */
  function Succeeding(a: Action): (b: Action)
    requires !a.Timeout?
    ensures Succeeds(b)
  {
    match a
    case StartedAct(Fetched(_)) => StartedAct(Fetched(true))
    case FinishedAct(Fetched(_)) => FinishedAct(Fetched(true))
    case ListerAct(Page(_)) => ListerAct(Page(true))
    case WorkerAct(i, WorkerIO(_)) => WorkerAct(i, WorkerIO(true))
    case CallerAct(AddMetadata(_, verdict)) => CallerAct(AddMetadata(true, verdict))
    case _ => a
  }

  /** A call that can fail can succeed. */
  lemma CanSucceed(objects: seq<Kind>, s: State, a: Action)
    requires |s.work| == |objects| && !a.Timeout? && Next(objects, s, a).Some?
    ensures Next(objects, s, Succeeding(a)).Some?
  {
    hide Quiet;
    hide EveryoneLeft;
  }

  /** From wherever nothing has failed yet, success is in reach. */
  lemma {:induction false} SuccessInReach(objects: seq<Kind>, acts: seq<Action>) returns (longer: seq<Action>)
    requires Run(objects, acts).Some? && AllSucceed(acts)
    ensures acts <= longer && AllSucceed(longer)
    ensures Run(objects, longer).Some? && Run(objects, longer).value.call.pc == Returned(Success)
    decreases 10 * |objects| + 40 - |acts|
  {
    var s := Run(objects, acts).value;
    UnfailedRun(objects, Init(objects), acts);
    if s.ended {
      return acts;
    }
    var a := NeverStuckWhileLive(objects, acts);
    CanSucceed(objects, s, a);
    ExecSnoc(objects, Init(objects), acts, Succeeding(a));
    RunsAreFinite(objects, acts + [Succeeding(a)]);
    longer := SuccessInReach(objects, acts + [Succeeding(a)]);
  }
}
