/** Where the build download can stop, and that it does stop. */
module BuildProgress {
  import opened BuildProtocol
  import opened BuildInvariants
  import opened BuildRuns

  /** No goroutine can take a step; only the clock may still run out. */
  ghost predicate Stuck(objects: seq<Kind>, s: State)
    requires |s.work| == |objects|
  {
    forall a: Action :: !a.Timeout? ==> Next(objects, s, a).None?
  }

  predicate AllGone(s: State) {
    && s.started.FetcherExited? && s.finished.FetcherExited? && s.feed.pc.ListerExited?
    && s.artifacts.pc.StageExited? && s.suites.pc.StageExited? && s.sink.pc.ConsumerExited?
    && s.artifacts.closer.CloserExited?
    && s.suites.closer.CloserExited?
    && s.waiter.WaiterExited?
    && (forall i :: 0 <= i < |s.work| ==> Settled(s.work[i]))
  }

  lemma FetchersStop(objects: seq<Kind>, s: State)
    requires Inv(objects, s) && Stuck(objects, s)
    ensures s.started.FetcherExited? && s.finished.FetcherExited?
  {
    assert Next(objects, s, StartedAct(Fetched(true))).None?;
    assert Next(objects, s, StartedAct(ValueToCaller)).None?;
    assert Next(objects, s, StartedAct(ErrorToCaller)).None?;
    assert Next(objects, s, StartedAct(FetcherAbort)).None?;
    assert Next(objects, s, StartedAct(FetcherLeave)).None?;
    assert Next(objects, s, FinishedAct(Fetched(true))).None?;
    assert Next(objects, s, FinishedAct(ValueToCaller)).None?;
    assert Next(objects, s, FinishedAct(ErrorToCaller)).None?;
    assert Next(objects, s, FinishedAct(FetcherAbort)).None?;
    assert Next(objects, s, FinishedAct(FetcherLeave)).None?;
  }

  /** Where the caller can be when nothing moves: done, waiting in the first loop of an ended context,
    or waiting in the second select of a live one. */
  lemma CallerStops(objects: seq<Kind>, s: State)
    requires Inv(objects, s) && Stuck(objects, s)
    ensures s.call.pc.Returned? || (s.ended && s.call.pc.Collect?) || (!s.ended && s.call.pc.AwaitDone?)
  {
    FetchersStop(objects, s);
    assert Next(objects, s, CallerAct(AddMetadata(true, Verdict(true, 0)))).None?;
    assert Next(objects, s, CallerAct(CallerInterrupted)).None?;
    assert Next(objects, s, CallerAct(CallFinished)).None?;
  }

  lemma ListerStops(objects: seq<Kind>, s: State)
    requires Inv(objects, s) && Stuck(objects, s)
    ensures s.feed.pc.ListerExited?
    ensures !InLoop(s.artifacts.pc)
  {
    CallerStops(objects, s);
    assert Next(objects, s, Forward).None?;
    assert Next(objects, s, ListerAct(Page(true))).None?;
    assert Next(objects, s, ListerAct(SendObject)).None?;
    assert Next(objects, s, ListerAct(ListErrorToCaller)).None?;
    assert Next(objects, s, ListerAct(ListAbort)).None?;
    assert Next(objects, s, ListerAct(ListClose)).None?;
    assert Next(objects, s, ListerAct(ListLeave)).None?;
    assert Next(objects, s, StageAct(Artifacts, InputEnd)).None?;
  }

  /** The workers of a stage that is past its receive loop are all gone. */
  lemma WorkersStop(objects: seq<Kind>, s: State, name: StageName)
    requires Inv(objects, s) && Stuck(objects, s)
    requires !InLoop(Get(s, name).pc)
    ensures Quiet(objects, s.work, WorkerKind(name))
  {
    CallerStops(objects, s);
    forall i | 0 <= i < |objects| && objects[i] == WorkerKind(name)
      ensures Settled(s.work[i])
    {
      assert WorkerBorn(objects[i], s.work[i], i < s.feed.next, s.artifacts.pc == Forwarding(i));
      assert NextWorker(objects, s, i, SeeMetadata) == Next(objects, s, WorkerAct(i, SeeMetadata));
      assert NextWorker(objects, s, i, MissMetadata) == Next(objects, s, WorkerAct(i, MissMetadata));
      assert NextWorker(objects, s, i, WorkerIO(true)) == Next(objects, s, WorkerAct(i, WorkerIO(true)));
      assert NextWorker(objects, s, i, ErrorToStage) == Next(objects, s, WorkerAct(i, ErrorToStage));
      assert NextWorker(objects, s, i, WorkerAbort) == Next(objects, s, WorkerAct(i, WorkerAbort));
      assert NextWorker(objects, s, i, SuitesToConsumer) == Next(objects, s, WorkerAct(i, SuitesToConsumer));
      assert NextWorker(objects, s, i, WorkerLeave) == Next(objects, s, WorkerAct(i, WorkerLeave));
      assert NextConsumer(s, AddSuites) == Next(objects, s, ConsumerAct(AddSuites));
    }
  }

  lemma StageStops(objects: seq<Kind>, s: State, name: StageName)
    requires Inv(objects, s) && Stuck(objects, s)
    requires !InLoop(Get(s, name).pc)
    ensures Get(s, name).pc.StageExited?
    ensures Get(s, name).closer.CloserExited?
  {
    CallerStops(objects, s);
    WorkersStop(objects, s, name);
    assert NextStage(objects, s, name, CloserReady) == Next(objects, s, StageAct(name, CloserReady));
    assert NextStage(objects, s, name, NilToStage) == Next(objects, s, StageAct(name, NilToStage));
    assert NextStage(objects, s, name, CloserAbort) == Next(objects, s, StageAct(name, CloserAbort));
    assert NextStage(objects, s, name, CloserClose) == Next(objects, s, StageAct(name, CloserClose));
    assert NextStage(objects, s, name, ClosedToStage) == Next(objects, s, StageAct(name, ClosedToStage));
    assert NextStage(objects, s, name, Drained) == Next(objects, s, StageAct(name, Drained));
    assert NextStage(objects, s, name, StageErrorToCaller) == Next(objects, s, StageAct(name, StageErrorToCaller));
    assert NextStage(objects, s, name, StageAbort) == Next(objects, s, StageAct(name, StageAbort));
    assert NextStage(objects, s, name, StageClose) == Next(objects, s, StageAct(name, StageClose));
    assert NextStage(objects, s, name, StageLeave) == Next(objects, s, StageAct(name, StageLeave));
  }

  lemma SinkStops(objects: seq<Kind>, s: State)
    requires Inv(objects, s) && Stuck(objects, s)
    requires s.suites.outputClosed
    ensures s.sink.pc.ConsumerExited?
  {
    assert Next(objects, s, ConsumerAct(AddSuites)).None?;
    assert Next(objects, s, ConsumerAct(ConsumerEnd)).None?;
    assert Next(objects, s, ConsumerAct(ConsumerLeave)).None?;
  }

  lemma WaiterStops(objects: seq<Kind>, s: State)
    requires Inv(objects, s) && Stuck(objects, s)
    requires EveryoneLeft(s)
    ensures s.waiter.WaiterExited? && s.ended
  {
    CallerStops(objects, s);
    assert Next(objects, s, WaiterAct(AllDone)).None?;
    assert Next(objects, s, WaiterAct(DoneToCaller)).None?;
    assert Next(objects, s, WaiterAct(WaiterAbort)).None?;
  }

  /** When nothing can move, no goroutine is left behind. */
  lemma StuckMeansGone(objects: seq<Kind>, s: State)
    requires Inv(objects, s) && Stuck(objects, s)
    ensures AllGone(s)
    ensures s.ended && (s.call.pc.Returned? || s.call.pc.Collect?)
  {
    FetchersStop(objects, s);
    CallerStops(objects, s);
    ListerStops(objects, s);
    StageStops(objects, s, Artifacts);
    assert Next(objects, s, StageAct(Suites, InputEnd)).None?;
    StageStops(objects, s, Suites);
    SinkStops(objects, s);
    WaiterStops(objects, s);
    WorkersStop(objects, s, Artifacts);
    WorkersStop(objects, s, Suites);
    forall i | 0 <= i < |objects|
      ensures Settled(s.work[i])
    {
      assert WorkerBorn(objects[i], s.work[i], i < s.feed.next, s.artifacts.pc == Forwarding(i));
    }
  }

  lemma GoneMeansStuck(objects: seq<Kind>, s: State)
    requires Inv(objects, s) && AllGone(s)
    requires s.call.pc.Returned? || s.call.pc.Collect?
    ensures Stuck(objects, s)
  {
    forall a: Action | !a.Timeout?
      ensures Next(objects, s, a).None?
    {
      match a
      case Timeout =>
      case StartedAct(f) =>
      case FinishedAct(f) =>
      case ListerAct(l) =>
      case Forward =>
      case StageAct(name, g) =>
      case WorkerAct(i, w) => assert i < |objects| ==> Settled(s.work[i]);
      case ConsumerAct(c) =>
      case WaiterAct(w) =>
      case CallerAct(c) =>
    }
  }

  /** Exactly where a run can stop: every goroutine is gone, and the caller has returned or waits in its
    first receive loop, which does not watch the context. */
  lemma WhereRunsStop(objects: seq<Kind>, acts: seq<Action>)
    requires Run(objects, acts).Some?
    ensures var s := Run(objects, acts).value;
            Stuck(objects, s) <==> AllGone(s) && (s.call.pc.Returned? || s.call.pc.Collect?)
  {
    RunKeeps(objects, acts);
    var s := Run(objects, acts).value;
    if Stuck(objects, s) {
      StuckMeansGone(objects, s);
    }
    if AllGone(s) && (s.call.pc.Returned? || s.call.pc.Collect?) {
      GoneMeansStuck(objects, s);
    }
  }

  /** While the context has not ended, some goroutine can always move. */
  lemma NeverStuckWhileLive(objects: seq<Kind>, acts: seq<Action>) returns (a: Action)
    requires Run(objects, acts).Some?
    requires !Run(objects, acts).value.ended
    ensures !a.Timeout? && Next(objects, Run(objects, acts).value, a).Some?
  {
    RunKeeps(objects, acts);
    var s := Run(objects, acts).value;
    if Stuck(objects, s) {
      StuckMeansGone(objects, s);
    }
    a :| !a.Timeout? && Next(objects, s, a).Some?;
  }

  // ----- every run is finite

  function FetcherRank(f: Fetcher): nat {
    match f
    case Fetching => 3
    case OfferValue | OfferError => 2
    case FetcherLeaving => 1
    case FetcherExited => 0
  }

  function FeedRank(total: nat, f: Feed): nat
    requires f.next <= total
  {
    match f.pc
    case Paging => 4 * (total - f.next) + 5
    case OfferObject => 4 * (total - f.next) + 4
    case OfferListError => 3
    case CloseArtifacts => 2
    case ListerLeaving => 1
    case ListerExited => 0
  }

  function StageRank(g: Stage): nat {
    (match g.pc
     case Forwarding(_) => 7
     case Receiving => 6
     case Selecting => 5
     case Draining(_) => 4
     case OfferStageError => 3
     case CloseOutput => 2
     case StageLeaving => 1
     case StageExited => 0)
    +
    (match g.closer
     case CloserUnborn => 4
     case CloserWaiting => 3
     case OfferNil => 2
     case CloseErrors => 1
     case CloserExited => 0)
  }

  function WorkerRank(w: Worker): nat {
    match w
    case Unborn => 6
    case AwaitMetadata => 5
    case Working => 4
    case OfferWorkerError | OfferSuites => 3
    case WorkerLeaving => 1
    case Gone => 0
  }

  function WorkRank(work: seq<Worker>): nat {
    if work == [] then 0 else WorkerRank(work[0]) + WorkRank(work[1..])
  }

  function SinkRank(k: Sink): nat {
    match k.pc
    case Adding(_) => 3
    case Idle => 2
    case ConsumerLeaving => 1
    case ConsumerExited => 0
  }

  function WaiterRank(w: Waiter): nat {
    match w
    case WaitAll => 2
    case OfferDone => 1
    case WaiterExited => 0
  }

  function CallRank(c: Call): nat {
    match c.pc
    case Collect(_, _) => 4
    case Metadata => 3
    case AwaitDone => 2
    case Finish => 1
    case Returned(_) => 0
  }

  function SideRank(s: State): nat {
    (if s.ended then 0 else 1) + CallRank(s.call) + FetcherRank(s.started) + FetcherRank(s.finished)
    + SinkRank(s.sink) + WaiterRank(s.waiter)
  }

  function Measure(objects: seq<Kind>, s: State): nat
    requires s.feed.next <= |objects|
  {
    SideRank(s) + FeedRank(|objects|, s.feed) + StageRank(s.artifacts) + StageRank(s.suites) + WorkRank(s.work)
  }

  lemma {:induction false} WorkRankUpdate(work: seq<Worker>, i: nat, w: Worker)
    requires i < |work|
    ensures WorkRank(work[i := w]) == WorkRank(work) - WorkerRank(work[i]) + WorkerRank(w)
  {
    if i == 0 {
      assert work[i := w][1..] == work[1..];
    } else {
      WorkRankUpdate(work[1..], i - 1, w);
      assert work[i := w][1..] == work[1..][i - 1 := w];
    }
  }

  lemma {:induction false} WorkRankBound(work: seq<Worker>)
    ensures WorkRank(work) <= 6 * |work|
  {
    if work != [] {
      WorkRankBound(work[1..]);
    }
  }

  lemma WorkerStepDecreases(objects: seq<Kind>, s: State, i: nat, a: WorkerStep)
    requires Inv(objects, s)
    requires i < |objects|
    requires NextWorker(objects, s, i, a).Some?
    ensures var t := NextWorker(objects, s, i, a).value;
            t.feed == s.feed && Measure(objects, t) < Measure(objects, s)
  {
    hide WorkRank;
    hide Quiet;
    hide EveryoneLeft;
    WorkRankUpdate(s.work, i, NextWorker(objects, s, i, a).value.work[i]);
  }

  lemma FeedStepDecreases(objects: seq<Kind>, s: State, a: ListerStep)
    requires Inv(objects, s)
    requires NextLister(objects, s, a).Some?
    ensures var t := NextLister(objects, s, a).value;
            t.feed.next <= |objects| && Measure(objects, t) < Measure(objects, s)
  {
    if a.SendObject? {
      WorkRankUpdate(s.work, s.feed.next, AwaitMetadata);
    }
  }

  lemma ForwardDecreases(objects: seq<Kind>, s: State)
    requires Inv(objects, s)
    requires NextForward(objects, s).Some?
    ensures var t := NextForward(objects, s).value;
            t.feed == s.feed && Measure(objects, t) < Measure(objects, s)
  {
    WorkRankUpdate(s.work, s.artifacts.pc.obj, Working);
    assert WorkerBorn(objects[s.artifacts.pc.obj], s.work[s.artifacts.pc.obj], true, true);
  }

  lemma StageRankDecreases(objects: seq<Kind>, s: State, name: StageName, a: StageStep)
    requires |s.work| == |objects|
    requires StageShape(Get(s, name))
    requires NextStage(objects, s, name, a).Some?
    ensures var t := NextStage(objects, s, name, a).value;
            && StageRank(Get(t, name)) < StageRank(Get(s, name))
            && t == Put(s, name, Get(t, name)).(ended := t.ended, call := t.call)
            && (s.ended ==> t.ended)
            && CallRank(t.call) <= CallRank(s.call)
  {
  }

  lemma StageStepDecreases(objects: seq<Kind>, s: State, name: StageName, a: StageStep)
    requires |s.work| == |objects| && s.feed.next <= |objects|
    requires StageShape(Get(s, name))
    requires NextStage(objects, s, name, a).Some?
    ensures var t := NextStage(objects, s, name, a).value;
            t.feed == s.feed && Measure(objects, t) < Measure(objects, s)
  {
    StageRankDecreases(objects, s, name, a);
  }

  /** `t` differs from `s` only in the parts that `SideRank` weighs. */
  predicate SideOnly(s: State, t: State) {
    t.feed == s.feed && t.artifacts == s.artifacts && t.suites == s.suites && t.work == s.work
  }

  lemma StartedStepDecreases(s: State, a: FetcherStep)
    requires NextStarted(s, a).Some?
    ensures SideOnly(s, NextStarted(s, a).value) && SideRank(NextStarted(s, a).value) < SideRank(s)
  {
  }

  lemma FinishedStepDecreases(s: State, a: FetcherStep)
    requires NextFinished(s, a).Some?
    ensures SideOnly(s, NextFinished(s, a).value) && SideRank(NextFinished(s, a).value) < SideRank(s)
  {
  }

  lemma ConsumerStepDecreases(s: State, a: ConsumerStep)
    requires NextConsumer(s, a).Some?
    ensures SideOnly(s, NextConsumer(s, a).value) && SideRank(NextConsumer(s, a).value) < SideRank(s)
  {
  }

  lemma WaiterStepDecreases(s: State, a: WaiterStep)
    requires NextWaiter(s, a).Some?
    ensures SideOnly(s, NextWaiter(s, a).value) && SideRank(NextWaiter(s, a).value) < SideRank(s)
  {
  }

  lemma CallerStepDecreases(s: State, a: CallerStep)
    requires NextCaller(s, a).Some?
    ensures SideOnly(s, NextCaller(s, a).value) && SideRank(NextCaller(s, a).value) < SideRank(s)
  {
  }

  lemma StepDecreases(objects: seq<Kind>, s: State, a: Action)
    requires Inv(objects, s)
    requires Next(objects, s, a).Some?
    ensures Next(objects, s, a).value.feed.next <= |objects|
    ensures Measure(objects, Next(objects, s, a).value) < Measure(objects, s)
  {
    match a
    case ListerAct(l) => FeedStepDecreases(objects, s, l);
    case Forward => ForwardDecreases(objects, s);
    case StageAct(name, g) => StageStepDecreases(objects, s, name, g);
    case WorkerAct(i, w) => WorkerStepDecreases(objects, s, i, w);
    case StartedAct(f) => StartedStepDecreases(s, f);
    case FinishedAct(f) => FinishedStepDecreases(s, f);
    case ConsumerAct(c) => ConsumerStepDecreases(s, c);
    case WaiterAct(w) => WaiterStepDecreases(s, w);
    case CallerAct(c) => CallerStepDecreases(s, c);
    case Timeout =>
  }

  lemma {:induction false} ExecLength(objects: seq<Kind>, s: State, acts: seq<Action>)
    requires Inv(objects, s)
    requires Exec(objects, s, acts).Some?
    ensures |acts| <= Measure(objects, s)
    decreases |acts|
  {
    if acts != [] {
      StepKeeps(objects, s, acts[0]);
      StepDecreases(objects, s, acts[0]);
      ExecLength(objects, Next(objects, s, acts[0]).value, acts[1..]);
    }
  }

  /** No run is longer than a fixed multiple of the number of listed objects. */
  lemma RunsAreFinite(objects: seq<Kind>, acts: seq<Action>)
    requires Run(objects, acts).Some?
    ensures |acts| <= 10 * |objects| + 40
  {
    InitInv(objects);
    ExecLength(objects, Init(objects), acts);
    WorkRankBound(Init(objects).work);
  }

  // ----- without a timeout, every run that cannot go on has returned

  lemma {:induction false} OnlyReturnEnds(objects: seq<Kind>, s: State, acts: seq<Action>)
    requires |s.work| == |objects|
    requires s.ended ==> s.call.pc.Returned?
    requires forall a :: a in acts ==> !a.Timeout?
    requires Exec(objects, s, acts).Some?
    ensures var t := Exec(objects, s, acts).value; t.ended ==> t.call.pc.Returned?
    decreases |acts|
  {
    if acts != [] {
      var t := Next(objects, s, acts[0]).value;
      assert t.ended ==> t.call.pc.Returned?;
      assert forall a :: a in acts[1..] ==> a in acts;
      OnlyReturnEnds(objects, t, acts[1..]);
    }
  }

  lemma UntimedRunsReturn(objects: seq<Kind>, acts: seq<Action>)
    requires Run(objects, acts).Some?
    requires forall a :: a in acts ==> !a.Timeout?
    requires Stuck(objects, Run(objects, acts).value)
    ensures Run(objects, acts).value.call.pc.Returned?
    ensures AllGone(Run(objects, acts).value)
  {
    RunKeeps(objects, acts);
    OnlyReturnEnds(objects, Init(objects), acts);
    StuckMeansGone(objects, Run(objects, acts).value);
  }
}
