/** The goroutines that download one build, as a step system.

  `ReadBuild` starts two metadata fetchers, a lister, an artifact stage, a suite stage, a consumer
  and a waiter, and then receives in the calling goroutine. The two stages (`LogAccumulator.Artifacts`
  and `Build.Suites`) have the same shape: a range loop that starts one worker per matching object,
  a helper that waits for the workers, a private error channel and a private cancellation.

  A step is one I/O result, one hand-over on an unbuffered channel (both sides move at once), one
  close, one `wg.Done`, or one `ctx.Done` branch. I/O may succeed or fail at every call. */
module BuildProtocol {
  import opened Wrappers

  /** What the stages make of a listed object: `build-log.txt`, a junit file, or anything else. */
  datatype Kind = Log | Junit | Other

  datatype Fetcher = Fetching | OfferValue | OfferError | FetcherLeaving | FetcherExited

  datatype Lister = Paging | OfferObject | OfferListError | CloseArtifacts | ListerLeaving | ListerExited

  datatype StageName = Artifacts | Suites

  datatype StagePc =
    | Receiving
    | Forwarding(obj: nat)
    | Selecting
    | Draining(failed: bool)
    | OfferStageError
    | CloseOutput
    | StageLeaving
    | StageExited

  /** The helper goroutine of a stage that waits for the workers and then closes the private error channel. */
  datatype Closer = CloserUnborn | CloserWaiting | OfferNil | CloseErrors | CloserExited

  datatype Stage = Stage(pc: StagePc, closer: Closer, cancelled: bool, errorsClosed: bool, outputClosed: bool)

  /** One worker per log or junit object; objects of kind `Other` never get one. */
  datatype Worker = Unborn | AwaitMetadata | Working | OfferWorkerError | OfferSuites | WorkerLeaving | Gone

  datatype Consumer = Idle | Adding(obj: nat) | ConsumerLeaving | ConsumerExited

  datatype Waiter = WaitAll | OfferDone | WaiterExited

  datatype Outcome = Success | Failed | Interrupted | NoMetadata

  /** The calling goroutine: the first receive loop, `AddMetadata`, the second select, `Finished`. */
  datatype Caller =
    | Collect(started: bool, finished: bool)
    | Metadata
    | AwaitDone
    | Finish
    | Returned(outcome: Outcome)

  /** What `AddMetadata` learns of the build: whether it succeeded, and when it finished, 0 if it has not. */
  datatype Verdict = Verdict(succeeded: bool, finished: int)

  /** What the calling goroutine and `AddMetadata` have done: `metadata` is the hasMetadata channel. */
  datatype Call = Call(pc: Caller, metadataClosed: bool, metadataOk: bool, verdict: Verdict, metadataCalls: nat,
      finishedCalls: nat)

  /** The lister, how many objects it has handed over, and whether it closed its channel. */
  datatype Feed = Feed(pc: Lister, next: nat, closed: bool)

  /** The consumer and the objects whose suites `AddSuites` has taken. */
  datatype Sink = Sink(pc: Consumer, handed: set<nat>)

  datatype State = State(
    ended: bool, // the shared context is done
    call: Call,
    started: Fetcher,
    finished: Fetcher,
    feed: Feed,
    artifacts: Stage,
    suites: Stage,
    work: seq<Worker>,
    sink: Sink,
    waiter: Waiter
  )

  datatype FetcherStep = Fetched(ok: bool) | ValueToCaller | ErrorToCaller | FetcherAbort | FetcherLeave

  datatype ListerStep =
    | Page(ok: bool) | SendObject | ListInterrupted | ListErrorToCaller | ListAbort | ListClose | ListLeave

  datatype StageStep =
    | InputEnd
    | CloserReady | NilToStage | CloserAbort | CloserClose
    | ClosedToStage | StageContext | Drained
    | StageErrorToCaller | StageAbort | StageClose | StageLeave

  datatype WorkerStep =
    | SeeMetadata | MissMetadata | WorkerIO(ok: bool) | ErrorToStage | WorkerAbort | SuitesToConsumer | WorkerLeave

  datatype ConsumerStep = AddSuites | ConsumerEnd | ConsumerLeave

  datatype WaiterStep = AllDone | DoneToCaller | WaiterAbort

  datatype CallerStep = AddMetadata(ok: bool, verdict: Verdict) | CallerInterrupted | CallFinished

  datatype Action =
    | Timeout
    | StartedAct(fetch: FetcherStep)
    | FinishedAct(fetch: FetcherStep)
    | ListerAct(list: ListerStep)
    | Forward
    | StageAct(name: StageName, stage: StageStep)
    | WorkerAct(obj: nat, work: WorkerStep)
    | ConsumerAct(consume: ConsumerStep)
    | WaiterAct(wait: WaiterStep)
    | CallerAct(call: CallerStep)

  function NewStage(): Stage {
    Stage(Receiving, CloserUnborn, false, false, false)
  }

  function Init(objects: seq<Kind>): State {
    State(
      false, Call(Collect(false, false), false, false, Verdict(false, 0), 0, 0), Fetching, Fetching,
          Feed(Paging, 0, false),
      NewStage(), NewStage(), seq(|objects|, i => Unborn), Sink(Idle, {}), WaitAll)
  }

  function Get(s: State, name: StageName): Stage {
    if name.Artifacts? then s.artifacts else s.suites
  }

  function Put(s: State, name: StageName, stage: Stage): State {
    if name.Artifacts? then s.(artifacts := stage) else s.(suites := stage)
  }

  function WorkerKind(name: StageName): Kind {
    if name.Artifacts? then Log else Junit
  }

  function OwnerOf(kind: Kind): StageName {
    if kind.Log? then Artifacts else Suites
  }

  predicate InputClosed(s: State, name: StageName) {
    if name.Artifacts? then s.feed.closed else s.artifacts.outputClosed
  }

  /** The stage's private context is done. */
  predicate StageDone(s: State, name: StageName) {
    s.ended || Get(s, name).cancelled
  }

  /** The log of a build that succeeded, or has not finished, is not downloaded. */
  predicate LogUnwanted(verdict: Verdict) {
    verdict.succeeded || verdict.finished == 0
  }

  predicate Settled(w: Worker) {
    w.Unborn? || w.Gone?
  }

  /** The wait group of the stage's workers is at zero. */
  predicate Quiet(objects: seq<Kind>, work: seq<Worker>, kind: Kind)
    requires |work| == |objects|
  {
    forall i :: 0 <= i < |objects| && objects[i] == kind ==> Settled(work[i])
  }

  /** The caller is at a select that receives from the shared error channel. */
  predicate Listens(s: State) {
    s.call.pc.Collect? || s.call.pc.AwaitDone?
  }

  function Return(s: State, outcome: Outcome): State {
    s.(call := s.call.(pc := Returned(outcome)), ended := true)
  }

  function Got(started: bool, finished: bool): Caller {
    if started && finished then Metadata else Collect(started, finished)
  }

  predicate EveryoneLeft(s: State) {
    && s.started.FetcherExited?
    && s.finished.FetcherExited?
    && s.feed.pc.ListerExited?
    && s.artifacts.pc.StageExited?
    && s.suites.pc.StageExited?
    && s.sink.pc.ConsumerExited?
  }

  function NextStarted(s: State, a: FetcherStep): Option<State> {
    match a
    case Fetched(ok) => if s.started.Fetching? then Some(s.(started := if ok then OfferValue else OfferError)) else None
    case ValueToCaller =>
      if s.started.OfferValue? && s.call.pc.Collect?
      then Some(s.(started := FetcherLeaving, call := s.call.(pc := Got(true, s.call.pc.finished)))) else None
    case ErrorToCaller =>
      if s.started.OfferError? && Listens(s)
      then Some(Return(s, Failed).(started := FetcherLeaving))
      else None
    case FetcherAbort =>
      if s.ended && (s.started.OfferValue? || s.started.OfferError?)
      then Some(s.(started := FetcherLeaving))
      else None
    case FetcherLeave => if s.started.FetcherLeaving? then Some(s.(started := FetcherExited)) else None
  }

  function NextFinished(s: State, a: FetcherStep): Option<State> {
    match a
    case Fetched(ok) =>
      if s.finished.Fetching?
      then Some(s.(finished := if ok then OfferValue else OfferError))
      else None
    case ValueToCaller =>
      if s.finished.OfferValue? && s.call.pc.Collect?
      then Some(s.(finished := FetcherLeaving, call := s.call.(pc := Got(s.call.pc.started, true)))) else None
    case ErrorToCaller =>
      if s.finished.OfferError? && Listens(s)
      then Some(Return(s, Failed).(finished := FetcherLeaving))
      else None
    case FetcherAbort =>
      if s.ended && (s.finished.OfferValue? || s.finished.OfferError?)
      then Some(s.(finished := FetcherLeaving))
      else None
    case FetcherLeave => if s.finished.FetcherLeaving? then Some(s.(finished := FetcherExited)) else None
  }

  /** The lister offers each object to the artifact stage, which starts a worker for a build log and
    otherwise turns to forwarding the object. */
  function NextLister(objects: seq<Kind>, s: State, a: ListerStep): Option<State>
    requires |s.work| == |objects|
  {
    match a
    case Page(ok) =>
      if s.feed.pc.Paging?
      then Some(s.(feed := s.feed.(pc := if !ok then OfferListError else if s.feed.next < |objects| then OfferObject
          else CloseArtifacts)))
      else None
    case SendObject =>
      if s.feed.pc.OfferObject? && s.artifacts.pc.Receiving? && s.feed.next < |objects| then
        var t := s.(feed := s.feed.(pc := Paging, next := s.feed.next + 1));
        Some(if objects[s.feed.next].Log?
             then t.(work := s.work[s.feed.next := AwaitMetadata])
             else t.(artifacts := s.artifacts.(pc := Forwarding(s.feed.next))))
      else None
    case ListInterrupted =>
      if s.ended && s.feed.pc.OfferObject?
      then Some(s.(feed := s.feed.(pc := OfferListError)))
      else None
    case ListErrorToCaller =>
      if s.feed.pc.OfferListError? && Listens(s)
      then Some(Return(s, Failed).(feed := s.feed.(pc := CloseArtifacts)))
      else None
    case ListAbort =>
      if s.ended && s.feed.pc.OfferListError?
      then Some(s.(feed := s.feed.(pc := CloseArtifacts)))
      else None
    case ListClose =>
      if s.feed.pc.CloseArtifacts?
      then Some(s.(feed := s.feed.(pc := ListerLeaving, closed := true)))
      else None
    case ListLeave => if s.feed.pc.ListerLeaving? then Some(s.(feed := s.feed.(pc := ListerExited))) else None
  }

  /** The artifact stage hands one object to the suite stage: a plain send, with no way out on `ctx.Done`. */
  function NextForward(objects: seq<Kind>, s: State): Option<State>
    requires |s.work| == |objects|
  {
    if s.artifacts.pc.Forwarding? && s.suites.pc.Receiving? && s.artifacts.pc.obj < |objects| then
      var i := s.artifacts.pc.obj;
      var t := s.(artifacts := s.artifacts.(pc := Receiving));
      Some(if objects[i].Junit? then t.(work := s.work[i := Working]) else t)
    else None
  }

  function NextStage(objects: seq<Kind>, s: State, name: StageName, a: StageStep): Option<State>
    requires |s.work| == |objects|
  {
    var g := Get(s, name);
    match a
    case InputEnd =>
      if g.pc.Receiving? && InputClosed(s, name)
      then Some(Put(s, name, g.(pc := Selecting, closer := CloserWaiting)))
      else None
    case CloserReady =>
      if g.closer.CloserWaiting? && Quiet(objects, s.work, WorkerKind(name))
      then Some(Put(s, name, g.(closer := OfferNil)))
      else None
    case NilToStage =>
      if g.closer.OfferNil? && g.pc.Selecting?
      then Some(Put(s, name, g.(pc := Draining(false), cancelled := true, closer := CloseErrors)))
      else None
    case CloserAbort =>
      if g.closer.OfferNil? && StageDone(s, name) then Some(Put(s, name, g.(closer := CloseErrors))) else None
    case CloserClose =>
      if g.closer.CloseErrors? then Some(Put(s, name, g.(closer := CloserExited, errorsClosed := true))) else None
    case ClosedToStage =>
      if g.pc.Selecting? && g.errorsClosed
      then Some(Put(s, name, g.(pc := Draining(false), cancelled := true)))
      else None
    case StageContext =>
      if g.pc.Selecting? && s.ended then Some(Put(s, name, g.(pc := Draining(true)))) else None
    case Drained =>
      if g.pc.Draining? && Quiet(objects, s.work, WorkerKind(name))
      then Some(Put(s, name, g.(pc := if g.pc.failed then OfferStageError else CloseOutput, cancelled := true)))
      else None
    case StageErrorToCaller =>
      if g.pc.OfferStageError? && Listens(s) then Some(Put(Return(s, Failed), name, g.(pc := CloseOutput))) else None
    case StageAbort => if g.pc.OfferStageError? && s.ended then Some(Put(s, name, g.(pc := CloseOutput))) else None
    case StageClose =>
      if g.pc.CloseOutput?
      then Some(Put(s, name, g.(pc := StageLeaving, outputClosed := true)))
      else None
    case StageLeave => if g.pc.StageLeaving? then Some(Put(s, name, g.(pc := StageExited))) else None
  }

  function NextWorker(objects: seq<Kind>, s: State, i: nat, a: WorkerStep): Option<State>
    requires |s.work| == |objects|
    requires i < |objects|
  {
    var w := s.work[i];
    var name := OwnerOf(objects[i]);
    match a
    case SeeMetadata =>
      if w.AwaitMetadata? && s.call.metadataClosed
      then Some(s.(work := s.work[i := if LogUnwanted(s.call.verdict) then WorkerLeaving else Working]))
      else None
    case MissMetadata =>
      if w.AwaitMetadata? && StageDone(s, Artifacts)
      then Some(s.(work := s.work[i := WorkerLeaving]))
      else None
    case WorkerIO(ok) =>
      if w.Working?
      then Some(s.(work := s.work[i := if !ok then OfferWorkerError else if objects[i].Junit? then OfferSuites
          else WorkerLeaving]))
      else None
    case ErrorToStage =>
      if w.OfferWorkerError? && Get(s, name).pc.Selecting?
      then Some(Put(s, name,
          Get(s, name).(pc := Draining(true), cancelled := true)).(work := s.work[i := WorkerLeaving]))
      else None
    case WorkerAbort =>
      if (w.OfferWorkerError? || w.OfferSuites?) && StageDone(s, name)
      then Some(s.(work := s.work[i := WorkerLeaving]))
      else None
    case SuitesToConsumer =>
      if w.OfferSuites? && s.sink.pc.Idle?
      then Some(s.(work := s.work[i := WorkerLeaving], sink := s.sink.(pc := Adding(i))))
      else None
    case WorkerLeave => if w.WorkerLeaving? then Some(s.(work := s.work[i := Gone])) else None
  }

  function NextConsumer(s: State, a: ConsumerStep): Option<State> {
    match a
    case AddSuites =>
      if s.sink.pc.Adding? then Some(s.(sink := Sink(Idle, s.sink.handed + {s.sink.pc.obj}))) else None
    case ConsumerEnd =>
      if s.sink.pc.Idle? && s.suites.outputClosed
      then Some(s.(sink := s.sink.(pc := ConsumerLeaving)))
      else None
    case ConsumerLeave => if s.sink.pc.ConsumerLeaving? then Some(s.(sink := s.sink.(pc := ConsumerExited))) else None
  }

  function NextWaiter(s: State, a: WaiterStep): Option<State> {
    match a
    case AllDone => if s.waiter.WaitAll? && EveryoneLeft(s) then Some(s.(waiter := OfferDone)) else None
    case DoneToCaller =>
      if s.waiter.OfferDone? && Listens(s)
      then Some(s.(waiter := WaiterExited, call := s.call.(pc := if s.call.pc.AwaitDone? then Finish else s.call.pc)))
      else None
    case WaiterAbort => if s.waiter.OfferDone? && s.ended then Some(s.(waiter := WaiterExited)) else None
  }

  function NextCaller(s: State, a: CallerStep): Option<State> {
    match a
    case AddMetadata(ok, verdict) =>
      if s.call.pc.Metadata? then
        var t := s.(call := s.call.(
                      pc := AwaitDone, metadataClosed := true, metadataOk := ok, verdict := verdict,
                      metadataCalls := s.call.metadataCalls + 1));
        Some(if ok then t else Return(t, NoMetadata))
      else None
    case CallerInterrupted => if s.call.pc.AwaitDone? && s.ended then Some(Return(s, Interrupted)) else None
    case CallFinished =>
      if s.call.pc.Finish?
      then Some(s.(ended := true, call := s.call.(pc := Returned(Success), finishedCalls := s.call.finishedCalls + 1)))
      else None
  }

  /** The state after one step, or `None` when the step is not possible. */
  function Next(objects: seq<Kind>, s: State, a: Action): Option<State>
    requires |s.work| == |objects|
  {
    match a
    case Timeout => if !s.ended then Some(s.(ended := true)) else None
    case StartedAct(f) => NextStarted(s, f)
    case FinishedAct(f) => NextFinished(s, f)
    case ListerAct(l) => NextLister(objects, s, l)
    case Forward => NextForward(objects, s)
    case StageAct(name, g) => NextStage(objects, s, name, g)
    case WorkerAct(i, w) => if i < |objects| then NextWorker(objects, s, i, w) else None
    case ConsumerAct(c) => NextConsumer(s, c)
    case WaiterAct(w) => NextWaiter(s, w)
    case CallerAct(c) => NextCaller(s, c)
  }
}
