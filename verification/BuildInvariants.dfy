/** What every step of the build download keeps, in every interleaving, with or without a timeout. */
module BuildInvariants {
  import opened BuildProtocol

  predicate InLoop(pc: StagePc) {
    pc.Receiving? || pc.Forwarding?
  }

  /** The stage function is past its final `wg.Wait`. */
  predicate PastWait(pc: StagePc) {
    pc.OfferStageError? || pc.CloseOutput? || pc.StageLeaving? || pc.StageExited?
  }

  predicate PastDone(closer: Closer) {
    closer.OfferNil? || closer.CloseErrors? || closer.CloserExited?
  }

  predicate StageShape(g: Stage) {
    && (g.outputClosed <==> g.pc.StageLeaving? || g.pc.StageExited?)
    && (g.errorsClosed <==> g.closer.CloserExited?)
    && (g.closer.CloserUnborn? <==> InLoop(g.pc))
    && (PastWait(g.pc) ==> g.cancelled)
    && (g.cancelled ==> !InLoop(g.pc) && !g.pc.Selecting?)
    && (g.pc.Draining? && !g.pc.failed ==> g.cancelled && (g.closer.CloseErrors? || g.closer.CloserExited?))
  }

  predicate Waited(objects: seq<Kind>, work: seq<Worker>, g: Stage, kind: Kind)
    requires |work| == |objects|
  {
    PastWait(g.pc) || PastDone(g.closer) ==> Quiet(objects, work, kind)
  }

  /** Workers are born when their object passes, and only then. */
  predicate WorkerBorn(kind: Kind, w: Worker, passed: bool, held: bool) {
    && (w.Unborn? <==> !passed || kind.Other? || held)
    && (w.AwaitMetadata? ==> kind.Log?)
    && (w.OfferSuites? ==> kind.Junit?)
  }

  predicate WorkersBorn(objects: seq<Kind>, work: seq<Worker>, next: nat, pc: StagePc)
    requires |work| == |objects|
  {
    forall i :: 0 <= i < |objects| ==> WorkerBorn(objects[i], work[i], i < next, pc == Forwarding(i))
  }

  predicate ChannelShape(s: State) {
    && (s.feed.closed <==> s.feed.pc.ListerLeaving? || s.feed.pc.ListerExited?)
    && !s.suites.pc.Forwarding?
    && (!InLoop(s.artifacts.pc) ==> s.feed.closed)
    && (!InLoop(s.suites.pc) ==> s.artifacts.outputClosed)
    && (s.sink.pc.ConsumerLeaving? || s.sink.pc.ConsumerExited? ==> s.suites.outputClosed)
  }

  predicate IndexShape(objects: seq<Kind>, s: State) {
    && s.feed.next <= |objects|
    && (s.feed.pc.OfferObject? ==> s.feed.next < |objects|)
    && (s.artifacts.pc.Forwarding? ==> s.artifacts.pc.obj < s.feed.next && !objects[s.artifacts.pc.obj].Log?)
    && (s.sink.pc.Adding? ==> s.sink.pc.obj < |objects| && objects[s.sink.pc.obj].Junit?)
  }

  predicate CallerShape(s: State) {
    && (s.call.metadataClosed <==> s.call.metadataCalls == 1)
    && s.call.metadataCalls <= 1
    && (s.call.pc.Collect? || s.call.pc.Metadata? ==> s.call.metadataCalls == 0)
    && (s.call.pc.AwaitDone? || s.call.pc.Finish? ==> s.call.metadataCalls == 1 && s.call.metadataOk)
    && (s.call.pc.Returned? ==> s.ended)
    && (s.call.pc.Collect? ==> !(s.call.pc.started && s.call.pc.finished))
    && (s.call.finishedCalls == if s.call.pc == Returned(Success) then 1 else 0)
    && (s.waiter.OfferDone? || s.waiter.WaiterExited? ==> EveryoneLeft(s))
    && (s.call.pc.Finish? || s.call.pc == Returned(Success) ==> s.waiter.WaiterExited?)
  }

  predicate HasStarted(c: Caller) {
    c.Collect? ==> c.started
  }

  predicate HasFinished(c: Caller) {
    c.Collect? ==> c.finished
  }

  predicate FetcherDone(f: Fetcher) {
    f.FetcherLeaving? || f.FetcherExited?
  }

  predicate Failing(pc: StagePc) {
    pc.OfferStageError? || (pc.Draining? && pc.failed)
  }

  predicate Delivered(objects: seq<Kind>, work: seq<Worker>, handed: set<nat>, consumer: Consumer)
    requires |work| == |objects|
  {
    forall i :: 0 <= i < |objects| && objects[i].Junit? && (work[i].WorkerLeaving? || work[i].Gone?) ==>
      i in handed || consumer == Adding(i)
  }

  /** While the context has not ended, nothing has been lost. */
  predicate LiveShape(objects: seq<Kind>, s: State) {
    && (FetcherDone(s.started) <==> HasStarted(s.call.pc))
    && (FetcherDone(s.finished) <==> HasFinished(s.call.pc))
    && (s.feed.pc.CloseArtifacts? || s.feed.pc.ListerLeaving? || s.feed.pc.ListerExited? ==> s.feed.next == |objects|)
    && (s.waiter.WaiterExited? ==> s.call.pc.Finish?)
  }

  predicate Inv(objects: seq<Kind>, s: State) {
    && |s.work| == |objects|
    && IndexShape(objects, s)
    && ChannelShape(s)
    && StageShape(s.artifacts)
    && StageShape(s.suites)
    && (s.artifacts.pc.Draining? ==> StageDone(s, Artifacts))
    && (s.suites.pc.Draining? ==> StageDone(s, Suites))
    && CallerShape(s)
    && WorkersBorn(objects, s.work, s.feed.next, s.artifacts.pc)
    && Waited(objects, s.work, s.artifacts, Log)
    && Waited(objects, s.work, s.suites, Junit)
    && (!s.ended ==> LiveShape(objects, s))
    && (!s.ended && !Failing(s.suites.pc) ==> Delivered(objects, s.work, s.sink.handed, s.sink.pc))
  }

  lemma InitInv(objects: seq<Kind>)
    ensures Inv(objects, Init(objects))
  {
  }

  lemma StartedKeeps(objects: seq<Kind>, s: State, a: FetcherStep)
    requires Inv(objects, s)
    requires NextStarted(s, a).Some?
    ensures Inv(objects, NextStarted(s, a).value)
  {
  }

  lemma FinishedKeeps(objects: seq<Kind>, s: State, a: FetcherStep)
    requires Inv(objects, s)
    requires NextFinished(s, a).Some?
    ensures Inv(objects, NextFinished(s, a).value)
  {
  }

  lemma ListerKeeps(objects: seq<Kind>, s: State, a: ListerStep)
    requires Inv(objects, s)
    requires NextLister(objects, s, a).Some?
    ensures Inv(objects, NextLister(objects, s, a).value)
  {
    var t := NextLister(objects, s, a).value;
    assert t.suites == s.suites && t.sink == s.sink && t.artifacts.closer == s.artifacts.closer;
  }

  lemma ForwardKeeps(objects: seq<Kind>, s: State)
    requires Inv(objects, s)
    requires NextForward(objects, s).Some?
    ensures Inv(objects, NextForward(objects, s).value)
  {
  }

  /** The steps of a stage and its closer up to the end of the select. */
  predicate BeforeDraining(a: StageStep) {
    a.InputEnd? || a.CloserReady? || a.NilToStage? || a.CloserAbort? || a.CloserClose? || a.ClosedToStage?
        || a.StageContext?
  }

  lemma ArtifactStageBegins(objects: seq<Kind>, s: State, a: StageStep)
    requires Inv(objects, s) && BeforeDraining(a)
    requires NextStage(objects, s, Artifacts, a).Some?
    ensures Inv(objects, NextStage(objects, s, Artifacts, a).value)
  {
    hide Delivered;
    var t := NextStage(objects, s, Artifacts, a).value;
    assert t.work == s.work && t.feed == s.feed && t.sink == s.sink && t.suites == s.suites;
  }

  lemma ArtifactStageEnds(objects: seq<Kind>, s: State, a: StageStep)
    requires Inv(objects, s) && !BeforeDraining(a)
    requires NextStage(objects, s, Artifacts, a).Some?
    ensures Inv(objects, NextStage(objects, s, Artifacts, a).value)
  {
    hide Delivered;
    var t := NextStage(objects, s, Artifacts, a).value;
    assert t.work == s.work && t.feed == s.feed && t.sink == s.sink && t.suites == s.suites;
  }

  lemma SuiteStageBegins(objects: seq<Kind>, s: State, a: StageStep)
    requires Inv(objects, s) && BeforeDraining(a)
    requires NextStage(objects, s, Suites, a).Some?
    ensures Inv(objects, NextStage(objects, s, Suites, a).value)
  {
    hide Delivered;
    hide WorkersBorn;
    var t := NextStage(objects, s, Suites, a).value;
    assert t.work == s.work && t.feed == s.feed && t.sink == s.sink && t.artifacts == s.artifacts;
  }

  lemma SuiteStageEnds(objects: seq<Kind>, s: State, a: StageStep)
    requires Inv(objects, s) && !BeforeDraining(a)
    requires NextStage(objects, s, Suites, a).Some?
    ensures Inv(objects, NextStage(objects, s, Suites, a).value)
  {
    hide Delivered;
    hide WorkersBorn;
    var t := NextStage(objects, s, Suites, a).value;
    assert t.work == s.work && t.feed == s.feed && t.sink == s.sink && t.artifacts == s.artifacts;
  }

  lemma StageKeeps(objects: seq<Kind>, s: State, name: StageName, a: StageStep)
    requires Inv(objects, s)
    requires NextStage(objects, s, name, a).Some?
    ensures Inv(objects, NextStage(objects, s, name, a).value)
  {
    if BeforeDraining(a) {
      if name.Artifacts? { ArtifactStageBegins(objects, s, a); } else { SuiteStageBegins(objects, s, a); }
    } else {
      if name.Artifacts? { ArtifactStageEnds(objects, s, a); } else { SuiteStageEnds(objects, s, a); }
    }
  }

  lemma WorkerErrorKeeps(objects: seq<Kind>, s: State, i: nat)
    requires Inv(objects, s)
    requires i < |objects|
    requires NextWorker(objects, s, i, ErrorToStage).Some?
    ensures Inv(objects, NextWorker(objects, s, i, ErrorToStage).value)
  {
  }

  /** Every other worker step leaves both stages as they are. */
  lemma WorkerAloneKeeps(objects: seq<Kind>, s: State, i: nat, a: WorkerStep)
    requires Inv(objects, s)
    requires i < |objects|
    requires !a.ErrorToStage?
    requires NextWorker(objects, s, i, a).Some?
    ensures Inv(objects, NextWorker(objects, s, i, a).value)
  {
    var t := NextWorker(objects, s, i, a).value;
    assert t.artifacts == s.artifacts && t.suites == s.suites && t.call == s.call && t.feed == s.feed;
  }

  lemma WorkerKeeps(objects: seq<Kind>, s: State, i: nat, a: WorkerStep)
    requires Inv(objects, s)
    requires i < |objects|
    requires NextWorker(objects, s, i, a).Some?
    ensures Inv(objects, NextWorker(objects, s, i, a).value)
  {
    if a.ErrorToStage? { WorkerErrorKeeps(objects, s, i); } else { WorkerAloneKeeps(objects, s, i, a); }
  }

  lemma ConsumerKeeps(objects: seq<Kind>, s: State, a: ConsumerStep)
    requires Inv(objects, s)
    requires NextConsumer(s, a).Some?
    ensures Inv(objects, NextConsumer(s, a).value)
  {
  }

  lemma WaiterKeeps(objects: seq<Kind>, s: State, a: WaiterStep)
    requires Inv(objects, s)
    requires NextWaiter(s, a).Some?
    ensures Inv(objects, NextWaiter(s, a).value)
  {
  }

  lemma CallerKeeps(objects: seq<Kind>, s: State, a: CallerStep)
    requires Inv(objects, s)
    requires NextCaller(s, a).Some?
    ensures Inv(objects, NextCaller(s, a).value)
  {
    var t := NextCaller(s, a).value;
    assert t == s.(ended := t.ended, call := t.call);
  }

  lemma StepKeeps(objects: seq<Kind>, s: State, a: Action)
    requires Inv(objects, s)
    requires Next(objects, s, a).Some?
    ensures Inv(objects, Next(objects, s, a).value)
  {
    match a
    case Timeout =>
    case StartedAct(f) => StartedKeeps(objects, s, f);
    case FinishedAct(f) => FinishedKeeps(objects, s, f);
    case ListerAct(l) => ListerKeeps(objects, s, l);
    case Forward => ForwardKeeps(objects, s);
    case StageAct(name, g) => StageKeeps(objects, s, name, g);
    case WorkerAct(i, w) => WorkerKeeps(objects, s, i, w);
    case ConsumerAct(c) => ConsumerKeeps(objects, s, c);
    case WaiterAct(w) => WaiterKeeps(objects, s, w);
    case CallerAct(c) => CallerKeeps(objects, s, c);
  }
}
