/** What the build download promises over whole runs. */
module BuildRuns {
  import opened Wrappers
  import opened BuildProtocol
  import opened BuildInvariants

  /** The state after a sequence of steps, or `None` when one of them is not possible. */
  function Exec(objects: seq<Kind>, s: State, acts: seq<Action>): (r: Option<State>)
    requires |s.work| == |objects|
    ensures r.Some? ==> |r.value.work| == |objects|
    decreases |acts|
  {
    if acts == [] then Some(s)
    else
      var t := Next(objects, s, acts[0]);
      if t.None? then None else Exec(objects, t.value, acts[1..])
  }

  function Run(objects: seq<Kind>, acts: seq<Action>): Option<State> {
    Exec(objects, Init(objects), acts)
  }

  lemma {:induction false} ExecKeeps(objects: seq<Kind>, s: State, acts: seq<Action>)
    requires Inv(objects, s)
    requires Exec(objects, s, acts).Some?
    ensures Inv(objects, Exec(objects, s, acts).value)
    decreases |acts|
  {
    if acts != [] {
      StepKeeps(objects, s, acts[0]);
      ExecKeeps(objects, Next(objects, s, acts[0]).value, acts[1..]);
    }
  }

  lemma RunKeeps(objects: seq<Kind>, acts: seq<Action>)
    requires Run(objects, acts).Some?
    ensures Inv(objects, Run(objects, acts).value)
  {
    InitInv(objects);
    ExecKeeps(objects, Init(objects), acts);
  }

  lemma {:induction false} ExecSnoc(objects: seq<Kind>, s: State, acts: seq<Action>, a: Action)
    requires |s.work| == |objects|
    requires Exec(objects, s, acts).Some?
    ensures Exec(objects, s, acts + [a]) == Next(objects, Exec(objects, s, acts).value, a)
    decreases |acts|
  {
    if acts == [] {
      assert ([] + [a])[1..] == [];
    } else {
      assert (acts + [a])[1..] == acts[1..] + [a];
      ExecSnoc(objects, Next(objects, s, acts[0]).value, acts[1..], a);
    }
  }

  lemma Extend(objects: seq<Kind>, acts: seq<Action>, s: State, a: Action, t: State) returns (longer: seq<Action>)
    requires Run(objects, acts) == Some(s)
    requires Next(objects, s, a) == Some(t)
    ensures Run(objects, longer) == Some(t)
  {
    longer := acts + [a];
    ExecSnoc(objects, Init(objects), acts, a);
  }

  /** A step of the caller, the waiter, a fetcher or the clock. */
  predicate NearCaller(a: Action) {
    a.CallerAct? || a.WaiterAct? || a.StartedAct? || a.FinishedAct? || a.Timeout?
  }

  /** Lister, stages, workers and consumer at most end the call with a failure. */
  lemma OthersOnlyFail(objects: seq<Kind>, s: State, a: Action)
    requires |s.work| == |objects| && Next(objects, s, a).Some? && !NearCaller(a)
    ensures var t := Next(objects, s, a).value;
            && |t.work| == |objects| && (s.ended ==> t.ended)
            && t.started == s.started && t.finished == s.finished && t.waiter == s.waiter
            && (t.call == s.call || t.call == s.call.(pc := Returned(Failed)))
  {
    hide Quiet;
  }

  lemma SameWork(objects: seq<Kind>, s: State, a: Action)
    requires |s.work| == |objects| && Next(objects, s, a).Some?
    requires !a.WorkerAct? && !a.ListerAct? && !a.Forward?
    ensures Next(objects, s, a).value.work == s.work
  {
    hide Quiet;
    hide EveryoneLeft;
  }

  lemma EndedStays(objects: seq<Kind>, s: State, a: Action)
    requires |s.work| == |objects| && Next(objects, s, a).Some?
    ensures |Next(objects, s, a).value.work| == |objects| && (s.ended ==> Next(objects, s, a).value.ended)
  {
    hide EveryoneLeft;
    hide NextLister;
    hide NextForward;
    hide NextStage;
    hide NextWorker;
    hide NextConsumer;
    if !NearCaller(a) {
      OthersOnlyFail(objects, s, a);
    }
  }

  lemma RunBefore(objects: seq<Kind>, acts: seq<Action>, a: Action)
    requires Run(objects, acts + [a]).Some?
    ensures Run(objects, acts).Some?
    ensures Run(objects, acts + [a]) == Next(objects, Run(objects, acts).value, a)
  {
    ExecBefore(objects, Init(objects), acts, a);
    ExecSnoc(objects, Init(objects), acts, a);
  }

  lemma {:induction false} ExecBefore(objects: seq<Kind>, s: State, acts: seq<Action>, a: Action)
    requires |s.work| == |objects| && Exec(objects, s, acts + [a]).Some?
    ensures Exec(objects, s, acts).Some?
    decreases |acts|
  {
    hide Next;
    if acts != [] {
      EndedStays(objects, s, acts[0]);
      assert (acts + [a])[0] == acts[0] && (acts + [a])[1..] == acts[1..] + [a];
      ExecBefore(objects, Next(objects, s, acts[0]).value, acts[1..], a);
    }
  }

  // ----- nothing is sent on a closed channel, and nothing is closed twice

  predicate SendsAreOpen(objects: seq<Kind>, s: State)
    requires |s.work| == |objects|
  {
    && (s.feed.pc.OfferObject? ==> !s.feed.closed)
    && (s.artifacts.pc.Forwarding? ==> !s.artifacts.outputClosed)
    && (forall i :: 0 <= i < |objects| && s.work[i].OfferSuites? ==> !s.suites.outputClosed)
    && (forall i :: 0 <= i < |objects| && s.work[i].OfferWorkerError? ==> !Get(s, OwnerOf(objects[i])).errorsClosed)
    && (forall name :: Get(s, name).closer.OfferNil? ==> !Get(s, name).errorsClosed)
  }

  predicate ClosesAreOpen(s: State) {
    && (s.feed.pc.CloseArtifacts? ==> !s.feed.closed)
    && (forall name :: Get(s, name).pc.CloseOutput? ==> !Get(s, name).outputClosed)
    && (forall name :: Get(s, name).closer.CloseErrors? ==> !Get(s, name).errorsClosed)
    && (s.call.pc.Metadata? ==> !s.call.metadataClosed)
  }

  /** In every run, with or without errors or a timeout: a goroutine about to send finds the channel
    open, and a goroutine about to close one finds it open too. */
  lemma ChannelsUsedSafely(objects: seq<Kind>, acts: seq<Action>)
    requires Run(objects, acts).Some?
    ensures SendsAreOpen(objects, Run(objects, acts).value)
    ensures ClosesAreOpen(Run(objects, acts).value)
  {
    RunKeeps(objects, acts);
    var s := Run(objects, acts).value;
    forall i | 0 <= i < |objects|
      ensures s.work[i].OfferSuites? ==> !s.suites.outputClosed
      ensures s.work[i].OfferWorkerError? ==> !Get(s, OwnerOf(objects[i])).errorsClosed
    {
      assert WorkerBorn(objects[i], s.work[i], i < s.feed.next, s.artifacts.pc == Forwarding(i));
    }
  }

  // ----- when Finished may run

  /** `Finished` runs, while the context has not ended, only after the one `AddMetadata` call succeeded
    with both values in hand, every object was listed, every junit object was read and handed to
    `AddSuites`, and every log worker is gone. */
  lemma FinishedSeesEverything(objects: seq<Kind>, acts: seq<Action>)
    requires Run(objects, acts).Some?
    requires !Run(objects, acts).value.ended
    requires Next(objects, Run(objects, acts).value, CallerAct(CallFinished)).Some?
    ensures var s := Run(objects, acts).value;
            && s.call.metadataCalls == 1 && s.call.metadataOk && s.call.finishedCalls == 0
            && s.feed.next == |objects|
            && s.started.FetcherExited? && s.finished.FetcherExited? && s.feed.pc.ListerExited?
            && s.artifacts.pc.StageExited? && s.suites.pc.StageExited? && s.sink.pc.ConsumerExited?
            && (forall i :: 0 <= i < |objects| && objects[i].Junit? ==> i in s.sink.handed)
            && (forall i :: 0 <= i < |objects| && objects[i].Log? ==> s.work[i].Gone?)
  {
    RunKeeps(objects, acts);
    var s := Run(objects, acts).value;
    forall i | 0 <= i < |objects|
      ensures objects[i].Junit? ==> i in s.sink.handed
      ensures objects[i].Log? ==> s.work[i].Gone?
    {
      assert WorkerBorn(objects[i], s.work[i], i < s.feed.next, s.artifacts.pc == Forwarding(i));
    }
  }

  /** While the context has not ended, the waiter's nil cannot reach the first receive loop: when it is
    offered, both metadata values have been received. */
  lemma NilComesAfterMetadata(objects: seq<Kind>, acts: seq<Action>)
    requires Run(objects, acts).Some?
    requires !Run(objects, acts).value.ended
    requires Run(objects, acts).value.waiter.OfferDone?
    ensures var s := Run(objects, acts).value; s.call.pc.Metadata? || s.call.pc.AwaitDone?
  {
    RunKeeps(objects, acts);
  }

  /** `AddMetadata` and `Finished` run at most once each, and `Finished` only after `AddMetadata` succeeded,
    even when the context ends. */
  lemma CalledAtMostOnce(objects: seq<Kind>, acts: seq<Action>)
    requires Run(objects, acts).Some?
    ensures var c := Run(objects, acts).value.call;
            && c.metadataCalls <= 1
            && c.finishedCalls <= 1
            && (c.finishedCalls == 1 <==> c.pc == Returned(Success))
            && (c.pc.AwaitDone? || c.pc.Finish? ==> c.metadataOk)
  {
    RunKeeps(objects, acts);
  }
}
