/** What a run without a timeout returns: no failing call goes unseen. */
module BuildOutcome {
  import opened BuildProtocol
  import opened BuildInvariants
  import opened BuildRuns
  import opened BuildProgress
  import opened BuildSuccess

  /** A goroutine other than a worker holds an error that the caller has not seen. */
  predicate Held(s: State) {
    || s.started.OfferError? || s.finished.OfferError? || s.feed.pc.OfferListError?
    || Failing(s.artifacts.pc) || Failing(s.suites.pc)
  }

  /** Somebody does. */
  predicate Blamed(s: State) {
    Held(s) || exists i :: 0 <= i < |s.work| && s.work[i].OfferWorkerError?
  }

  ghost predicate MetadataFailed(acts: seq<Action>) {
    exists v :: CallerAct(AddMetadata(false, v)) in acts
  }

  /** What the caller returns, in terms of the calls that failed. */
  ghost function OutcomeOf(acts: seq<Action>): Outcome {
    if MetadataFailed(acts) then NoMetadata else if AllSucceed(acts) then Success else Failed
  }

  ghost predicate Accounted(acts: seq<Action>, s: State) {
    if s.call.pc.Returned? then s.call.pc == Returned(OutcomeOf(acts))
    else !s.ended && !MetadataFailed(acts) && (AllSucceed(acts) || Blamed(s))
  }

  lemma CallStays(objects: seq<Kind>, s: State, a: Action)
    requires |s.work| == |objects| && s.call.pc.Returned? && Next(objects, s, a).Some?
    ensures Next(objects, s, a).value.call == s.call
    ensures !(a.CallerAct? && a.call.AddMetadata?)
  {
    hide Quiet;
    hide EveryoneLeft;
  }

  /** After success nobody is left to fail. */
  lemma NothingFailsAfter(objects: seq<Kind>, s: State, a: Action)
    requires Inv(objects, s) && s.call.pc == Returned(Success) && Next(objects, s, a).Some?
    ensures Succeeds(a)
  {
    if a.WorkerAct? && a.obj < |objects| {
      AllSettled(objects, s, a.obj);
    }
    assert s.ended && EveryoneLeft(s);
    hide Inv;
    hide Quiet;
  }

  lemma AllSettled(objects: seq<Kind>, s: State, i: nat)
    requires Inv(objects, s) && EveryoneLeft(s) && i < |objects|
    ensures Settled(s.work[i])
  {
    assert WorkerBorn(objects[i], s.work[i], i < s.feed.next, s.artifacts.pc == Forwarding(i));
    assert Quiet(objects, s.work, Log) && Quiet(objects, s.work, Junit);
  }

  lemma NobodyBlamed(objects: seq<Kind>, s: State)
    requires Inv(objects, s) && EveryoneLeft(s)
    ensures !Blamed(s)
  {
    forall i | 0 <= i < |s.work|
      ensures !s.work[i].OfferWorkerError?
    {
      AllSettled(objects, s, i);
    }
  }

  /** A worker that offers an error in a live context can give it up only when its stage has failed. */
  lemma ErrorKept(objects: seq<Kind>, s: State, i: nat)
    requires Inv(objects, s) && i < |objects| && !s.ended && s.work[i].OfferWorkerError?
    ensures StageDone(s, OwnerOf(objects[i])) ==> Failing(s.artifacts.pc) || Failing(s.suites.pc)
  {
    assert WorkerBorn(objects[i], s.work[i], i < s.feed.next, s.artifacts.pc == Forwarding(i));
  }

  lemma BlameOfWorker(objects: seq<Kind>, s: State, i: nat, w: WorkerStep)
    requires Inv(objects, s) && i < |objects| && !s.ended && NextWorker(objects, s, i, w).Some?
    ensures var t := NextWorker(objects, s, i, w).value;
            !t.ended && t.call == s.call && (Blamed(s) || w == WorkerIO(false) ==> Blamed(t))
  {
    var t := NextWorker(objects, s, i, w).value;
    if w == WorkerIO(false) {
      assert t.work[i].OfferWorkerError?;
    } else if Blamed(s) {
      if w == WorkerAbort && s.work[i].OfferWorkerError? {
        ErrorKept(objects, s, i);
      }
      hide Inv;
      if j :| 0 <= j < |s.work| && s.work[j].OfferWorkerError? && j != i {
        assert t.work[j].OfferWorkerError?;
      }
    }
  }

  lemma HeldByStage(objects: seq<Kind>, s: State, name: StageName, a: StageStep)
    requires |s.work| == |objects| && !s.ended && !s.call.pc.Returned? && NextStage(objects, s, name, a).Some?
    ensures var t := NextStage(objects, s, name, a).value;
            if t.ended then Held(s) && t.call.pc == Returned(Failed) else !t.call.pc.Returned? && (Held(s) ==> Held(t))
  {
    hide Quiet;
  }

  lemma HeldByOthers(objects: seq<Kind>, s: State, a: Action)
    requires |s.work| == |objects| && !s.ended && !s.call.pc.Returned?
    requires !a.WorkerAct? && !a.CallerAct? && !a.Timeout? && !a.StageAct? && Next(objects, s, a).Some?
    ensures var t := Next(objects, s, a).value;
            if t.ended then Held(s) && t.call.pc == Returned(Failed)
            else !t.call.pc.Returned? && (Held(s) || !Succeeds(a) ==> Held(t))
  {
    hide EveryoneLeft;
    hide NextWorker;
    hide NextStage;
  }

  lemma WorkersStay(objects: seq<Kind>, s: State, a: Action, j: nat)
    requires Inv(objects, s) && j < |objects| && s.work[j].OfferWorkerError?
    requires !a.WorkerAct? && Next(objects, s, a).Some?
    ensures var t := Next(objects, s, a).value; |t.work| == |objects| && t.work[j].OfferWorkerError?
  {
    assert WorkerBorn(objects[j], s.work[j], j < s.feed.next, s.artifacts.pc == Forwarding(j));
    hide Inv;
    hide NextWorker;
    hide NextStage;
    hide NextStarted;
    hide NextFinished;
    hide NextConsumer;
    hide NextWaiter;
    hide NextCaller;
    if !a.ListerAct? && !a.Forward? {
      SameWork(objects, s, a);
    }
  }

  /** A step of anybody else keeps an error somewhere, or ends the context by returning it. */
  lemma BlameOfOthers(objects: seq<Kind>, s: State, a: Action)
    requires Inv(objects, s) && !s.ended && !s.call.pc.Returned?
    requires !a.WorkerAct? && !a.CallerAct? && !a.Timeout? && Next(objects, s, a).Some?
    ensures var t := Next(objects, s, a).value;
            if t.ended then Blamed(s) && t.call.pc == Returned(Failed)
            else !t.call.pc.Returned? && (Blamed(s) || !Succeeds(a) ==> Blamed(t))
  {
    var t := Next(objects, s, a).value;
    if j :| 0 <= j < |s.work| && s.work[j].OfferWorkerError? {
      WorkersStay(objects, s, a, j);
      assert t.work[j].OfferWorkerError?;
    }
    hide Inv;
    hide Held;
    if a.StageAct? {
      HeldByStage(objects, s, a.name, a.stage);
      assert Next(objects, s, a) == NextStage(objects, s, a.name, a.stage);
    } else {
      HeldByOthers(objects, s, a);
    }
    hide Next;
  }

  // ----- the caller

  lemma CallerLive(objects: seq<Kind>, s: State, a: CallerStep)
    requires Inv(objects, s) && !s.ended && NextCaller(s, a).Some?
    ensures var t := NextCaller(s, a).value;
            match a
            case AddMetadata(ok, _) =>
              if ok then !t.ended && t.call.pc.AwaitDone? && (Blamed(s) ==> Blamed(t))
              else t.call.pc == Returned(NoMetadata)
            case CallerInterrupted => false
            case CallFinished => t.call.pc == Returned(Success) && !Blamed(s)
  {
    if a.CallFinished? {
      NobodyBlamed(objects, s);
    }
    hide Inv;
  }

  lemma MoreActs(acts: seq<Action>, a: Action)
    ensures AllSucceed(acts + [a]) <==> AllSucceed(acts) && Succeeds(a)
    ensures MetadataFailed(acts + [a]) <==> MetadataFailed(acts) || (a.CallerAct? && a.call.AddMetadata? && !a.call.ok)
  {
    hide Succeeds;
    var all := acts + [a];
    assert all[|acts|] == a && forall i :: 0 <= i < |acts| ==> all[i] == acts[i];
    if a.CallerAct? && a.call.AddMetadata? && !a.call.ok {
      assert CallerAct(AddMetadata(false, a.call.verdict)) in all;
    }
    if v :| CallerAct(AddMetadata(false, v)) in acts {
      assert CallerAct(AddMetadata(false, v)) in all;
    }
  }

  lemma AccountedStep(objects: seq<Kind>, acts: seq<Action>, s: State, a: Action)
    requires Inv(objects, s) && Accounted(acts, s) && !a.Timeout? && Next(objects, s, a).Some?
    requires AllSucceed(acts) ==> Unfailed(s)
    ensures Accounted(acts + [a], Next(objects, s, a).value)
  {
    MoreActs(acts, a);
    if s.call.pc.Returned? {
      CallStays(objects, s, a);
      if s.call.pc == Returned(Success) {
        NothingFailsAfter(objects, s, a);
      }
    } else {
      if AllSucceed(acts) {
        UnfailedNotBlamed(s);
      }
      LiveStep(objects, s, a);
    }
    hide Inv;
    hide Next;
    hide Succeeds;
    hide AllSucceed;
    hide Blamed;
    hide Unfailed;
  }

  lemma UnfailedNotBlamed(s: State)
    requires Unfailed(s) && !s.ended
    ensures !Blamed(s)
  {
  }

  /** One step in a live context: it keeps any error, or returns with the outcome that fits. */
  lemma LiveStep(objects: seq<Kind>, s: State, a: Action)
    requires Inv(objects, s) && !s.ended && !s.call.pc.Returned? && !a.Timeout? && Next(objects, s, a).Some?
    ensures var t := Next(objects, s, a).value;
            if a.CallerAct? && a.call.AddMetadata? && !a.call.ok then t.call.pc == Returned(NoMetadata)
            else if !t.ended then !t.call.pc.Returned? && (Blamed(s) || !Succeeds(a) ==> Blamed(t))
            else if a == CallerAct(CallFinished) then t.call.pc == Returned(Success) && !Blamed(s)
            else t.call.pc == Returned(Failed) && Blamed(s)
  {
    match a
    case WorkerAct(i, w) => BlameOfWorker(objects, s, i, w);
    case CallerAct(c) => CallerLive(objects, s, c);
    case StartedAct(_) => BlameOfOthers(objects, s, a);
    case FinishedAct(_) => BlameOfOthers(objects, s, a);
    case ListerAct(_) => BlameOfOthers(objects, s, a);
    case Forward => BlameOfOthers(objects, s, a);
    case StageAct(_, _) => BlameOfOthers(objects, s, a);
    case ConsumerAct(_) => BlameOfOthers(objects, s, a);
    case WaiterAct(_) => BlameOfOthers(objects, s, a);
  }

  lemma {:induction false} AllAccounted(objects: seq<Kind>, acts: seq<Action>)
    requires Run(objects, acts).Some? && forall a :: a in acts ==> !a.Timeout?
    ensures Accounted(acts, Run(objects, acts).value)
    decreases |acts|
  {
    hide Next;
    if acts != [] {
      var before, a := acts[..|acts| - 1], acts[|acts| - 1];
      assert acts == before + [a];
      RunBefore(objects, before, a);
      AllAccounted(objects, before);
      RunKeeps(objects, before);
      var s := Run(objects, before).value;
      if AllSucceed(before) {
        UnfailedRun(objects, Init(objects), before);
      }
      assert a in acts;
      AccountedStep(objects, before, s, a);
    }
  }

  /** A run without a timeout that cannot go on has returned success if and only if no call failed, and
    otherwise says whether it was `AddMetadata` that did. */
  lemma OutcomeExactly(objects: seq<Kind>, acts: seq<Action>)
    requires Run(objects, acts).Some? && (forall a :: a in acts ==> !a.Timeout?)
    requires Stuck(objects, Run(objects, acts).value)
    ensures var pc := Run(objects, acts).value.call.pc;
            && (pc == Returned(Success) <==> AllSucceed(acts))
            && (pc == Returned(NoMetadata) <==> exists v :: CallerAct(AddMetadata(false, v)) in acts)
            && (pc == Returned(Success) || pc == Returned(NoMetadata) || pc == Returned(Failed))
  {
    UntimedRunsReturn(objects, acts);
    AllAccounted(objects, acts);
    if v :| CallerAct(AddMetadata(false, v)) in acts {
      var i :| 0 <= i < |acts| && acts[i] == CallerAct(AddMetadata(false, v));
      assert !Succeeds(acts[i]);
    }
  }
}
