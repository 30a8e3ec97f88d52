/** Which build logs are downloaded, and that no failure goes unseen, over every run. */
module BuildLogs {
  import opened BuildProtocol
  import opened BuildInvariants
  import opened BuildRuns

  // ----- what was done in a run

  predicate LogRead(acts: seq<Action>, i: nat) {
    WorkerAct(i, WorkerIO(true)) in acts
  }

  /** `AddMetadata` was called, and only with this outcome. */
  ghost predicate Told(acts: seq<Action>, ok: bool, verdict: Verdict) {
    && CallerAct(AddMetadata(ok, verdict)) in acts
    && forall o, v :: CallerAct(AddMetadata(o, v)) in acts ==> o == ok && v == verdict
  }

  ghost predicate Untold(acts: seq<Action>) {
    forall ok, v :: CallerAct(AddMetadata(ok, v)) !in acts
  }

  predicate Past(w: Worker) {
    w.WorkerLeaving? || w.Gone?
  }

  /** What a log worker has done, given what the metadata say: it has read its log when it is past that and the
    log is wanted, and never otherwise. */
  predicate LogDone(read: bool, closed: bool, verdict: Verdict, w: Worker) {
    && (Past(w) ==> closed && (read <==> !LogUnwanted(verdict)))
    && (!Past(w) ==> !read)
    && (w.Working? || w.OfferWorkerError? ==> closed && !LogUnwanted(verdict))
  }

  predicate LogAt(objects: seq<Kind>, acts: seq<Action>, s: State, i: nat)
    requires |s.work| == |objects|
  {
    i < |objects| && objects[i].Log? ==> LogDone(LogRead(acts, i), s.call.metadataClosed, s.call.verdict, s.work[i])
  }

  ghost predicate VerdictKnown(acts: seq<Action>, call: Call) {
    if call.metadataClosed then Told(acts, call.metadataOk, call.verdict) else Untold(acts)
  }

  lemma VerdictStep(objects: seq<Kind>, acts: seq<Action>, s: State, a: Action)
    requires Inv(objects, s) && Next(objects, s, a).Some? && VerdictKnown(acts, s.call)
    ensures VerdictKnown(acts + [a], Next(objects, s, a).value.call)
  {
    var t := Next(objects, s, a).value;
    if a.CallerAct? && a.call.AddMetadata? {
      assert s.call.pc.Metadata?;
      hide Inv;
    } else {
      SameVerdict(objects, s, a);
    }
  }

  lemma SameVerdict(objects: seq<Kind>, s: State, a: Action)
    requires |s.work| == |objects| && Next(objects, s, a).Some? && !(a.CallerAct? && a.call.AddMetadata?)
    ensures var t := Next(objects, s, a).value;
            && t.call.metadataClosed == s.call.metadataClosed && t.call.metadataOk == s.call.metadataOk
            && t.call.verdict == s.call.verdict
  {
    hide EveryoneLeft;
    hide NextLister;
    hide NextForward;
    hide NextStage;
    hide NextWorker;
    hide NextConsumer;
    if !NearCaller(a) {
      OthersOnlyFail(objects, s, a);
    }
  }

  /** While the context has not ended and the stage has not failed, a cancelled stage has no log worker left. */
  lemma NotCancelled(objects: seq<Kind>, s: State, i: nat)
    requires Inv(objects, s) && i < |objects| && objects[i].Log?
    requires !s.ended && !Failing(s.artifacts.pc) && !Settled(s.work[i])
    ensures !StageDone(s, Artifacts)
  {
  }

  /** A stage that has failed stays so until it tells the caller, which ends the context. */
  lemma FailingStays(objects: seq<Kind>, s: State, a: Action)
    requires |s.work| == |objects| && Next(objects, s, a).Some? && !s.ended && Failing(s.artifacts.pc)
    ensures var t := Next(objects, s, a).value; t.ended || Failing(t.artifacts.pc)
  {
    hide Quiet;
    hide EveryoneLeft;
  }

  lemma OwnStep(objects: seq<Kind>, acts: seq<Action>, s: State, i: nat, w: WorkerStep)
    requires Inv(objects, s) && i < |objects| && objects[i].Log? && NextWorker(objects, s, i, w).Some?
    requires !s.ended && !Failing(s.artifacts.pc) && LogAt(objects, acts, s, i)
    ensures var t := NextWorker(objects, s, i, w).value;
            |t.work| == |objects|
            && (Failing(t.artifacts.pc) || LogAt(objects, acts + [WorkerAct(i, w)], t, i))
  {
    if !Settled(s.work[i]) {
      NotCancelled(objects, s, i);
    }
    hide Inv;
    assert LogRead(acts + [WorkerAct(i, w)], i) <==> LogRead(acts, i) || w == WorkerIO(true);
    hide LogRead;
  }

  lemma OtherWorker(objects: seq<Kind>, s: State, a: Action, i: nat)
    requires Inv(objects, s) && i < |objects| && objects[i].Log? && Next(objects, s, a).Some?
    requires !(a.WorkerAct? && a.obj == i)
    ensures var t := Next(objects, s, a).value;
            |t.work| == |objects|
            && (t.work[i] == s.work[i] || (s.work[i].Unborn? && t.work[i].AwaitMetadata?))
  {
    BornOnce(objects, s, i);
    hide Inv;
    hide NextStage;
    hide NextStarted;
    hide NextFinished;
    hide NextConsumer;
    hide NextWaiter;
    hide NextCaller;
    if !a.WorkerAct? && !a.ListerAct? && !a.Forward? {
      SameWork(objects, s, a);
    }
  }

  lemma BornOnce(objects: seq<Kind>, s: State, i: nat)
    requires Inv(objects, s) && i < |objects|
    ensures s.feed.next <= i ==> s.work[i].Unborn?
    ensures s.artifacts.pc.Forwarding? ==> s.artifacts.pc.obj < |objects| && !objects[s.artifacts.pc.obj].Log?
  {
    assert WorkerBorn(objects[i], s.work[i], i < s.feed.next, s.artifacts.pc == Forwarding(i));
  }

  lemma OtherStep(objects: seq<Kind>, acts: seq<Action>, s: State, a: Action, i: nat)
    requires Inv(objects, s) && i < |objects| && objects[i].Log? && Next(objects, s, a).Some?
    requires !(a.WorkerAct? && a.obj == i) && LogAt(objects, acts, s, i)
    ensures |Next(objects, s, a).value.work| == |objects|
    ensures LogAt(objects, acts + [a], Next(objects, s, a).value, i)
  {
    OtherWorker(objects, s, a, i);
    assert LogRead(acts + [a], i) <==> LogRead(acts, i);
    if a.CallerAct? && a.call.AddMetadata? {
      assert !s.call.metadataClosed;
    } else {
      SameVerdict(objects, s, a);
    }
    hide Inv;
    hide LogRead;
    hide Next;
  }

  /** The log invariant, for as long as the context has not ended and the artifact stage has not failed. */
  lemma {:induction false} LogKept(objects: seq<Kind>, acts: seq<Action>, i: nat)
    requires Run(objects, acts).Some? && i < |objects| && objects[i].Log?
    ensures VerdictKnown(acts, Run(objects, acts).value.call)
    ensures var s := Run(objects, acts).value; s.ended || Failing(s.artifacts.pc) || LogAt(objects, acts, s, i)
    decreases |acts|
  {
    if acts != [] {
      var before, a := acts[..|acts| - 1], acts[|acts| - 1];
      assert acts == before + [a];
      RunBefore(objects, before, a);
      LogKept(objects, before, i);
      RunKeeps(objects, before);
      var s := Run(objects, before).value;
      VerdictStep(objects, before, s, a);
      EndedStays(objects, s, a);
      if !s.ended && Failing(s.artifacts.pc) {
        FailingStays(objects, s, a);
      }
      hide Inv;
      hide Next;
      hide Failing;
      hide LogAt;
      if !s.ended && !Failing(s.artifacts.pc) {
        if a.WorkerAct? && a.obj == i {
          StepOfWorker(objects, s, i, a.work);
          OwnStep(objects, before, s, i, a.work);
        } else {
          OtherStep(objects, before, s, a, i);
        }
      }
    }
  }

  lemma StepOfWorker(objects: seq<Kind>, s: State, i: nat, w: WorkerStep)
    requires |s.work| == |objects| && i < |objects|
    ensures Next(objects, s, WorkerAct(i, w)) == NextWorker(objects, s, i, w)
  {
  }

  /** When `Finished` is about to run and the context has not ended, a build log was downloaded if and only if
    the metadata said that the build has finished and did not succeed. */
  lemma LogsReadExactly(objects: seq<Kind>, acts: seq<Action>, i: nat)
    requires Run(objects, acts).Some? && !Run(objects, acts).value.ended
    requires Next(objects, Run(objects, acts).value, CallerAct(CallFinished)).Some?
    requires i < |objects| && objects[i].Log?
    ensures exists v :: CallerAct(AddMetadata(true, v)) in acts
    ensures forall ok, v :: CallerAct(AddMetadata(ok, v)) in acts ==>
              ok && (WorkerAct(i, WorkerIO(true)) in acts <==> !v.succeeded && v.finished != 0)
  {
    var s := Run(objects, acts).value;
    LogKept(objects, acts, i);
    FinishedSeesEverything(objects, acts);
    assert s.work[i].Gone? && s.artifacts.pc.StageExited? && s.call.metadataClosed by {
      RunKeeps(objects, acts);
    }
    assert Told(acts, true, s.call.verdict);
  }

  // ----- junit files

  /** What was handed over, or is about to be, was read. */
  predicate ReadFirst(objects: seq<Kind>, acts: seq<Action>, s: State, i: nat)
    requires |s.work| == |objects|
  {
    (i in s.sink.handed || s.sink.pc == Adding(i) || (i < |objects| && s.work[i].OfferSuites?)) ==>
      i < |objects| && objects[i].Junit? && LogRead(acts, i)
  }

  lemma ReadFirstStep(objects: seq<Kind>, acts: seq<Action>, s: State, a: Action, i: nat)
    requires |s.work| == |objects| && Next(objects, s, a).Some? && ReadFirst(objects, acts, s, i)
    ensures |Next(objects, s, a).value.work| == |objects|
    ensures ReadFirst(objects, acts + [a], Next(objects, s, a).value, i)
  {
    assert LogRead(acts + [a], i) <==> LogRead(acts, i) || a == WorkerAct(i, WorkerIO(true));
    hide LogRead;
    hide Quiet;
    hide EveryoneLeft;
  }

  /** In every run, with or without a timeout, only junit files that were read are handed to `AddSuites`. */
  lemma {:induction false} HandedWasRead(objects: seq<Kind>, acts: seq<Action>, i: nat)
    requires Run(objects, acts).Some?
    ensures ReadFirst(objects, acts, Run(objects, acts).value, i)
    decreases |acts|
  {
    if acts != [] {
      var before, a := acts[..|acts| - 1], acts[|acts| - 1];
      assert acts == before + [a];
      RunBefore(objects, before, a);
      HandedWasRead(objects, before, i);
      ReadFirstStep(objects, before, Run(objects, before).value, a, i);
    }
  }
}
