// What every interleaving of the banner protocol keeps.
module BannerSafety {
  import opened Wrappers
  import opened BannerJobs
  import opened BannerProtocol

  // ---------------------------------------------------------------- messages

  /** The messages that a holder may lose: those delivered while held, and those given up. */
  function Astray(s: System): set<nat> {
    s.overlapped + s.queue.deadLetters
  }

  /** Ids are fresh, only a message delivered twice at once has two holders, and the message of a
      holder stays undeleted unless it was, or was given up. */
  ghost predicate Messages(s: System) {
    && (forall m :: m in s.queue.messages || m in s.queue.receives ==> m < s.queue.next)
    && (forall w :: w in s.workers ==> w < s.nextWorker && s.workers[w].message < s.queue.next)
    && (forall v, w :: v in s.workers && w in s.workers && v != w && s.workers[v].message == s.workers[w].message ==>
          s.workers[w].message in s.overlapped)
    && (forall w :: w in s.workers && s.workers[w].message !in Astray(s) ==> s.workers[w].message in s.queue.messages)
    && (s.claim.Some? ==> s.claim.value.worker < s.nextWorker)
  }

  /** Queue and worker pool are as before, up to one worker's own progress or disappearance. */
  ghost predicate SameQueue(s: System, t: System) {
    t.queue == s.queue && t.nextWorker == s.nextWorker && t.overlapped == s.overlapped
  }

  ghost predicate WorkerMoved(s: System, t: System, w: nat) {
    w in s.workers && w in t.workers && t.workers == s.workers[w := t.workers[w]]
    && t.workers[w].message == s.workers[w].message
  }

  ghost predicate WorkerGone(s: System, t: System, w: nat) {
    w in s.workers && t.workers == s.workers - {w}
  }

  /** What a step leaves alone, by whose step it is. */
  ghost predicate Shaped(s: System, a: Action, t: System) {
    && (IsWorkerStep(a) ==>
          SameQueue(s, t) && (WorkerMoved(s, t, a.w) || WorkerGone(s, t, a.w))
          && t.requesters == s.requesters && t.clock == s.clock && t.abandoned == s.abandoned)
    && (!IsWorkerStep(a) && !a.Send? && !a.Deliver? && !a.Delete? && !a.GiveUp? ==> SameQueue(s, t) && t.workers == s.workers)
    && (a.GiveUp? ==> t.workers == s.workers && t.overlapped == s.overlapped)
    && (!IsRequesterStep(a) ==> t.requesters == s.requesters && t.abandoned == s.abandoned)
    && (t.claim == s.claim || (a.TryClaim? && a.w in t.workers && t.claim == Some(Claim(a.w, s.workers[a.w].message))))
  }

  lemma {:induction false} StepShape(s: System, a: Action)
    requires Enabled(s, a)
    ensures Shaped(s, a, Step(s, a))
  {
    hide Step, Enabled, Shaped;
    if IsEntry(a) {
      EntryShape(s, a);
    } else if IsLocal(a) {
      LocalShape(s, a);
    } else if IsFinish(a) {
      FinishShape(s, a);
    } else if IsRequesterStep(a) {
      RequesterStepShape(s, a);
    } else {
      OtherShape(s, a);
    }
  }

  lemma {:induction false} EntryShape(s: System, a: Action)
    requires Enabled(s, a) && IsEntry(a)
    ensures Shaped(s, a, Step(s, a))
  {
    hide LocalStep, FinishStep, RequesterStep, OutsideStep;
    hide Matches, CompareAndSet;
  }

  lemma {:induction false} LocalShape(s: System, a: Action)
    requires Enabled(s, a) && IsLocal(a)
    ensures Shaped(s, a, Step(s, a))
  {
    hide EntryStep, FinishStep, RequesterStep, OutsideStep;
  }

  lemma {:induction false} FinishShape(s: System, a: Action)
    requires Enabled(s, a) && IsFinish(a)
    ensures Shaped(s, a, Step(s, a))
  {
    hide EntryStep, LocalStep, RequesterStep, OutsideStep;
    if a.Attach? { AttachShape(s, a.w); } else { EndShape(s, a); }
    hide Step;
  }

  lemma {:induction false} AttachShape(s: System, w: nat)
    requires Enabled(s, Attach(w))
    ensures Shaped(s, Attach(w), Step(s, Attach(w)))
  {
    hide EntryStep, LocalStep, RequesterStep, OutsideStep;
    hide Without;
  }

  lemma {:induction false} EndShape(s: System, a: Action)
    requires Enabled(s, a) && (a.Succeed? || a.FinishFailed?)
    ensures Shaped(s, a, Step(s, a))
  {
    hide EntryStep, LocalStep, RequesterStep, OutsideStep;
    hide Matches, CompareAndSet;
  }

  lemma {:induction false} RequesterStepShape(s: System, a: Action)
    requires Enabled(s, a) && IsRequesterStep(a)
    ensures Shaped(s, a, Step(s, a))
  {
    hide EntryStep, LocalStep, FinishStep, OutsideStep;
    hide Matches, CompareAndSet;
  }

  lemma {:induction false} OtherShape(s: System, a: Action)
    requires Enabled(s, a) && !IsWorkerStep(a) && !IsRequesterStep(a)
    ensures Shaped(s, a, Step(s, a))
  {
    hide EntryStep, LocalStep, FinishStep, RequesterStep;
    hide HeldBySomeone;
  }

  /** A step moves nobody but the worker whose step it is and the one it brings in. */
  lemma {:induction false} OthersSame(s: System, a: Action, w: nat)
    requires Enabled(s, a) && w in Step(s, a).workers && !(IsWorkerStep(a) && a.w == w) && !(a.Deliver? && w == s.nextWorker)
    ensures w in s.workers && Step(s, a).workers[w] == s.workers[w]
  {
    hide Step, Enabled;
    if IsWorkerStep(a) {
      StepShape(s, a);
    } else if IsRequesterStep(a) {
      RequesterLeavesMessages(s, a);
    } else {
      OutsideLeavesWorkers(s, a, w);
    }
  }

  lemma {:induction false} OutsideLeavesWorkers(s: System, a: Action, w: nat)
    requires Enabled(s, a) && !IsWorkerStep(a) && !IsRequesterStep(a)
    requires w in Step(s, a).workers && !(a.Deliver? && w == s.nextWorker)
    ensures w in s.workers && Step(s, a).workers[w] == s.workers[w]
  {
    hide EntryStep, LocalStep, FinishStep, RequesterStep, HeldBySomeone, GivenUp;
  }

  lemma {:induction false} MessagesKept(s: System, a: Action)
    requires Messages(s) && Enabled(s, a)
    ensures Messages(Step(s, a))
  {
    hide Step, Enabled, Messages;
    if IsWorkerStep(a) {
      StepShape(s, a);
      ClaimerIsKnown(s, a);
      MessagesKeptByWorker(s, Step(s, a), a.w);
    } else if a.Send? || a.Deliver? || a.Delete? || a.GiveUp? {
      MessagesKeptByQueue(s, a);
    } else {
      StepShape(s, a);
      MessagesCarryOver(s, Step(s, a));
    }
  }

  lemma {:induction false} ClaimerIsKnown(s: System, a: Action)
    requires Messages(s) && Enabled(s, a) && IsWorkerStep(a)
    ensures Step(s, a).claim.Some? ==> Step(s, a).claim.value.worker < Step(s, a).nextWorker
  {
    StepShape(s, a);
    hide Step;
  }

  lemma {:induction false} MessagesCarryOver(s: System, t: System)
    requires Messages(s) && SameQueue(s, t) && t.workers == s.workers && t.claim == s.claim
    ensures Messages(t)
  {
  }

  lemma {:induction false} MessagesKeptByQueue(s: System, a: Action)
    requires Messages(s) && Enabled(s, a) && (a.Send? || a.Deliver? || a.Delete? || a.GiveUp?)
    ensures Messages(Step(s, a))
  {
    hide EntryStep, LocalStep, FinishStep, HeldBySomeone, Messages, DeliverStep, DropWorker, GivenUp;
    if a.Deliver? {
      DeliverKeepsMessages(s, a.message);
    } else if a.Delete? {
      DeleteKeepsMessages(s, a.w);
    } else if a.GiveUp? {
      GiveUpKeepsMessages(s, a.message);
    } else {
      SendKeepsMessages(s, a.r, a.enqueued, a.reported);
    }
  }

  lemma {:induction false} SendKeepsMessages(s: System, r: nat, enqueued: bool, reported: bool)
    requires Messages(s)
    ensures Messages(SendStep(s, r, enqueued, reported))
  {
  }

  lemma {:induction false} GiveUpKeepsMessages(s: System, m: nat)
    requires Messages(s)
    ensures Messages(s.(queue := GivenUp(s.queue, m)))
  {
  }

  lemma {:induction false} DeleteKeepsMessages(s: System, w: nat)
    requires Messages(s) && Enabled(s, Delete(w))
    ensures Messages(Step(s, Delete(w)))
  {
    hide EntryStep, LocalStep, FinishStep, RequesterStep;
    var t := Step(s, Delete(w));
    forall v | v in t.workers && t.workers[v].message !in Astray(t) ensures t.workers[v].message in t.queue.messages {
      assert v in s.workers && v != w;
    }
  }

  lemma {:induction false} MessagesKeptByWorker(s: System, t: System, w: nat)
    requires Messages(s) && SameQueue(s, t) && (WorkerMoved(s, t, w) || WorkerGone(s, t, w))
    requires t.claim.Some? ==> t.claim.value.worker < t.nextWorker
    ensures Messages(t)
  {
    forall v | v in t.workers
      ensures v in s.workers && t.workers[v].message == s.workers[v].message
    {
    }
  }

  lemma {:induction false} DeliverKeepsMessages(s: System, m: nat)
    requires Messages(s) && m in s.queue.messages
    ensures Messages(DeliverStep(s, m))
  {
    var t := DeliverStep(s, m);
    forall v, w | v in t.workers && w in t.workers && v != w && t.workers[v].message == t.workers[w].message
      ensures t.workers[w].message in t.overlapped
    {
      if v == s.nextWorker { assert w in s.workers && s.workers[w].message == m; }
      if w == s.nextWorker { assert v in s.workers && s.workers[v].message == m; }
    }
  }

  // ---------------------------------------------------------------- nobody is stranded

  /** No holder of the message can delete it without first winning a claim or reading a finished job. */
  ghost predicate Live(s: System, m: nat) {
    m in s.queue.messages && forall w :: w in s.workers && s.workers[w].message == m ==> s.workers[w].Received? || s.workers[w].Loaded?
  }

  predicate AboutToSend(s: System, r: nat) {
    r in s.requesters && (s.requesters[r].Sending? || s.requesters[r].Marking?)
  }

  /** A queued job has a live message, or a requester about to send one or to mark the job failed. */
  ghost predicate QueuedIsServed(s: System) {
    s.job.Some? && s.job.value.state == Queued ==>
      s.abandoned || s.queue.deadLetters != {} || (exists r :: AboutToSend(s, r)) || (exists m :: Live(s, m))
  }

  /** A rendering job was claimed under a message that is still there, held by nobody but workers that
      will not delete it: ones yet to read the job, and the claimer itself. */
  ghost predicate RenderingIsServed(s: System) {
    s.job.Some? && s.job.value.state == Rendering ==>
      && s.claim.Some? && s.job.value.leaseUntil.Some?
      && (s.claim.value.worker in s.workers ==>
            var holder := s.workers[s.claim.value.worker];
            holder.message == s.claim.value.message && HoldsLease(holder) && Some(holder.lease) == s.job.value.leaseUntil)
      && (s.claim.value.message !in Astray(s) ==>
            && s.claim.value.message in s.queue.messages
            && forall w :: w in s.workers && s.workers[w].message == s.claim.value.message && w != s.claim.value.worker ==>
                 s.workers[w].Received? || s.workers[w].Loaded?)
  }

  lemma {:induction false} QueuedServiceKept(s: System, a: Action)
    requires Messages(s) && QueuedIsServed(s) && Enabled(s, a)
    ensures QueuedIsServed(Step(s, a))
  {
    hide Step, Enabled, Messages, Live, AboutToSend;
    var t := Step(s, a);
    if t.job.Some? && t.job.value.state == Queued && !t.abandoned && t.queue.deadLetters == {} {
      if s.job.Some? && s.job.value.state == Queued {
        TroubleLasts(s, a);
        if r :| AboutToSend(s, r) {
          SenderStays(s, a, r);
        } else {
          var m :| Live(s, m);
          LiveStays(s, a, m);
        }
      } else {
        QueuerSends(s, a);
      }
    }
  }

  lemma {:induction false} TroubleLasts(s: System, a: Action)
    requires Enabled(s, a)
    ensures s.abandoned ==> Step(s, a).abandoned
    ensures s.queue.deadLetters <= Step(s, a).queue.deadLetters
  {
    StepShape(s, a);
    if IsRequesterStep(a) { RequesterTrouble(s, a); } else if !IsWorkerStep(a) { QueueTrouble(s, a); }
    hide Step;
  }

  lemma {:induction false} RequesterTrouble(s: System, a: Action)
    requires Enabled(s, a) && IsRequesterStep(a)
    ensures s.abandoned ==> Step(s, a).abandoned
    ensures Step(s, a).queue.deadLetters == s.queue.deadLetters
  {
    hide EntryStep, LocalStep, FinishStep, OutsideStep;
    hide Matches, CompareAndSet;
  }

  lemma {:induction false} QueueTrouble(s: System, a: Action)
    requires Enabled(s, a) && !IsWorkerStep(a) && !IsRequesterStep(a)
    ensures s.queue.deadLetters <= Step(s, a).queue.deadLetters
  {
    hide EntryStep, LocalStep, FinishStep, RequesterStep;
    hide HeldBySomeone;
  }

  /** Only a requester that is about to send makes a job queued. */
  lemma {:induction false} QueuerSends(s: System, a: Action)
    requires Enabled(s, a) && !(s.job.Some? && s.job.value.state == Queued)
    requires Step(s, a).job.Some? && Step(s, a).job.value.state == Queued
    ensures exists r :: AboutToSend(Step(s, a), r)
  {
    if IsWorkerStep(a) {
      WorkerEffect(s, a);
    } else if IsRequesterStep(a) {
      RequesterQueues(s, a);
    } else {
      QueueJob(s, a);
    }

  }

  lemma {:induction false} RequesterQueues(s: System, a: Action)
    requires Enabled(s, a) && IsRequesterStep(a) && !(s.job.Some? && s.job.value.state == Queued)
    requires Step(s, a).job.Some? && Step(s, a).job.value.state == Queued
    ensures AboutToSend(Step(s, a), a.r)
  {
    hide EntryStep, LocalStep, FinishStep, OutsideStep, ResetStep, Sent;
    if a.Reset? { ResetSends(s, a.r, s.requesters[a.r].seen); }
  }

  lemma {:induction false} ResetSends(s: System, r: nat, seen: Job)
    ensures ResetStep(s, r, seen).job == s.job || AboutToSend(ResetStep(s, r, seen), r)
  {
  }

  lemma {:induction false} QueueJob(s: System, a: Action)
    requires Enabled(s, a) && !IsWorkerStep(a) && !IsRequesterStep(a)
    ensures Step(s, a).job == s.job
  {
    hide EntryStep, LocalStep, FinishStep, RequesterStep;
    hide HeldBySomeone;
  }

  lemma {:induction false} SenderStays(s: System, a: Action, r: nat)
    requires Messages(s) && Enabled(s, a) && AboutToSend(s, r)
    requires var t := Step(s, a); t.job.Some? && t.job.value.state == Queued && !t.abandoned && t.queue.deadLetters == {}
    ensures AboutToSend(Step(s, a), r) || exists m :: Live(Step(s, a), m)
  {
    var t := Step(s, a);
    if a.Send? && a.r == r {
      if a.enqueued {
        assert t.workers == s.workers;
        assert Live(t, s.queue.next);
      }
    } else {
      RequesterShape(s, a, r);
    }
  }

  /** Nobody but the requester itself changes where it stands; it leaves only by sending or marking. */
  lemma {:induction false} RequesterShape(s: System, a: Action, r: nat)
    requires Enabled(s, a) && AboutToSend(s, r)
    ensures !(IsRequesterStep(a) && a.r == r) ==> AboutToSend(Step(s, a), r)
    ensures a.Mark? && a.r == r ==> Step(s, a).job.None? || Step(s, a).job.value.state != Queued
    ensures a.Abandon? && a.r == r ==> Step(s, a).abandoned
  {
    if IsRequesterStep(a) {
      OwnRequesterStep(s, a, r);
    } else {
      StepShape(s, a);
      hide Step;
    }
  }

  lemma {:induction false} OwnRequesterStep(s: System, a: Action, r: nat)
    requires Enabled(s, a) && AboutToSend(s, r) && IsRequesterStep(a)
    ensures a.r != r ==> AboutToSend(Step(s, a), r)
    ensures a.Mark? && a.r == r ==> Step(s, a).job.None? || Step(s, a).job.value.state != Queued
    ensures a.Abandon? && a.r == r ==> Step(s, a).abandoned
  {
    hide EntryStep, LocalStep, FinishStep, OutsideStep;
  }

  lemma {:induction false} LiveStays(s: System, a: Action, m: nat)
    requires Messages(s) && Enabled(s, a) && Live(s, m)
    requires s.job.Some? && s.job.value.state == Queued
    requires var t := Step(s, a); t.job.Some? && t.job.value.state == Queued && t.queue.deadLetters == {}
    ensures Live(Step(s, a), m)
  {
    hide Step, Enabled, Messages;
    if IsWorkerStep(a) {
      LiveAmongWorkers(s, a, m);
    } else if IsRequesterStep(a) {
      RequesterLeavesMessages(s, a);
    } else {
      LiveInQueue(s, a, m);
    }
  }

  /** While the job stays queued nobody claims it, so no worker comes closer to deleting its message. */
  lemma {:induction false} LiveAmongWorkers(s: System, a: Action, m: nat)
    requires Enabled(s, a) && IsWorkerStep(a) && Live(s, m) && s.job.Some? && s.job.value.state == Queued
    requires Step(s, a).job.Some? && Step(s, a).job.value.state == Queued
    ensures Live(Step(s, a), m)
  {
    StepShape(s, a);
    if a.w in Step(s, a).workers { QueuedWorker(s, a); }
    hide Step, Enabled;
    var t := Step(s, a);
    forall w | w in t.workers && t.workers[w].message == m ensures t.workers[w].Received? || t.workers[w].Loaded? {
      assert w in s.workers && s.workers[w].message == m;
    }
  }

  lemma {:induction false} QueuedWorker(s: System, a: Action)
    requires Enabled(s, a) && IsWorkerStep(a) && s.job.Some? && s.job.value.state == Queued
    requires Step(s, a).job.Some? && Step(s, a).job.value.state == Queued && a.w in Step(s, a).workers
    ensures var before, after := s.workers[a.w], Step(s, a).workers[a.w];
            before.Received? || before.Loaded? ==> after.Received? || after.Loaded?
  {
    hide Step;
    if a.Load? {
      QueuedLoad(s, a.w);
    } else if a.TryClaim? {
      ClaimIsWon(s, a.w, a.checkedAt, a.leasedAt);
    } else if a.Crash? {
      CrashDrops(s, a.w);
    }
  }

  lemma {:induction false} CrashDrops(s: System, w: nat)
    requires Enabled(s, Crash(w))
    ensures w !in Step(s, Crash(w)).workers
  {
    hide EntryStep, FinishStep, RequesterStep, OutsideStep;
  }

  lemma {:induction false} QueuedLoad(s: System, w: nat)
    requires Enabled(s, Load(w)) && s.job.Some? && s.job.value.state == Queued
    ensures w in Step(s, Load(w)).workers && Step(s, Load(w)).workers[w].Loaded?
  {
    hide LocalStep, FinishStep, RequesterStep, OutsideStep;
  }

  lemma {:induction false} RequesterLeavesMessages(s: System, a: Action)
    requires Enabled(s, a) && IsRequesterStep(a)
    ensures s.queue.messages <= Step(s, a).queue.messages && Step(s, a).workers == s.workers
  {
    hide EntryStep, LocalStep, FinishStep, OutsideStep, RequesterStep, SendStep;
    if a.Send? {
      SendLeavesMessages(s, a.r, a.enqueued, a.reported);
    } else {
      StepShape(s, a);
    }
  }

  lemma {:induction false} SendLeavesMessages(s: System, r: nat, enqueued: bool, reported: bool)
    requires Enabled(s, Send(r, enqueued, reported))
    ensures var t := Step(s, Send(r, enqueued, reported)); s.queue.messages <= t.queue.messages && t.workers == s.workers
  {
    hide EntryStep, LocalStep, FinishStep, OutsideStep;
  }

  lemma {:induction false} LiveInQueue(s: System, a: Action, m: nat)
    requires Messages(s) && Enabled(s, a) && !IsWorkerStep(a) && !IsRequesterStep(a) && Live(s, m)
    ensures Step(s, a).queue.deadLetters == {} ==> Live(Step(s, a), m)
  {
    hide EntryStep, LocalStep, FinishStep, RequesterStep;
    hide HeldBySomeone, Messages;
    if a.GiveUp? { assert a.message in Step(s, a).queue.deadLetters; }
  }

  lemma {:induction false} RenderingServiceKept(s: System, a: Action)
    requires Messages(s) && RenderingIsServed(s) && Enabled(s, a)
    ensures RenderingIsServed(Step(s, a))
  {
    var t := Step(s, a);
    if t.job.Some? && t.job.value.state == Rendering {
      if a.TryClaim? && a.w in t.workers {
        NewClaimIsServed(s, a.w, a.checkedAt, a.leasedAt);
      } else if IsWorkerStep(a) {
        WorkerKeepsService(s, a);
      } else {
        OthersKeepService(s, a);
      }
    }
  }

  /** A worker that is still there after trying has won the claim. */
  lemma {:induction false} ClaimIsWon(s: System, w: nat, checkedAt: int, leasedAt: int)
    requires Enabled(s, TryClaim(w, checkedAt, leasedAt)) && w in Step(s, TryClaim(w, checkedAt, leasedAt)).workers
    ensures w in s.workers && s.workers[w].Loaded? && Matches(s.job, s.workers[w].seen)
    ensures Step(s, TryClaim(w, checkedAt, leasedAt)) == WonClaim(s, w, s.workers[w].message, s.workers[w].seen, leasedAt)
  {
    hide LocalStep, FinishStep, RequesterStep, OutsideStep;
    hide Matches, WonClaim;
  }

  lemma {:induction false} NewClaimIsServed(s: System, w: nat, checkedAt: int, leasedAt: int)
    requires Messages(s) && Enabled(s, TryClaim(w, checkedAt, leasedAt))
    requires w in Step(s, TryClaim(w, checkedAt, leasedAt)).workers
    ensures RenderingIsServed(Step(s, TryClaim(w, checkedAt, leasedAt)))
  {
    hide Step, Enabled;
    ClaimIsWon(s, w, checkedAt, leasedAt);
  }

  /** While the job stays rendering under the same lease, its holder goes on holding that lease and a
      worker without one does not get to delete its message. */
  ghost predicate Progressed(s: System, a: Action, t: System)
    requires IsWorkerStep(a) && a.w in s.workers && s.job.Some?
  {
    t.job == s.job
    && (a.w in t.workers ==>
          var before, after := s.workers[a.w], t.workers[a.w];
          (HoldsLease(before) && Some(before.lease) == s.job.value.leaseUntil ==> HoldsLease(after) && after.lease == before.lease)
          && (before.Received? || before.Loaded? ==> after.Received? || after.Loaded?))
  }

  lemma {:induction false} WorkerProgress(s: System, a: Action)
    requires Enabled(s, a) && IsWorkerStep(a) && !(a.TryClaim? && a.w in Step(s, a).workers)
    requires Step(s, a).job.Some? && Step(s, a).job.value.state == Rendering
    ensures s.job.Some? && Progressed(s, a, Step(s, a))
  {
    if IsEntry(a) {
      EntryProgress(s, a);
    } else if IsLocal(a) {
      LocalProgress(s, a);
    } else {
      FinishProgress(s, a);
    }
    hide Step;
  }

  lemma {:induction false} EntryProgress(s: System, a: Action)
    requires Enabled(s, a) && IsEntry(a) && !(a.TryClaim? && a.w in Step(s, a).workers)
    requires Step(s, a).job.Some? && Step(s, a).job.value.state == Rendering
    ensures s.job.Some? && Progressed(s, a, Step(s, a))
  {
    hide LocalStep, FinishStep, RequesterStep, OutsideStep;
    if a.TryClaim? { assert Step(s, a) == DropWorker(s, a.w); }
  }

  lemma {:induction false} LocalProgress(s: System, a: Action)
    requires Enabled(s, a) && IsLocal(a) && Step(s, a).job.Some?
    ensures s.job.Some? && Progressed(s, a, Step(s, a))
  {
    hide EntryStep, FinishStep, RequesterStep, OutsideStep;
  }

  lemma {:induction false} FinishProgress(s: System, a: Action)
    requires Enabled(s, a) && IsFinish(a) && Step(s, a).job.Some? && Step(s, a).job.value.state == Rendering
    ensures s.job.Some? && Progressed(s, a, Step(s, a))
  {
    hide Step, Enabled;
    if a.Attach? { AttachProgress(s, a.w); } else { EndProgress(s, a); }
  }

  /** Whoever ends a job leaves it not rendering, so one that is still rendering was not ended. */
  lemma {:induction false} EndProgress(s: System, a: Action)
    requires Enabled(s, a) && (a.Succeed? || a.FinishFailed?) && Step(s, a).job.Some? && Step(s, a).job.value.state == Rendering
    ensures s.job.Some? && Progressed(s, a, Step(s, a))
  {
    hide EntryStep, LocalStep, RequesterStep, OutsideStep;
    assert !Matches(s.job, Seen(s.workers[a.w].lease));
  }

  lemma {:induction false} AttachProgress(s: System, w: nat)
    requires Enabled(s, Attach(w)) && Step(s, Attach(w)).job.Some?
    ensures s.job.Some? && Progressed(s, Attach(w), Step(s, Attach(w)))
  {
    hide EntryStep, LocalStep, RequesterStep, OutsideStep;
    hide Without;
  }

  lemma {:induction false} WorkerKeepsService(s: System, a: Action)
    requires Messages(s) && RenderingIsServed(s) && Enabled(s, a) && IsWorkerStep(a)
    requires !(a.TryClaim? && a.w in Step(s, a).workers)
    ensures RenderingIsServed(Step(s, a))
  {
    StepShape(s, a);
    if Step(s, a).job.Some? && Step(s, a).job.value.state == Rendering {
      WorkerProgress(s, a);
      ServiceCarriesOver(s, Step(s, a), a.w);
    }
  }

  lemma {:induction false} ServiceCarriesOver(s: System, t: System, w: nat)
    requires RenderingIsServed(s) && SameQueue(s, t) && (WorkerMoved(s, t, w) || WorkerGone(s, t, w))
    requires t.job == s.job && t.claim == s.claim && s.job.Some? && s.job.value.state == Rendering
    requires w in t.workers ==>
               (HoldsLease(s.workers[w]) && Some(s.workers[w].lease) == s.job.value.leaseUntil ==>
                  HoldsLease(t.workers[w]) && t.workers[w].lease == s.workers[w].lease)
               && (s.workers[w].Received? || s.workers[w].Loaded? ==> t.workers[w].Received? || t.workers[w].Loaded?)
    ensures RenderingIsServed(t)
  {
    forall v | v in t.workers
      ensures v in s.workers && t.workers[v].message == s.workers[v].message && (v != w ==> t.workers[v] == s.workers[v])
    {
    }
  }

  lemma {:induction false} OthersKeepService(s: System, a: Action)
    requires Messages(s) && RenderingIsServed(s) && Enabled(s, a) && !IsWorkerStep(a)
    ensures RenderingIsServed(Step(s, a))
  {
    StepShape(s, a);
    var t := Step(s, a);
    if t.job.Some? && t.job.value.state == Rendering {
      assert t.job == s.job && t.claim == s.claim;
    }
  }

  // ---------------------------------------------------------------- what the record and the stores say

  predicate PastArtifact(worker: Worker) {
    worker.Attaching? || worker.Rereading? || worker.Finishing?
  }

  /** The artifact id is set exactly in succeeded; workers act on the states they may act on; the
      artifact is made before the Card is touched, and the Card before the job succeeds. */
  ghost predicate Record(s: System) {
    && (s.job.Some? ==> (s.job.value.artifactId.Some? <==> s.job.value.state == Succeeded))
    && (s.job.Some? && s.job.value.state == Succeeded ==>
          s.artifact && s.attached && s.job.value.artifactId == Some(ARTIFACT))
    && (forall r :: r in s.requesters && s.requesters[r].Resetting? ==> s.requesters[r].seen.state == Failed)
    && (forall w :: w in s.workers && s.workers[w].Loaded? ==>
          s.workers[w].seen.state == Queued || s.workers[w].seen.state == Rendering)
    && (forall w :: w in s.workers && PastArtifact(s.workers[w]) ==> s.artifact)
    && (forall w :: w in s.workers && s.workers[w].Finishing? ==> s.attached)
  }

  lemma {:induction false} RecordKept(s: System, a: Action)
    requires Record(s) && Enabled(s, a)
    ensures Record(Step(s, a))
  {
    if IsWorkerStep(a) { RecordKeptByWorker(s, a); } else { RecordKeptByOthers(s, a); }
  }

  lemma {:induction false} RecordKeptByWorker(s: System, a: Action)
    requires Record(s) && Enabled(s, a) && IsWorkerStep(a)
    ensures Record(Step(s, a))
  {
    var t := Step(s, a);
    StepShape(s, a);
    WorkerEffect(s, a);
    if a.w in t.workers { MovedWorkerRecord(s, a); }
    forall w | w in t.workers
      ensures t.workers[w].Loaded? ==> t.workers[w].seen.state == Queued || t.workers[w].seen.state == Rendering
      ensures PastArtifact(t.workers[w]) ==> t.artifact
      ensures t.workers[w].Finishing? ==> t.attached
    {
      if w != a.w { assert t.workers[w] == s.workers[w]; }
    }
  }

  /** What a worker's step does outside the worker pool: only a claim or a finish touches the job, and
      a job becomes succeeded only at the hands of a worker that has attached. */
  ghost predicate WorkerDid(s: System, a: Action, t: System)
    requires IsWorkerStep(a) && a.w in s.workers && (a.TryClaim? ==> s.workers[a.w].Loaded?)
    requires IsFinish(a) ==> HoldsLease(s.workers[a.w])
  {
    (s.artifact ==> t.artifact) && (s.attached ==> t.attached)
    && (t.job == s.job
        || (a.TryClaim? && a.w in t.workers && s.job.Some? && s.workers[a.w].seen.state == s.job.value.state
            && t.job == Some(Job(Rendering, Some(a.leasedAt + LEASE_MS), s.job.value.artifactId)))
        || (a.FinishFailed? && Matches(s.job, Seen(s.workers[a.w].lease))
            && t.job == Some(Job(Failed, s.job.value.leaseUntil, s.job.value.artifactId)))
        || (a.Succeed? && Matches(s.job, Seen(s.workers[a.w].lease))
            && t.job == Some(Job(Succeeded, s.job.value.leaseUntil, Some(ARTIFACT)))))
  }

  lemma {:induction false} WorkerEffect(s: System, a: Action)
    requires Enabled(s, a) && IsWorkerStep(a)
    ensures WorkerDid(s, a, Step(s, a))
  {
    if IsEntry(a) { EntryDid(s, a); } else if IsLocal(a) { LocalDid(s, a); } else { FinishDid(s, a); }
    hide Step;
  }

  lemma {:induction false} EntryDid(s: System, a: Action)
    requires Enabled(s, a) && IsEntry(a)
    ensures WorkerDid(s, a, Step(s, a))
  {
    hide LocalStep, FinishStep, RequesterStep, OutsideStep;
  }

  lemma {:induction false} LocalDid(s: System, a: Action)
    requires Enabled(s, a) && IsLocal(a)
    ensures WorkerDid(s, a, Step(s, a))
  {
    hide EntryStep, FinishStep, RequesterStep, OutsideStep;
  }

  lemma {:induction false} FinishDid(s: System, a: Action)
    requires Enabled(s, a) && IsFinish(a)
    ensures WorkerDid(s, a, Step(s, a))
  {
    hide EntryStep, LocalStep, RequesterStep, OutsideStep;
    hide Without;
  }

  predicate WorkerRecord(worker: Worker, t: System) {
    (worker.Loaded? ==> worker.seen.state == Queued || worker.seen.state == Rendering)
    && (PastArtifact(worker) ==> t.artifact) && (worker.Finishing? ==> t.attached)
  }

  lemma {:induction false} MovedWorkerRecord(s: System, a: Action)
    requires Record(s) && Enabled(s, a) && IsWorkerStep(a) && a.w in Step(s, a).workers
    ensures WorkerRecord(Step(s, a).workers[a.w], Step(s, a))
  {
    if IsEntry(a) { EntryRecord(s, a); } else if IsLocal(a) { LocalRecord(s, a); } else { FinishRecord(s, a); }
    hide Step;
  }

  lemma {:induction false} EntryRecord(s: System, a: Action)
    requires Record(s) && Enabled(s, a) && IsEntry(a) && a.w in Step(s, a).workers
    ensures WorkerRecord(Step(s, a).workers[a.w], Step(s, a))
  {
    hide Step, Enabled, Record;
    if a.Load? {
      LoadRecord(s, a.w);
    } else {
      ClaimIsWon(s, a.w, a.checkedAt, a.leasedAt);
    }
  }

  lemma {:induction false} LoadRecord(s: System, w: nat)
    requires Enabled(s, Load(w))
    ensures w in Step(s, Load(w)).workers && WorkerRecord(Step(s, Load(w)).workers[w], Step(s, Load(w)))
  {
    hide LocalStep, FinishStep, RequesterStep, OutsideStep;
  }

  lemma {:induction false} LocalRecord(s: System, a: Action)
    requires Record(s) && Enabled(s, a) && IsLocal(a) && a.w in Step(s, a).workers
    ensures WorkerRecord(Step(s, a).workers[a.w], Step(s, a))
  {
    hide EntryStep, FinishStep, RequesterStep, OutsideStep;
  }

  lemma {:induction false} FinishRecord(s: System, a: Action)
    requires Record(s) && Enabled(s, a) && IsFinish(a) && a.w in Step(s, a).workers
    ensures WorkerRecord(Step(s, a).workers[a.w], Step(s, a))
  {
    hide EntryStep, LocalStep, RequesterStep, OutsideStep;
    if a.Attach? { AttachRecord(s, a.w); } else { EndRecord(s, a); }
    hide Step;
  }

  lemma {:induction false} AttachRecord(s: System, w: nat)
    requires Record(s) && Enabled(s, Attach(w)) && w in Step(s, Attach(w)).workers
    ensures WorkerRecord(Step(s, Attach(w)).workers[w], Step(s, Attach(w)))
  {
    hide EntryStep, LocalStep, RequesterStep, OutsideStep;
    hide Without;
  }

  lemma {:induction false} EndRecord(s: System, a: Action)
    requires Enabled(s, a) && (a.Succeed? || a.FinishFailed?) && a.w in Step(s, a).workers
    ensures WorkerRecord(Step(s, a).workers[a.w], Step(s, a))
  {
    hide EntryStep, LocalStep, RequesterStep, OutsideStep;
    hide Matches, CompareAndSet;
  }

  lemma {:induction false} RecordKeptByOthers(s: System, a: Action)
    requires Record(s) && Enabled(s, a) && !IsWorkerStep(a)
    ensures Record(Step(s, a))
  {
    if a.Reset? || a.Send? || a.Mark? {
      RecordKeptBySettling(s, a);
    } else if IsRequesterStep(a) {
      RecordKeptByAsking(s, a);
    } else {
      RecordKeptByQueue(s, a);
    }
    hide Step;
  }

  lemma {:induction false} RecordKeptBySettling(s: System, a: Action)
    requires Record(s) && Enabled(s, a) && (a.Reset? || a.Send? || a.Mark?)
    ensures Record(Step(s, a))
  {
    hide EntryStep, LocalStep, FinishStep, OutsideStep, Record, ResetStep, SendStep, MarkStep;
    if a.Reset? {
      ResetKeepsRecord(s, a.r, s.requesters[a.r].seen);
    } else if a.Send? {
      SendKeepsRecord(s, a.r, a.enqueued, a.reported);
    } else {
      MarkKeepsRecord(s, a.r);
    }
  }

  lemma {:induction false} ResetKeepsRecord(s: System, r: nat, seen: Job)
    requires Record(s) && r in s.requesters && s.requesters[r] == Resetting(seen)
    ensures Record(ResetStep(s, r, seen))
  {
  }

  lemma {:induction false} SendKeepsRecord(s: System, r: nat, enqueued: bool, reported: bool)
    requires Record(s)
    ensures Record(SendStep(s, r, enqueued, reported))
  {
    hide Sent;
  }

  lemma {:induction false} MarkKeepsRecord(s: System, r: nat)
    requires Record(s)
    ensures Record(MarkStep(s, r))
  {
  }

  lemma {:induction false} RecordKeptByAsking(s: System, a: Action)
    requires Record(s) && Enabled(s, a) && (a.Request? || a.Put? || a.Get? || a.Abandon?)
    ensures Record(Step(s, a))
  {
    hide EntryStep, LocalStep, FinishStep, OutsideStep, Record, PutStep, GetStep;
    if a.Put? {
      PutKeepsRecord(s, a.r);
    } else if a.Get? {
      GetKeepsRecord(s, a.r);
    } else {
      RecordCarriesOver(s, Step(s, a));
    }
  }

  lemma {:induction false} PutKeepsRecord(s: System, r: nat)
    requires Record(s)
    ensures Record(PutStep(s, r))
  {
  }

  lemma {:induction false} GetKeepsRecord(s: System, r: nat)
    requires Record(s)
    ensures Record(GetStep(s, r))
  {
  }

  lemma {:induction false} RecordCarriesOver(s: System, t: System)
    requires Record(s) && t.job == s.job && t.artifact == s.artifact && t.attached == s.attached && t.workers == s.workers
    requires forall r :: r in t.requesters && t.requesters[r].Resetting? ==> r in s.requesters && s.requesters[r] == t.requesters[r]
    ensures Record(t)
  {
  }

  lemma {:induction false} RecordKeptByQueue(s: System, a: Action)
    requires Record(s) && Enabled(s, a) && !IsWorkerStep(a) && !IsRequesterStep(a)
    ensures Record(Step(s, a))
  {
    hide EntryStep, LocalStep, FinishStep, RequesterStep;
    hide HeldBySomeone;
  }

  /** Succeeded is absorbing: no step of anyone changes a succeeded job. */
  lemma {:induction false} SucceededIsAbsorbing(s: System, a: Action)
    requires Record(s) && Enabled(s, a) && s.job.Some? && s.job.value.state == Succeeded
    ensures Step(s, a).job == s.job
  {
  }

  // ---------------------------------------------------------------- the reference on the Card

  function Count(refs: seq<string>, id: string): nat {
    if refs == [] then 0 else Count(refs[..|refs| - 1], id) + (if refs[|refs| - 1] == id then 1 else 0)
  }

  lemma {:induction false} WithoutHasNone(refs: seq<string>, id: string)
    ensures Count(Without(refs, id), id) == 0
    ensures Without(Without(refs, id), id) == Without(refs, id)
  {
    if refs != [] {
      var front, last := refs[..|refs| - 1], refs[|refs| - 1];
      WithoutHasNone(front, id);
      var kept := Without(front, id);
      if last == id {
        assert kept + [] == kept;
      } else {
        assert (kept + [last])[..|kept + [last]| - 1] == kept;
        assert Without(kept + [last], id) == Without(kept, id) + [last];
      }
    }
  }

  /** Attaching leaves exactly one reference to the artifact, whatever was there, and keeps every other
      reference in its place; attaching again changes only the version. */
  lemma {:induction false} AttachLeavesOneReference(card: Card)
    ensures Count(WithReference(card).refs, ARTIFACT) == 1
    ensures Without(WithReference(card).refs, ARTIFACT) == Without(card.refs, ARTIFACT)
    ensures WithReference(WithReference(card)).refs == WithReference(card).refs
  {
    var rest := Without(card.refs, ARTIFACT);
    WithoutHasNone(card.refs, ARTIFACT);
    assert (rest + [ARTIFACT])[..|rest|] == rest;
  }

  predicate HasCard(worker: Worker) {
    worker.CardRead? || worker.Attaching?
  }

  /** A worker's copy of the Card is the stored Card or an older version of it. */
  ghost predicate CardCopies(s: System) {
    forall w :: w in s.workers && HasCard(s.workers[w]) && s.card.Some? ==>
      s.workers[w].card.version <= s.card.value.version
      && (s.workers[w].card.version == s.card.value.version ==> s.workers[w].card == s.card.value)
  }

  lemma {:induction false} CardCopiesKept(s: System, a: Action)
    requires CardCopies(s) && Enabled(s, a)
    ensures CardCopies(Step(s, a))
  {
    StepShape(s, a);
    CardEffect(s, a);
    hide Step, Enabled;
    if IsWorkerStep(a) {
      WorkerKeepsCopies(s, Step(s, a), a.w);
    } else {
      PoolKeepsCopies(s, Step(s, a));
    }
  }

  ghost predicate CardMovesOn(s: System, t: System) {
    t.card == s.card || (t.card.Some? ==> s.card.Some? && t.card.value.version > s.card.value.version)
  }

  lemma {:induction false} WorkerKeepsCopies(s: System, t: System, w: nat)
    requires CardCopies(s) && CardMovesOn(s, t) && (WorkerMoved(s, t, w) || WorkerGone(s, t, w))
    requires w in t.workers && HasCard(t.workers[w]) ==> CopyIsCurrent(s, t, w)
    ensures CardCopies(t)
  {
    forall v | v in t.workers && v != w ensures v in s.workers && t.workers[v] == s.workers[v] {}
  }

  lemma {:induction false} PoolKeepsCopies(s: System, t: System)
    requires CardCopies(s) && CardMovesOn(s, t)
    requires forall w :: w in t.workers && HasCard(t.workers[w]) ==> w in s.workers && t.workers[w] == s.workers[w]
    ensures CardCopies(t)
  {
  }

  /** The Card only moves on to higher versions, and a worker's new copy is the stored one. */
  lemma {:induction false} CardEffect(s: System, a: Action)
    requires Enabled(s, a)
    ensures CardMovesOn(s, Step(s, a))
    ensures !IsWorkerStep(a) ==>
              forall w :: w in Step(s, a).workers && HasCard(Step(s, a).workers[w]) ==>
                w in s.workers && Step(s, a).workers[w] == s.workers[w]
    ensures IsWorkerStep(a) && a.w in Step(s, a).workers && HasCard(Step(s, a).workers[a.w]) ==>
              CopyIsCurrent(s, Step(s, a), a.w)
  {
    hide Without, HeldBySomeone;
    if a.Attach? {
      AttachEffect(s, a.w);
    } else if a.EditCard? {
    } else if !IsWorkerStep(a) {
      OtherCardEffect(s, a);
      PoolCopies(s, a);
      hide Step;
    } else if a.ReadCard? || a.MakeArtifact? || a.Reread? {
      assert Step(s, a).card == s.card;
      CopyEffect(s, a);
    } else {
      OtherCardEffect(s, a);
    }
  }

  lemma {:induction false} PoolCopies(s: System, a: Action)
    requires Enabled(s, a) && !IsWorkerStep(a)
    ensures forall w :: w in Step(s, a).workers && HasCard(Step(s, a).workers[w]) ==>
              w in s.workers && Step(s, a).workers[w] == s.workers[w]
  {
    if a.Deliver? {
      assert Step(s, a) == DeliverStep(s, a.message);
    } else if a.Delete? {
      assert Step(s, a).workers == s.workers - {a.w};
    } else if a.Send? {
      assert Step(s, a) == SendStep(s, a.r, a.enqueued, a.reported);
    } else {
      StepShape(s, a);
    }
    hide Step, HeldBySomeone;
  }

  ghost predicate CopyIsCurrent(s: System, t: System, w: nat)
    requires w in s.workers && w in t.workers && HasCard(t.workers[w])
  {
    t.card == s.card
    && (t.card == Some(t.workers[w].card) || (HasCard(s.workers[w]) && t.workers[w].card == s.workers[w].card))
  }

  lemma {:induction false} AttachEffect(s: System, w: nat)
    requires Enabled(s, Attach(w))
    ensures var t := Step(s, Attach(w));
            (t.card == s.card || (t.card.Some? && s.card.Some? && t.card.value.version == s.card.value.version + 1))
            && w in t.workers && !HasCard(t.workers[w])
  {
    hide EntryStep, LocalStep, RequesterStep, OutsideStep;
    hide Without;
  }

  lemma {:induction false} CopyEffect(s: System, a: Action)
    requires Enabled(s, a) && (a.ReadCard? || a.MakeArtifact? || a.Reread?)
    ensures a.w in Step(s, a).workers && HasCard(Step(s, a).workers[a.w]) ==> CopyIsCurrent(s, Step(s, a), a.w)
  {
    hide EntryStep, FinishStep, RequesterStep, OutsideStep;
    hide Without;
  }

  ghost predicate CardUntouched(s: System, a: Action, t: System) {
    t.card == s.card
    && (IsWorkerStep(a) && a.w in t.workers && a.w in s.workers ==> !HasCard(t.workers[a.w]) || t.workers[a.w] == s.workers[a.w])
  }

  lemma {:induction false} OtherCardEffect(s: System, a: Action)
    requires Enabled(s, a) && !a.Attach? && !a.EditCard? && !a.ReadCard? && !a.MakeArtifact? && !a.Reread?
    ensures CardUntouched(s, a, Step(s, a))
  {
    if IsEntry(a) {
      EntryLeavesCard(s, a);
    } else if IsWorkerStep(a) {
      EndLeavesCard(s, a);
    } else if IsRequesterStep(a) {
      RequesterLeavesCard(s, a);
    } else {
      QueueLeavesCard(s, a);
    }
    hide Step;
  }

  lemma {:induction false} EntryLeavesCard(s: System, a: Action)
    requires Enabled(s, a) && IsEntry(a)
    ensures CardUntouched(s, a, Step(s, a))
  {
    hide LocalStep, FinishStep, RequesterStep, OutsideStep;
    hide Matches, CompareAndSet;
  }

  lemma {:induction false} EndLeavesCard(s: System, a: Action)
    requires Enabled(s, a) && (a.Succeed? || a.Fail? || a.FinishFailed? || a.Crash?)
    ensures CardUntouched(s, a, Step(s, a))
  {
    hide EntryStep, RequesterStep, OutsideStep;
    hide Matches, CompareAndSet;
  }

  lemma {:induction false} RequesterLeavesCard(s: System, a: Action)
    requires Enabled(s, a) && IsRequesterStep(a)
    ensures CardUntouched(s, a, Step(s, a))
  {
    hide EntryStep, LocalStep, FinishStep, OutsideStep;
    hide Matches, CompareAndSet;
  }

  lemma {:induction false} QueueLeavesCard(s: System, a: Action)
    requires Enabled(s, a) && (a.Tick? || a.Deliver? || a.Delete? || a.GiveUp?)
    ensures CardUntouched(s, a, Step(s, a))
  {
    hide EntryStep, LocalStep, FinishStep, RequesterStep;
    hide HeldBySomeone;
  }

  /** A conditional Card write that goes through loses nobody's edit: it starts from the stored Card. */
  lemma {:induction false} AttachLosesNoEdit(s: System, w: nat)
    requires CardCopies(s) && Enabled(s, Attach(w)) && CardMatches(s.card, s.workers[w].card)
    ensures Step(s, Attach(w)).card == Some(WithReference(s.card.value))
  {
    hide EntryStep, LocalStep, RequesterStep, OutsideStep;
  }

  // ---------------------------------------------------------------- leases

  /** The claim is atomic when it reads the clock at the very step that writes the record. */
  predicate AtomicClaim(s: System, a: Action) {
    a.TryClaim? ==> a.checkedAt == s.clock && a.leasedAt == s.clock
  }

  ghost predicate IsHolder(s: System, w: nat) {
    w in s.workers && HoldsLease(s.workers[w])
    && s.job.Some? && s.job.value.state == Rendering && s.claim.Some? && s.claim.value.worker == w
    && s.job.value.leaseUntil == Some(s.workers[w].lease)
  }

  /** A worker whose lease is over: the clock has reached it, and any newer lease ends later. */
  ghost predicate Superseded(s: System, w: nat) {
    w in s.workers && HoldsLease(s.workers[w])
    && s.workers[w].lease <= s.clock
    && (s.job.Some? && s.job.value.state == Rendering ==>
          s.job.value.leaseUntil.Some? && s.workers[w].lease < s.job.value.leaseUntil.value)
  }

  predicate HasSucceeded(s: System) {
    s.job.Some? && s.job.value.state == Succeeded
  }

  ghost predicate Leases(s: System) {
    && (s.job.Some? && s.job.value.state == Rendering ==>
          s.job.value.leaseUntil.Some? && s.job.value.leaseUntil.value <= s.clock + LEASE_MS)
    && (forall w :: w in s.workers && s.workers[w].Loaded? && s.workers[w].seen.state == Rendering ==>
          s.workers[w].seen.leaseUntil.Some?)
    && (forall w :: w in s.workers && HoldsLease(s.workers[w]) ==> IsHolder(s, w) || Superseded(s, w) || HasSucceeded(s))
  }

  /** Taking over from an expired lease strictly raises it, even when the clock is read early. */
  lemma {:induction false} TakeoverRaisesLease(s: System, w: nat, checkedAt: int, leasedAt: int)
    requires Leases(s) && Enabled(s, TryClaim(w, checkedAt, leasedAt))
    requires s.job.Some? && s.job.value.state == Rendering
    requires Step(s, TryClaim(w, checkedAt, leasedAt)).job != s.job
    ensures Step(s, TryClaim(w, checkedAt, leasedAt)).job.value.leaseUntil.Some?
    ensures Step(s, TryClaim(w, checkedAt, leasedAt)).job.value.leaseUntil.value > s.job.value.leaseUntil.value
    ensures s.job.value.leaseUntil.value <= checkedAt
  {
    hide LocalStep, FinishStep, RequesterStep, OutsideStep;
  }

  /** A worker whose lease was taken over cannot finish the job, in either way. */
  lemma {:induction false} SupersededCannotFinish(s: System, w: nat, lost: bool)
    requires Superseded(s, w)
    ensures Enabled(s, Succeed(w, lost)) ==> Step(s, Succeed(w, lost)).job == s.job
    ensures Enabled(s, FinishFailed(w, lost)) ==> Step(s, FinishFailed(w, lost)).job == s.job
  {
  }

  lemma {:induction false} LeasesKept(s: System, a: Action)
    requires Record(s) && Messages(s) && RenderingIsServed(s) && Leases(s) && Enabled(s, a) && AtomicClaim(s, a)
    ensures Leases(Step(s, a))
  {
    StepShape(s, a);
    if a.TryClaim? && a.w in Step(s, a).workers {
      NewClaimKeepsLeases(s, a.w);
    } else if IsWorkerStep(a) {
      WorkerKeepsLeases(s, a);
    } else {
      OthersKeepLeases(s, a);
    }
  }

  lemma {:induction false} NewClaimKeepsLeases(s: System, w: nat)
    requires Record(s) && Leases(s) && Enabled(s, TryClaim(w, s.clock, s.clock))
    requires w in Step(s, TryClaim(w, s.clock, s.clock)).workers
    ensures Leases(Step(s, TryClaim(w, s.clock, s.clock)))
  {
    hide LocalStep, FinishStep, RequesterStep, OutsideStep;
    var t := Step(s, TryClaim(w, s.clock, s.clock));
    forall v | v in t.workers && HoldsLease(t.workers[v])
      ensures IsHolder(t, v) || Superseded(t, v)
    {
      if v != w {
        assert t.workers[v] == s.workers[v];
        assert IsHolder(s, v) || Superseded(s, v);
      }
    }
  }

  lemma {:induction false} OthersKeepLeases(s: System, a: Action)
    requires Record(s) && Messages(s) && Leases(s) && Enabled(s, a) && !IsWorkerStep(a)
    ensures Leases(Step(s, a))
  {
    hide Leases;
    if IsRequesterStep(a) {
      RequesterKeepsLeases(s, a);
    } else {
      QueueKeepsLeases(s, a);
    }
    hide Step;
  }

  lemma {:induction false} RequesterKeepsLeases(s: System, a: Action)
    requires Record(s) && Leases(s) && Enabled(s, a) && IsRequesterStep(a)
    ensures Leases(Step(s, a))
  {
    hide EntryStep, LocalStep, FinishStep, OutsideStep;
    StepShape(s, a);
    RequesterJob(s, a);
    hide Step;
    var t := Step(s, a);
    forall v | v in t.workers && HoldsLease(t.workers[v])
      ensures IsHolder(t, v) || Superseded(t, v) || HasSucceeded(t)
    {
      assert v in s.workers && t.workers[v] == s.workers[v];
    }
  }

  /** A requester leaves a rendering or succeeded job alone, and never makes one. */
  ghost predicate RequesterDid(s: System, t: System) {
    t.clock == s.clock && t.claim == s.claim && t.workers == s.workers
    && (t.job == s.job
        || (t.job.Some? && (t.job.value.state == Queued || t.job.value.state == Failed)
            && (s.job.Some? ==> s.job.value.state == Queued || s.job.value.state == Failed)))
  }

  lemma {:induction false} RequesterJob(s: System, a: Action)
    requires Record(s) && Enabled(s, a) && IsRequesterStep(a)
    ensures RequesterDid(s, Step(s, a))
  {
    hide EntryStep, LocalStep, FinishStep, OutsideStep;
    if a.Reset? || a.Mark? { SettlerDid(s, a); } else { AskerDid(s, a); }
    hide Step;
  }

  lemma {:induction false} SettlerDid(s: System, a: Action)
    requires Record(s) && Enabled(s, a) && (a.Reset? || a.Mark?)
    ensures RequesterDid(s, Step(s, a))
  {
    hide EntryStep, LocalStep, FinishStep, OutsideStep;
  }

  lemma {:induction false} AskerDid(s: System, a: Action)
    requires Enabled(s, a) && (a.Request? || a.Put? || a.Get? || a.Send? || a.Abandon?)
    ensures RequesterDid(s, Step(s, a))
  {
    hide EntryStep, LocalStep, FinishStep, OutsideStep;
  }

  lemma {:induction false} QueueKeepsLeases(s: System, a: Action)
    requires Messages(s) && Leases(s) && Enabled(s, a) && !IsWorkerStep(a) && !IsRequesterStep(a)
    ensures Leases(Step(s, a))
  {
    hide EntryStep, LocalStep, FinishStep, RequesterStep;
    hide HeldBySomeone;
    var t := Step(s, a);
    forall v | v in t.workers && HoldsLease(t.workers[v])
      ensures IsHolder(t, v) || Superseded(t, v) || HasSucceeded(t)
    {
      assert v in s.workers && t.workers[v] == s.workers[v];
    }
  }

  lemma {:induction false} WorkerKeepsLeases(s: System, a: Action)
    requires Record(s) && RenderingIsServed(s) && Leases(s) && Enabled(s, a) && IsWorkerStep(a)
    requires !(a.TryClaim? && a.w in Step(s, a).workers)
    ensures Leases(Step(s, a))
  {
    StepShape(s, a);
    WorkerEffect(s, a);
    var t := Step(s, a);
    forall v | v in t.workers
      ensures HoldsLease(t.workers[v]) ==> IsHolder(t, v) || Superseded(t, v) || HasSucceeded(t)
      ensures t.workers[v].Loaded? && t.workers[v].seen.state == Rendering ==> t.workers[v].seen.leaseUntil.Some?
    {
      if v == a.w { LeaseholderMoves(s, a); }
      assert v in s.workers;
      if HoldsLease(t.workers[v]) { LeaseStatusKept(s, t, v, a); }
    }
  }

  /** Only workers that held the lease go on to hold it, and under the same number. */
  lemma {:induction false} LeaseholderMoves(s: System, a: Action)
    requires Leases(s) && Enabled(s, a) && IsWorkerStep(a) && a.w in Step(s, a).workers && !a.TryClaim?
    ensures HoldsLease(Step(s, a).workers[a.w]) ==>
              HoldsLease(s.workers[a.w]) && Step(s, a).workers[a.w].lease == s.workers[a.w].lease
    ensures Step(s, a).workers[a.w].Loaded? && Step(s, a).workers[a.w].seen.state == Rendering ==>
              Step(s, a).workers[a.w].seen.leaseUntil.Some?
  {
    hide IsHolder, Superseded, Without;
    if a.Load? {
      LoaderSeesLease(s, a.w);
    } else if a.Attach? || a.Succeed? || a.FinishFailed? {
      StoreStepKeepsLease(s, a);
    } else {
      LocalStepKeepsLease(s, a);
    }
  }

  lemma {:induction false} LoaderSeesLease(s: System, w: nat)
    requires Leases(s) && Enabled(s, Load(w))
    ensures var t := Step(s, Load(w));
            w in t.workers && !HoldsLease(t.workers[w])
            && (t.workers[w].Loaded? && t.workers[w].seen.state == Rendering ==> t.workers[w].seen.leaseUntil.Some?)
  {
    hide LocalStep, FinishStep, RequesterStep, OutsideStep;
    hide IsHolder, Superseded;
  }

  lemma {:induction false} StoreStepKeepsLease(s: System, a: Action)
    requires Enabled(s, a) && (a.Attach? || a.Succeed? || a.FinishFailed?)
    ensures a.w in Step(s, a).workers ==>
              Step(s, a).workers[a.w].Done?
              || (HoldsLease(s.workers[a.w]) && HoldsLease(Step(s, a).workers[a.w])
                  && Step(s, a).workers[a.w].lease == s.workers[a.w].lease)
  {
    hide EntryStep, LocalStep, RequesterStep, OutsideStep;
    hide Without;
  }

  lemma {:induction false} LocalStepKeepsLease(s: System, a: Action)
    requires Enabled(s, a) && (a.ReadCard? || a.MakeArtifact? || a.Reread? || a.Fail? || a.Crash?)
    ensures a.w in Step(s, a).workers ==>
              HoldsLease(s.workers[a.w]) && HoldsLease(Step(s, a).workers[a.w])
              && Step(s, a).workers[a.w].lease == s.workers[a.w].lease
  {
    hide EntryStep, FinishStep, RequesterStep, OutsideStep;
  }

  lemma {:induction false} LeaseStatusKept(s: System, t: System, v: nat, a: Action)
    requires Record(s) && Leases(s) && v in s.workers && v in t.workers && t.clock == s.clock && t.claim == s.claim
    requires HoldsLease(t.workers[v]) && HoldsLease(s.workers[v]) && t.workers[v].lease == s.workers[v].lease
    requires t.job == s.job
             || (t.job.Some? && t.job.value.state == Succeeded)
             || (a.FinishFailed? && a.w in s.workers && HoldsLease(s.workers[a.w]) && a.w != v
                 && Matches(s.job, Seen(s.workers[a.w].lease)) && t.job.Some? && t.job.value.state == Failed)
    ensures IsHolder(t, v) || Superseded(t, v) || HasSucceeded(t)
  {
    assert IsHolder(s, v) || Superseded(s, v) || HasSucceeded(s);
    if t.job != s.job && t.job.value.state == Failed {
      assert IsHolder(s, a.w) || Superseded(s, a.w) || HasSucceeded(s);
      assert IsHolder(s, a.w);
    }
  }
}
