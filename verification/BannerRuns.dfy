// What holds over whole runs of the banner protocol, under exclusive delivery, atomic claims or bounded lifetimes
// of workers where a theorem needs them.
module BannerRuns {
  import opened Wrappers
  import opened BannerJobs
  import opened BannerProtocol
  import opened BannerSafety

  ghost predicate Invariant(s: System) {
    Messages(s) && QueuedIsServed(s) && RenderingIsServed(s) && Record(s) && CardCopies(s)
  }

  lemma {:induction false} StepKeepsInvariant(s: System, a: Action)
    requires Invariant(s) && Enabled(s, a)
    ensures Invariant(Step(s, a))
  {
    hide Messages, QueuedIsServed, RenderingIsServed, Record, CardCopies, Step;
    MessagesKept(s, a);
    QueuedServiceKept(s, a);
    RenderingServiceKept(s, a);
    RecordKept(s, a);
    CardCopiesKept(s, a);
  }

  lemma {:induction false} RunKeepsInvariant(states: seq<System>, actions: seq<Action>, i: nat)
    requires Run(states, actions) && i < |states|
    ensures Invariant(states[i])
  {
    if i > 0 {
      RunKeepsInvariant(states, actions, i - 1);
      assert Enabled(states[i - 1], actions[i - 1]) && states[i - 1 + 1] == Step(states[i - 1], actions[i - 1]);
      StepKeepsInvariant(states[i - 1], actions[i - 1]);
    }
  }

  // ---------------------------------------------------------------- no job is stranded

  /** No message is handed out while a live worker holds it or given up, and no requester dies. */
  ghost predicate ExclusiveStep(s: System, a: Action) {
    !a.Abandon? && !a.GiveUp? && (a.Deliver? ==> !HeldBySomeone(s, a.message))
  }

  ghost predicate Exclusive(states: seq<System>, actions: seq<Action>) {
    Run(states, actions) && forall i :: 0 <= i < |actions| ==> ExclusiveStep(states[i], actions[i])
  }

  lemma {:induction false} ExclusiveNeverOverlaps(states: seq<System>, actions: seq<Action>, i: nat)
    requires Exclusive(states, actions) && i < |states|
    ensures states[i].overlapped == {} && states[i].queue.deadLetters == {} && !states[i].abandoned
  {
    if i > 0 {
      ExclusiveNeverOverlaps(states, actions, i - 1);
      var s, a := states[i - 1], actions[i - 1];
      assert Enabled(s, a) && states[i - 1 + 1] == Step(s, a);
      assert ExclusiveStep(s, a);
      HistoryEffect(s, a);
    }
  }

  lemma {:induction false} HistoryEffect(s: System, a: Action)
    requires Enabled(s, a) && ExclusiveStep(s, a)
    ensures Step(s, a).overlapped == s.overlapped && Step(s, a).queue.deadLetters == s.queue.deadLetters && Step(s, a).abandoned == s.abandoned
  {
    StepShape(s, a);
    if a.Send? {
      assert Step(s, a) == SendStep(s, a.r, a.enqueued, a.reported);
    } else if IsRequesterStep(a) {
      RequesterHistory(s, a);
    } else if a.Deliver? {
      assert Step(s, a) == DeliverStep(s, a.message);
    } else if a.Delete? {
      assert Step(s, a).overlapped == s.overlapped && Step(s, a).queue.deadLetters == s.queue.deadLetters;
    }
    hide Step;
  }

  lemma {:induction false} RequesterHistory(s: System, a: Action)
    requires Enabled(s, a) && IsRequesterStep(a) && !a.Abandon?
    ensures Step(s, a).abandoned == s.abandoned
  {
    hide EntryStep, LocalStep, FinishStep, OutsideStep;
  }

  /** No banner job is ever stranded. A queued job has an undeleted message that no worker is about to
      delete, or a requester about to send one or to mark the job failed; a rendering job was claimed
      under a message that is still undeleted. */
  lemma {:induction false} NeverStranded(states: seq<System>, actions: seq<Action>, i: nat)
    requires Exclusive(states, actions) && i < |states|
    ensures var s := states[i];
            s.job.Some? && s.job.value.state == Queued ==> (exists r :: AboutToSend(s, r)) || (exists m :: Live(s, m))
    ensures var s := states[i];
            s.job.Some? && s.job.value.state == Rendering ==> s.claim.Some? && s.claim.value.message in s.queue.messages
  {
    ExclusiveNeverOverlaps(states, actions, i);
    RunKeepsInvariant(states, actions, i);
  }

  /** t can follow s: exclusive steps, one after the other, lead from s to t. */
  ghost predicate Leads(s: System, t: System) {
    exists states: seq<System>, actions: seq<Action> ::
      Segment(states, actions) && states[0] == s && states[|actions|] == t
      && forall i :: 0 <= i < |actions| ==> ExclusiveStep(states[i], actions[i])
  }

  lemma {:induction false} LeadsNowhere(s: System)
    ensures Leads(s, s)
  {
    assert Segment([s], []);
  }

  lemma {:induction false} LeadsByStep(s: System, a: Action, t: System)
    requires Enabled(s, a) && ExclusiveStep(s, a) && Leads(Step(s, a), t)
    ensures Leads(s, t)
  {
    hide Enabled, Step, ExclusiveStep;
    var states, actions :|
      Segment(states, actions) && states[0] == Step(s, a) && states[|actions|] == t
      && forall i :: 0 <= i < |actions| ==> ExclusiveStep(states[i], actions[i]);
    var longer, more := [s] + states, [a] + actions;
    forall i | 0 <= i < |more|
      ensures Enabled(longer[i], more[i]) && longer[i + 1] == Step(longer[i], more[i]) && ExclusiveStep(longer[i], more[i])
    {
      if i > 0 {
        assert longer[i] == states[i - 1] && more[i] == actions[i - 1] && longer[i + 1] == states[i - 1 + 1];
      }
    }
    assert Segment(longer, more) && longer[|more|] == t;
  }

  predicate Ended(s: System) {
    s.job.Some? && (s.job.value.state == Succeeded || s.job.value.state == Failed)
  }

  /** Some continuation ends the job, and ends it well if the Card exists. */
  ghost predicate CanEnd(s: System) {
    exists t :: Leads(s, t) && Ended(t) && (s.card.Some? ==> HasSucceeded(t))
  }

  lemma {:induction false} CanEndByStep(s: System, a: Action)
    requires Enabled(s, a) && ExclusiveStep(s, a) && CanEnd(Step(s, a)) && Step(s, a).card.Some? == s.card.Some?
    ensures CanEnd(s)
  {
    hide Enabled, Step, ExclusiveStep, Leads, Ended, HasSucceeded;
    var t :| Leads(Step(s, a), t) && Ended(t) && (Step(s, a).card.Some? ==> HasSucceeded(t));
    LeadsByStep(s, a, t);
  }

  lemma {:induction false} EndedCanEnd(s: System)
    requires Ended(s) && (s.card.Some? ==> HasSucceeded(s))
    ensures CanEnd(s)
  {
    hide Leads;
    LeadsNowhere(s);
  }

  lemma {:induction false} ClaimerCanEnd(s: System, w: nat)
    requires w in s.workers && s.workers[w].Claimed? && Matches(s.job, Seen(s.workers[w].lease))
    ensures CanEnd(s)
  {
    hide CanEnd, Without;
    if s.card.Some? {
      var s1 := Step(s, ReadCard(w));
      var s2 := Step(s1, MakeArtifact(w));
      AttachingCanEnd(s2, w);
      CanEndByStep(s1, MakeArtifact(w));
      CanEndByStep(s, ReadCard(w));
    } else {
      var s1 := Step(s, ReadCard(w));
      EndedCanEnd(Step(s1, FinishFailed(w, false)));
      CanEndByStep(s1, FinishFailed(w, false));
      CanEndByStep(s, ReadCard(w));
    }
  }

  lemma {:induction false} AttachingCanEnd(s: System, w: nat)
    requires w in s.workers && s.workers[w].Attaching? && Matches(s.job, Seen(s.workers[w].lease)) && CardMatches(s.card, s.workers[w].card)
    ensures CanEnd(s)
  {
    hide CanEnd, Without;
    var s3 := Step(s, Attach(w));
    assert s3.workers[w].Finishing? && s3.job == s.job;
    EndedCanEnd(Step(s3, Succeed(w, false)));
    CanEndByStep(s3, Succeed(w, false));
    CanEndByStep(s, Attach(w));
  }

  predicate Claimable(s: System) {
    s.job.Some?
    && (s.job.value.state == Queued
        || (s.job.value.state == Rendering && s.job.value.leaseUntil.Some? && s.job.value.leaseUntil.value <= s.clock))
  }

  lemma {:induction false} LoadedCanEnd(s: System, w: nat)
    requires s.job.Some? && Claimable(s) && w in s.workers && s.workers[w].Loaded?
    requires s.workers[w].seen == s.job.value && s.workers[w].loadedAt <= s.clock
    ensures CanEnd(s)
  {
    hide CanEnd;
    var claim := TryClaim(w, s.clock, s.clock);
    var t := Step(s, claim);
    assert Matches(t.job, Seen(t.workers[w].lease));
    ClaimerCanEnd(t, w);
    CanEndByStep(s, claim);
  }

  lemma {:induction false} DeliveryCanEnd(s: System, m: nat)
    requires Deliverable(s.queue, m) && Claimable(s) && !HeldBySomeone(s, m)
    ensures CanEnd(s)
  {
    hide CanEnd, HeldBySomeone;
    var w := s.nextWorker;
    var s1 := Step(s, Deliver(m));
    var s2 := Step(s1, Load(w));
    assert s2.workers[w] == Loaded(m, s.job.value, s.clock);
    LoadedCanEnd(s2, w);
    CanEndByStep(s1, Load(w));
    CanEndByStep(s, Deliver(m));
  }

  /** The worker that holds the message may crash; once the lease has run out, the message is delivered
      again and the job ends. */
  lemma {:induction false} MessageCanEnd(s: System, m: nat)
    requires Deliverable(s.queue, m) && s.job.Some? && Messages(s) && s.overlapped == {}
    requires s.job.value.state == Queued || (s.job.value.state == Rendering && s.job.value.leaseUntil.Some?)
    ensures CanEnd(s)
  {
    hide CanEnd;
    if w :| w in s.workers && s.workers[w].message == m {
      UnheldCanEnd(Step(s, Crash(w)), m);
      CanEndByStep(s, Crash(w));
    } else {
      UnheldCanEnd(s, m);
    }
  }

  lemma {:induction false} UnheldCanEnd(s: System, m: nat)
    requires Deliverable(s.queue, m) && s.job.Some? && !HeldBySomeone(s, m)
    requires s.job.value.state == Queued || (s.job.value.state == Rendering && s.job.value.leaseUntil.Some?)
    ensures CanEnd(s)
  {
    hide CanEnd;
    if Claimable(s) {
      DeliveryCanEnd(s, m);
    } else {
      var tick := Tick(s.job.value.leaseUntil.value);
      DeliveryCanEnd(Step(s, tick), m);
      CanEndByStep(s, tick);
    }
  }

  /** From every state of a run without overlapping deliveries in which the queue has not run out of deliveries, a
      job that is not over can still end, and succeed unless its Card is gone or its only requester already failed
      to send: there is no dead end. */
  lemma {:induction false} NoDeadEnd(states: seq<System>, actions: seq<Action>, i: nat)
    requires Exclusive(states, actions) && i < |states| && states[i].job.Some? && !Ended(states[i])
    requires states[i].queue.messages != {} ==> exists m :: Deliverable(states[i].queue, m)
    ensures exists t :: Leads(states[i], t) && Ended(t)
    ensures CanEnd(states[i]) || exists r :: r in states[i].requesters && states[i].requesters[r].Marking?
  {
    var s := states[i];
    NeverStranded(states, actions, i);
    RunKeepsInvariant(states, actions, i);
    ExclusiveNeverOverlaps(states, actions, i);
    hide CanEnd, Leads, Run, Exclusive;
    if m :| Deliverable(s.queue, m) {
      MessageCanEnd(s, m);
      CanEndEnds(s);
    } else {
      var r :| AboutToSend(s, r);
      if s.requesters[r].Sending? {
        var t := Step(s, Send(r, true, true));
        assert Deliverable(t.queue, s.queue.next);
        MessagesKept(s, Send(r, true, true));
        MessageCanEnd(t, s.queue.next);
        CanEndByStep(s, Send(r, true, true));
        CanEndEnds(s);
      } else {
        var t := Step(s, Mark(r));
        LeadsNowhere(t);
        LeadsByStep(s, Mark(r), t);
      }
    }
  }

  lemma {:induction false} CanEndEnds(s: System)
    requires CanEnd(s)
    ensures exists t :: Leads(s, t) && Ended(t)
  {
    hide Leads;
  }

  // ---------------------------------------------------------------- success

  lemma {:induction false} InvariantHasRecord(s: System)
    requires Invariant(s)
    ensures Record(s) && Messages(s) && RenderingIsServed(s)
  {
  }

  /** A job that has succeeded never changes again. */
  lemma {:induction false} SuccessIsFinal(states: seq<System>, actions: seq<Action>, i: nat, j: nat)
    requires Run(states, actions) && i <= j < |states| && HasSucceeded(states[i])
    ensures states[j].job == states[i].job
    decreases j
  {
    hide Step, Enabled, Invariant, Record, Messages, RenderingIsServed;
    if i < j {
      SuccessIsFinal(states, actions, i, j - 1);
      RunKeepsInvariant(states, actions, j - 1);
      assert Enabled(states[j - 1], actions[j - 1]) && states[j - 1 + 1] == Step(states[j - 1], actions[j - 1]);
      InvariantHasRecord(states[j - 1]);
      SucceededIsAbsorbing(states[j - 1], actions[j - 1]);
    }
  }

  /** The step that gives the stored Card its reference: it starts from the Card as stored, so it loses
      no edit, and leaves exactly one reference to the artifact. */
  ghost predicate Attaches(s: System, a: Action, t: System) {
    a.Attach? && s.artifact && s.card.Some? && t.card == Some(WithReference(s.card.value))
    && Count(t.card.value.refs, ARTIFACT) == 1
  }

  lemma {:induction false} AttachedBefore(states: seq<System>, actions: seq<Action>, i: nat)
    requires Run(states, actions) && i < |states| && states[i].attached
    ensures exists j :: 0 <= j < i && Attaches(states[j], actions[j], states[j + 1])
  {
    if i > 0 {
      var s, a := states[i - 1], actions[i - 1];
      assert Enabled(s, a) && states[i - 1 + 1] == Step(s, a);
      if s.attached {
        AttachedBefore(states, actions, i - 1);
      } else {
        RunKeepsInvariant(states, actions, i - 1);
        OnlyAttachingAttaches(s, a);
        AttachLosesNoEdit(s, a.w);
        AttachLeavesOneReference(s.card.value);
        assert Attaches(states[i - 1], actions[i - 1], states[i - 1 + 1]);
      }
    }
  }

  lemma {:induction false} OnlyAttachingAttaches(s: System, a: Action)
    requires Enabled(s, a) && !s.attached && Step(s, a).attached
    ensures a.Attach? && CardMatches(s.card, s.workers[a.w].card)
  {
    hide Without;
  }

  /** The artifact id is set exactly in succeeded; a job that has succeeded has its artifact, and an
      earlier step of the run put exactly one reference to it on the Card. */
  lemma {:induction false} SuccessWasEarned(states: seq<System>, actions: seq<Action>, i: nat)
    requires Run(states, actions) && i < |states| && states[i].job.Some?
    ensures states[i].job.value.artifactId == (if HasSucceeded(states[i]) then Some(ARTIFACT) else None)
    ensures HasSucceeded(states[i]) ==>
              states[i].artifact && exists j :: 0 <= j < i && Attaches(states[j], actions[j], states[j + 1])
  {
    RunKeepsInvariant(states, actions, i);
    if HasSucceeded(states[i]) { AttachedBefore(states, actions, i); }
  }

  // ---------------------------------------------------------------- leases

  ghost predicate AtomicClaims(states: seq<System>, actions: seq<Action>) {
    Run(states, actions) && forall i :: 0 <= i < |actions| ==> AtomicClaim(states[i], actions[i])
  }

  lemma {:induction false} RunKeepsLeases(states: seq<System>, actions: seq<Action>, i: nat)
    requires AtomicClaims(states, actions) && i < |states|
    ensures Leases(states[i])
  {
    hide Step, Enabled, Invariant, AtomicClaim;
    if i == 0 {
      InitialLeases(states[0]);
    } else {
      hide Leases, Initial;
      RunKeepsLeases(states, actions, i - 1);
      RunKeepsInvariant(states, actions, i - 1);
      InvariantHasRecord(states[i - 1]);
      assert Enabled(states[i - 1], actions[i - 1]) && states[i - 1 + 1] == Step(states[i - 1], actions[i - 1]);
      assert AtomicClaim(states[i - 1], actions[i - 1]);
      LeasesKept(states[i - 1], actions[i - 1]);
    }
  }

  lemma {:induction false} InitialLeases(s: System)
    requires Initial(s)
    ensures Leases(s)
  {
  }

  /** Worker w claimed once, and somebody else claimed after it. */
  ghost predicate TakenOver(s: System, w: nat) {
    w in s.workers && HoldsLease(s.workers[w]) && s.claim.Some? && s.claim.value.worker != w
  }

  /** A worker claims only once, so having been taken over lasts as long as the worker does. */
  lemma {:induction false} TakenOverLasts(states: seq<System>, actions: seq<Action>, i: nat, j: nat, w: nat)
    requires Run(states, actions) && i <= j < |states| && TakenOver(states[i], w)
    ensures w in states[j].workers && HoldsLease(states[j].workers[w]) ==> TakenOver(states[j], w)
    ensures w < states[j].nextWorker && (w in states[j].workers ==> HoldsLease(states[j].workers[w]) || states[j].workers[w].Done?)
    decreases j
  {
    hide Step, Enabled, Invariant;
    if i == j {
      RunKeepsInvariant(states, actions, i);
      InvariantHasRecord(states[i]);
    } else {
      TakenOverLasts(states, actions, i, j - 1, w);
      var s, a := states[j - 1], actions[j - 1];
      assert Enabled(s, a) && states[j - 1 + 1] == Step(s, a);
      PastClaimingLasts(s, a, w);
    }
  }

  lemma {:induction false} PastClaimingLasts(s: System, a: Action, w: nat)
    requires Enabled(s, a) && w < s.nextWorker
    requires w in s.workers ==> TakenOver(s, w) || s.workers[w].Done?
    ensures w < Step(s, a).nextWorker
    ensures w in Step(s, a).workers ==> TakenOver(Step(s, a), w) || Step(s, a).workers[w].Done?
  {
    hide Step;
    NumbersGrow(s, a);
    StepShape(s, a);
    if w in Step(s, a).workers {
      if a.Crash? && a.w == w {
        CrashDrops(s, w);
      } else if IsWorkerStep(a) && a.w == w {
        OwnStep(s, a);
      } else {
        OthersSame(s, a, w);
      }
    }
  }

  lemma {:induction false} NumbersGrow(s: System, a: Action)
    requires Enabled(s, a)
    ensures s.nextWorker <= Step(s, a).nextWorker
  {
    hide Step;
    if IsWorkerStep(a) {
      StepShape(s, a);
    } else if IsRequesterStep(a) {
      RequesterAddsNobody(s, a);
    } else {
      OutsideNumbersGrow(s, a);
    }
  }

  lemma {:induction false} RequesterAddsNobody(s: System, a: Action)
    requires Enabled(s, a) && IsRequesterStep(a)
    ensures Step(s, a).nextWorker == s.nextWorker
  {
    hide EntryStep, LocalStep, FinishStep, OutsideStep, Matches, CompareAndSet, Sent;
  }

  lemma {:induction false} OutsideNumbersGrow(s: System, a: Action)
    requires Enabled(s, a) && !IsWorkerStep(a) && !IsRequesterStep(a)
    ensures s.nextWorker <= Step(s, a).nextWorker
  {
    hide EntryStep, LocalStep, FinishStep, RequesterStep, HeldBySomeone;
  }

  ghost predicate OnItsWay(s: System, t: System, w: nat) {
    t.claim == s.claim && (w in t.workers ==> HoldsLease(t.workers[w]) || t.workers[w].Done?)
  }

  lemma {:induction false} OwnStep(s: System, a: Action)
    requires Enabled(s, a) && IsWorkerStep(a) && !a.Load? && !a.TryClaim?
    ensures OnItsWay(s, Step(s, a), a.w)
  {
    if IsLocal(a) { LocalIsOnItsWay(s, a); } else { FinishIsOnItsWay(s, a); }
    hide Step;
  }

  lemma {:induction false} LocalIsOnItsWay(s: System, a: Action)
    requires Enabled(s, a) && IsLocal(a)
    ensures OnItsWay(s, Step(s, a), a.w)
  {
    hide EntryStep, FinishStep, RequesterStep, OutsideStep;
  }

  lemma {:induction false} FinishIsOnItsWay(s: System, a: Action)
    requires Enabled(s, a) && IsFinish(a)
    ensures OnItsWay(s, Step(s, a), a.w)
  {
    hide EntryStep, LocalStep, RequesterStep, OutsideStep;
    hide Without, Matches, CompareAndSet;
  }

  /** With claims atomic, a worker whose lease was taken over never finishes the job, neither as
      succeeded nor as failed, however much later it tries. */
  lemma {:induction false} TakenOverNeverFinishes(states: seq<System>, actions: seq<Action>, i: nat, j: nat, w: nat)
    requires AtomicClaims(states, actions) && i <= j < |actions| && TakenOver(states[i], w)
    requires (actions[j].Succeed? || actions[j].FinishFailed?) && actions[j].w == w
    ensures states[j + 1].job == states[j].job
  {
    var s := states[j];
    assert Enabled(s, actions[j]) && states[j + 1] == Step(s, actions[j]);
    TakenOverLasts(states, actions, i, j, w);
    RunKeepsLeases(states, actions, j);
    assert Superseded(s, w) || HasSucceeded(s);
    if Superseded(s, w) { SupersededCannotFinish(s, w, actions[j].lost); }
  }
}
