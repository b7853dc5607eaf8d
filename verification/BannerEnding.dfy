// From which states of the banner protocol a job can still end, whatever the queue and the requesters did.
module BannerEnding {
  import opened Wrappers
  import opened BannerJobs
  import opened BannerProtocol
  import opened BannerSafety
  import opened BannerRuns

  /** t can follow s by steps of any kind. */
  ghost predicate Reaches(s: System, t: System) {
    exists states: seq<System>, actions: seq<Action> ::
      Segment(states, actions) && states[0] == s && states[|actions|] == t
  }

  lemma {:induction false} ReachesItself(s: System)
    ensures Reaches(s, s)
  {
    assert Segment([s], []);
  }

  lemma {:induction false} ReachesByStep(s: System, a: Action, t: System)
    requires Enabled(s, a) && Reaches(Step(s, a), t)
    ensures Reaches(s, t)
  {
    hide Enabled, Step;
    var states, actions :| Segment(states, actions) && states[0] == Step(s, a) && states[|actions|] == t;
    var longer, more := [s] + states, [a] + actions;
    forall i | 0 <= i < |more| ensures Enabled(longer[i], more[i]) && longer[i + 1] == Step(longer[i], more[i]) {
      if i > 0 {
        assert longer[i] == states[i - 1] && more[i] == actions[i - 1] && longer[i + 1] == states[i - 1 + 1];
      }
    }
    assert Segment(longer, more) && longer[|more|] == t;
  }

  ghost predicate CanStillEnd(s: System) {
    exists t :: Reaches(s, t) && Ended(t)
  }

  lemma {:induction false} EndsByStep(s: System, a: Action)
    requires Enabled(s, a) && (Ended(Step(s, a)) || CanStillEnd(Step(s, a)))
    ensures CanStillEnd(s)
  {
    hide Enabled, Step, Reaches, Ended;
    var next := Step(s, a);
    if Ended(next) {
      ReachesItself(next);
      ReachesByStep(s, a, next);
    } else {
      var t :| Reaches(next, t) && Ended(t);
      ReachesByStep(s, a, t);
    }
  }

  /** Someone can still act on a rendering job: a message can still be delivered or is about to be sent, a worker has yet to read
      the job or has read it as it is, or the worker that holds its lease is alive. */
  ghost predicate HasHelper(s: System) {
    || (exists m :: Deliverable(s.queue, m))
    || (exists r :: r in s.requesters && s.requesters[r].Sending?)
    || (exists w :: w in s.workers && CanAct(s, s.workers[w]))
  }

  predicate CanAct(s: System, worker: Worker) {
    worker.Received? || (worker.Loaded? && Matches(s.job, worker.seen)) || (HoldsLease(worker) && Matches(s.job, Seen(worker.lease)))
  }

  ghost predicate Stranded(s: System) {
    s.job.Some? && s.job.value.state == Rendering && !HasHelper(s)
  }

  // ---------------------------------------------------------------- stranded jobs stay stranded

  /** Nothing changes a stranded job, new requests included: they find a job that is being rendered. */
  lemma {:induction false} StrandedForever(s: System, a: Action)
    requires Record(s) && Stranded(s) && Enabled(s, a)
    ensures Stranded(Step(s, a)) && Step(s, a).job == s.job
  {
    hide HasHelper, Record;
    if IsWorkerStep(a) {
      assert a.w in s.workers && !CanAct(s, s.workers[a.w]) by { NobodyActs(s, a.w); }
      StrandedWorker(s, a);
    } else if IsRequesterStep(a) {
      StrandedRequester(s, a);
    } else {
      StrandedQueue(s, a);
    }
  }

  lemma {:induction false} NobodyActs(s: System, w: nat)
    requires !HasHelper(s) && w in s.workers
    ensures !CanAct(s, s.workers[w])
  {
  }

  lemma {:induction false} StrandedWorker(s: System, a: Action)
    requires Stranded(s) && Enabled(s, a) && IsWorkerStep(a) && a.w in s.workers && !CanAct(s, s.workers[a.w])
    ensures Stranded(Step(s, a)) && Step(s, a).job == s.job
  {
    StepShape(s, a);
    HelplessStep(s, a);
    var t := Step(s, a);
    hide Step, Enabled, Matches;
    forall w | w in t.workers ensures !CanAct(t, t.workers[w]) {
      if w != a.w { assert t.workers[w] == s.workers[w]; }
    }
  }

  /** A worker that cannot act leaves the job alone and cannot act afterwards. */
  ghost predicate LeftAlone(s: System, t: System, w: nat) {
    t.job == s.job && (w in t.workers ==> !CanAct(t, t.workers[w]))
  }

  lemma {:induction false} HelplessStep(s: System, a: Action)
    requires s.job.Some? && s.job.value.state == Rendering && Enabled(s, a) && IsWorkerStep(a) && !CanAct(s, s.workers[a.w])
    ensures LeftAlone(s, Step(s, a), a.w)
  {
    hide Step, CanAct, LeftAlone;
    if IsEntry(a) {
      HelplessEntry(s, a);
    } else if IsLocal(a) {
      HelplessLocal(s, a);
    } else if a.Attach? {
      HelplessAttach(s, a.w);
    } else {
      HelplessFinish(s, a);
    }
  }

  lemma {:induction false} HelplessEntry(s: System, a: Action)
    requires s.job.Some? && s.job.value.state == Rendering && Enabled(s, a) && IsEntry(a) && !CanAct(s, s.workers[a.w])
    ensures LeftAlone(s, Step(s, a), a.w)
  {
    hide LocalStep, FinishStep, RequesterStep, OutsideStep;
    hide Matches, CompareAndSet;
  }

  lemma {:induction false} HelplessLocal(s: System, a: Action)
    requires s.job.Some? && s.job.value.state == Rendering && Enabled(s, a) && IsLocal(a) && !CanAct(s, s.workers[a.w])
    ensures LeftAlone(s, Step(s, a), a.w)
  {
    hide EntryStep, FinishStep, RequesterStep, OutsideStep;
    hide Matches;
  }

  lemma {:induction false} HelplessAttach(s: System, w: nat)
    requires s.job.Some? && s.job.value.state == Rendering && Enabled(s, Attach(w)) && !CanAct(s, s.workers[w])
    ensures LeftAlone(s, Step(s, Attach(w)), w)
  {
    hide EntryStep, LocalStep, RequesterStep, OutsideStep;
    hide Matches, Without;
  }

  lemma {:induction false} HelplessFinish(s: System, a: Action)
    requires s.job.Some? && s.job.value.state == Rendering && Enabled(s, a) && (a.Succeed? || a.FinishFailed?)
    requires !CanAct(s, s.workers[a.w])
    ensures LeftAlone(s, Step(s, a), a.w)
  {
    hide EntryStep, LocalStep, RequesterStep, OutsideStep;
    hide Matches;
  }

  lemma {:induction false} StrandedRequester(s: System, a: Action)
    requires Record(s) && Stranded(s) && Enabled(s, a) && IsRequesterStep(a)
    ensures Stranded(Step(s, a)) && Step(s, a).job == s.job
  {
    hide EntryStep, LocalStep, FinishStep, OutsideStep;
    RequesterJob(s, a);
    StrandedAsker(s, a);
    hide Step, Enabled, Matches;
  }

  lemma {:induction false} StrandedAsker(s: System, a: Action)
    requires Stranded(s) && Enabled(s, a) && IsRequesterStep(a)
    requires RequesterDid(s, Step(s, a))
    ensures (forall m :: !Deliverable(Step(s, a).queue, m)) && forall r :: r in Step(s, a).requesters ==> !Step(s, a).requesters[r].Sending?
  {
    hide EntryStep, LocalStep, FinishStep, OutsideStep;
    hide CanAct;
  }

  lemma {:induction false} StrandedQueue(s: System, a: Action)
    requires Stranded(s) && Enabled(s, a) && !IsWorkerStep(a) && !IsRequesterStep(a)
    ensures Stranded(Step(s, a)) && Step(s, a).job == s.job
  {
    hide Step;
    if !a.Deliver? {
      QueueShrinks(s, a);
      StrandedCarriesOver(s, Step(s, a));
    }
  }

  lemma {:induction false} StrandedCarriesOver(s: System, t: System)
    requires Stranded(s) && t.job == s.job && t.requesters == s.requesters && t.queue.receives == s.queue.receives
    requires t.queue.messages <= s.queue.messages && t.workers.Keys <= s.workers.Keys
    requires forall w :: w in t.workers ==> t.workers[w] == s.workers[w]
    ensures Stranded(t)
  {
    hide Matches;
    forall m ensures !Deliverable(t.queue, m) { assert !Deliverable(s.queue, m); }
    forall w | w in t.workers ensures !CanAct(t, t.workers[w]) { assert w in s.workers && !CanAct(s, s.workers[w]); }
  }

  /** Without a delivery nothing outside workers and requesters makes anyone able to act. */
  lemma {:induction false} QueueShrinks(s: System, a: Action)
    requires Enabled(s, a) && !IsWorkerStep(a) && !IsRequesterStep(a) && !a.Deliver?
    ensures var t := Step(s, a);
            t.job == s.job && t.requesters == s.requesters && t.queue.receives == s.queue.receives
            && t.queue.messages <= s.queue.messages && t.workers.Keys <= s.workers.Keys
            && forall w :: w in t.workers ==> t.workers[w] == s.workers[w]
  {
    hide EntryStep, LocalStep, FinishStep, RequesterStep;
  }

  lemma {:induction false} StrandedNeverEnds(states: seq<System>, actions: seq<Action>, i: nat)
    requires Segment(states, actions) && i < |states| && Record(states[0]) && Stranded(states[0])
    ensures Record(states[i]) && Stranded(states[i])
  {
    hide Stranded, Step, Enabled, Record;
    if i > 0 {
      StrandedNeverEnds(states, actions, i - 1);
      assert Enabled(states[i - 1], actions[i - 1]) && states[i - 1 + 1] == Step(states[i - 1], actions[i - 1]);
      StrandedForever(states[i - 1], actions[i - 1]);
      RecordKept(states[i - 1], actions[i - 1]);
    }
  }

  // ---------------------------------------------------------------- all others can end

  lemma {:induction false} HolderCanEnd(s: System, w: nat)
    requires w in s.workers && HoldsLease(s.workers[w]) && Matches(s.job, Seen(s.workers[w].lease))
    ensures CanStillEnd(s)
  {
    hide CanStillEnd, Without;
    var t := Step(s, Fail(w));
    assert t.workers[w] == Failing(s.workers[w].message, s.workers[w].lease) && t.job == s.job;
    EndsByStep(t, FinishFailed(w, false));
    EndsByStep(s, Fail(w));
  }

  function Later(a: int, b: int): int {
    if a < b then b else a
  }

  /** A time at which a lease is over and a worker may claim. */
  function TimeToClaim(s: System, loadedAt: int): int {
    Later(Later(s.clock, loadedAt), if s.job.Some? && s.job.value.leaseUntil.Some? then s.job.value.leaseUntil.value else 0)
  }

  lemma {:induction false} ReaderCanEnd(s: System, w: nat)
    requires w in s.workers && s.workers[w].Loaded? && Matches(s.job, s.workers[w].seen)
    requires s.job.value.state == Queued || s.job.value.state == Rendering
    ensures CanStillEnd(s)
  {
    hide CanStillEnd;
    var now := TimeToClaim(s, s.workers[w].loadedAt);
    var later := Step(s, Tick(now));
    var claim := TryClaim(w, now, now);
    var t := Step(later, claim);
    assert Matches(t.job, Seen(t.workers[w].lease)) && HoldsLease(t.workers[w]);
    HolderCanEnd(t, w);
    EndsByStep(later, claim);
    EndsByStep(s, Tick(now));
  }

  lemma {:induction false} ReceiverCanEnd(s: System, w: nat)
    requires w in s.workers && s.workers[w].Received? && s.job.Some?
    requires s.job.value.state == Queued || s.job.value.state == Rendering
    ensures CanStillEnd(s)
  {
    hide CanStillEnd;
    var t := Step(s, Load(w));
    assert t.workers[w] == Loaded(s.workers[w].message, s.job.value, s.clock);
    ReaderCanEnd(t, w);
    EndsByStep(s, Load(w));
  }

  lemma {:induction false} MessageLetsEnd(s: System, m: nat)
    requires Deliverable(s.queue, m) && s.job.Some? && (s.job.value.state == Queued || s.job.value.state == Rendering)
    ensures CanStillEnd(s)
  {
    hide CanStillEnd, HeldBySomeone;
    var t := Step(s, Deliver(m));
    assert t.workers[s.nextWorker] == Received(m);
    ReceiverCanEnd(t, s.nextWorker);
    EndsByStep(s, Deliver(m));
  }

  lemma {:induction false} SenderCanEnd(s: System, r: nat)
    requires Messages(s) && r in s.requesters && s.requesters[r].Sending?
    requires s.job.Some? && (s.job.value.state == Queued || s.job.value.state == Rendering)
    ensures CanStillEnd(s)
  {
    hide CanStillEnd;
    var t := Step(s, Send(r, true, true));
    assert Deliverable(t.queue, s.queue.next);
    MessageLetsEnd(t, s.queue.next);
    EndsByStep(s, Send(r, true, true));
  }

  lemma {:induction false} UnusedNumber(used: set<nat>) returns (r: nat)
    ensures r !in used && forall u :: u in used ==> u < r
  {
    if used == {} {
      r := 0;
    } else {
      var u :| u in used;
      r := UnusedNumber(used - {u});
      assert used == used - {u} + {u};
      if u >= r { r := u + 1; }
    }
  }

  /** A new request sends a message for a queued job. */
  lemma {:induction false} QueuedCanEnd(s: System)
    requires Messages(s) && s.job.Some? && s.job.value.state == Queued
    ensures CanStillEnd(s)
  {
    hide CanStillEnd;
    var r := UnusedNumber(s.requesters.Keys);
    var s1 := Step(s, Request(r));
    var s2 := Step(s1, Put(r));
    var s3 := Step(s2, Get(r));
    assert s1.requesters[r].Start? && s2.requesters[r].Lost? && s3.requesters[r].Sending? && s3.job == s.job;
    SenderCanEnd(s3, r);
    EndsByStep(s2, Get(r));
    EndsByStep(s1, Put(r));
    EndsByStep(s, Request(r));
  }

  lemma {:induction false} HelpedCanEnd(s: System)
    requires Messages(s) && HasHelper(s) && s.job.Some? && s.job.value.state == Rendering
    ensures CanStillEnd(s)
  {
    hide CanStillEnd;
    if m :| Deliverable(s.queue, m) {
      MessageLetsEnd(s, m);
    } else if r :| r in s.requesters && s.requesters[r].Sending? {
      SenderCanEnd(s, r);
    } else {
      var w :| w in s.workers && CanAct(s, s.workers[w]);
      if s.workers[w].Received? {
        ReceiverCanEnd(s, w);
      } else if s.workers[w].Loaded? {
        ReaderCanEnd(s, w);
      } else {
        HolderCanEnd(s, w);
      }
    }
  }

  /** In every state of every run, overlapping deliveries and dead requesters included, a job that is not over can
      still end exactly unless it is stranded: a queued one always can, a rendering one exactly while someone
      can still act on it. */
  lemma {:induction false} StillEndsExactly(states: seq<System>, actions: seq<Action>, i: nat)
    requires Run(states, actions) && i < |states| && states[i].job.Some? && !Ended(states[i])
    ensures CanStillEnd(states[i]) <==> !Stranded(states[i])
  {
    hide Run, Stranded, CanStillEnd, Invariant;
    RunKeepsInvariant(states, actions, i);
    InvariantHasRecord(states[i]);
    EndsExactly(states[i]);
  }

  lemma {:induction false} EndsExactly(s: System)
    requires Record(s) && Messages(s) && s.job.Some? && !Ended(s)
    ensures CanStillEnd(s) <==> !Stranded(s)
  {
    hide Reaches, Record, HasHelper;
    if Stranded(s) {
      forall t | Reaches(s, t) ensures !Ended(t) { StrandedReaches(s, t); }
    } else if s.job.value.state == Queued {
      QueuedCanEnd(s);
    } else {
      HelpedCanEnd(s);
    }
  }

  lemma {:induction false} StrandedReaches(s: System, t: System)
    requires Record(s) && Stranded(s) && Reaches(s, t)
    ensures Stranded(t)
  {
    hide Stranded, Record;
    var states, actions :| Segment(states, actions) && states[0] == s && states[|actions|] == t;
    StrandedNeverEnds(states, actions, |actions|);
  }

  // ---------------------------------------------------------------- who can finish

  /** A worker's finish changes the job exactly when the job is rendering under the worker's own lease. */
  lemma {:induction false} FinishesExactly(s: System, w: nat, lost: bool)
    ensures Enabled(s, Succeed(w, lost)) ==>
              (Step(s, Succeed(w, lost)).job != s.job <==> Matches(s.job, Seen(s.workers[w].lease)))
    ensures Enabled(s, FinishFailed(w, lost)) ==>
              (Step(s, FinishFailed(w, lost)).job != s.job <==> Matches(s.job, Seen(s.workers[w].lease)))
  {
  }
}
