// Workers that live shorter than their lease: however early they read the clock, none is ever taken over.
module BannerLifetimes {
  import opened Wrappers
  import opened BannerJobs
  import opened BannerProtocol
  import opened BannerSafety
  import opened BannerRuns

  /** The function timeout of the worker (infra/template.full.yaml), in milliseconds. */
  const LIFETIME_MS := 120000

  /** No worker lives longer than the timeout. */
  ghost predicate ShortLived(states: seq<System>, actions: seq<Action>) {
    Run(states, actions)
    && forall i, j, w :: 0 <= i <= j < |states| && w in states[i].workers && w in states[j].workers ==>
         states[j].clock <= states[i].clock + LIFETIME_MS
  }

  /** The worker was alive at this time or earlier. */
  ghost predicate AliveBy(states: seq<System>, i: nat, w: nat, time: int)
    requires i < |states|
  {
    exists k :: 0 <= k <= i && w in states[k].workers && states[k].clock <= time
  }

  /** A worker read its clock no earlier than it started. */
  ghost predicate Dated(states: seq<System>, i: nat)
    requires i < |states|
  {
    forall w :: w in states[i].workers ==>
      && (states[i].workers[w].Loaded? ==> AliveBy(states, i, w, states[i].workers[w].loadedAt))
      && (HoldsLease(states[i].workers[w]) ==> AliveBy(states, i, w, states[i].workers[w].lease - LEASE_MS))
  }

  /** Whoever believes to hold the lease is the latest claimer, and holds it, or has already succeeded. */
  ghost predicate Sole(s: System) {
    forall w :: w in s.workers && HoldsLease(s.workers[w]) ==> Owns(s, w)
  }

  ghost predicate Owns(s: System, w: nat)
    requires w in s.workers && HoldsLease(s.workers[w])
  {
    s.claim.Some? && s.claim.value.worker == w && (Matches(s.job, Seen(s.workers[w].lease)) || HasSucceeded(s))
  }

  // ---------------------------------------------------------------- dates

  lemma {:induction false} AliveStays(states: seq<System>, i: nat, w: nat, time: int, later: int)
    requires i + 1 < |states| && AliveBy(states, i, w, time) && time <= later
    ensures AliveBy(states, i + 1, w, later)
  {
    var k :| 0 <= k <= i && w in states[k].workers && states[k].clock <= time;
    assert 0 <= k <= i + 1;
  }

  /** Where a worker stands after one step: as before, a reader since now, or a claimer since it read. */
  ghost predicate Moved(s: System, t: System, w: nat)
    requires w in t.workers
  {
    var after := t.workers[w];
    && (after.Loaded? ==> w in s.workers && (s.workers[w] == after || s.clock <= after.loadedAt))
    && (HoldsLease(after) ==>
          w in s.workers
          && ((HoldsLease(s.workers[w]) && after.lease == s.workers[w].lease)
              || (s.workers[w].Loaded? && s.workers[w].loadedAt <= after.lease - LEASE_MS)))
  }

  lemma {:induction false} WorkersMove(s: System, a: Action, w: nat)
    requires Enabled(s, a) && w in Step(s, a).workers
    ensures Moved(s, Step(s, a), w)
  {
    hide Step, Enabled;
    if IsWorkerStep(a) && a.w == w {
      OwnMove(s, a);
    } else if a.Deliver? && w == s.nextWorker {
      DeliveredMove(s, a.message);
    } else {
      OthersStay(s, a, w);
    }
  }

  lemma {:induction false} DeliveredMove(s: System, m: nat)
    requires Enabled(s, Deliver(m)) && s.nextWorker in Step(s, Deliver(m)).workers
    ensures Moved(s, Step(s, Deliver(m)), s.nextWorker)
  {
    hide EntryStep, LocalStep, FinishStep, RequesterStep;
    hide HeldBySomeone;
  }

  lemma {:induction false} OthersStay(s: System, a: Action, w: nat)
    requires Enabled(s, a) && w in Step(s, a).workers && !(IsWorkerStep(a) && a.w == w) && !(a.Deliver? && w == s.nextWorker)
    ensures Moved(s, Step(s, a), w)
  {
    hide Step, Enabled;
    OthersSame(s, a, w);
  }

  lemma {:induction false} OwnMove(s: System, a: Action)
    requires Enabled(s, a) && IsWorkerStep(a) && a.w in Step(s, a).workers
    ensures Moved(s, Step(s, a), a.w)
  {
    hide Step, Moved;
    if IsEntry(a) {
      EntryMove(s, a);
    } else if IsLocal(a) {
      LocalMove(s, a);
    } else {
      StoreMove(s, a);
    }
  }

  lemma {:induction false} EntryMove(s: System, a: Action)
    requires Enabled(s, a) && IsEntry(a) && a.w in Step(s, a).workers
    ensures Moved(s, Step(s, a), a.w)
  {
    hide LocalStep, FinishStep, RequesterStep, OutsideStep;
    hide Matches, CompareAndSet;
  }

  lemma {:induction false} LocalMove(s: System, a: Action)
    requires Enabled(s, a) && IsLocal(a) && a.w in Step(s, a).workers
    ensures Moved(s, Step(s, a), a.w)
  {
    hide EntryStep, FinishStep, RequesterStep, OutsideStep;
    LocalStepKeepsLease(s, a);
    hide Step;
  }

  lemma {:induction false} StoreMove(s: System, a: Action)
    requires Enabled(s, a) && IsFinish(a) && a.w in Step(s, a).workers
    ensures Moved(s, Step(s, a), a.w)
  {
    hide EntryStep, LocalStep, RequesterStep, OutsideStep;
    StoreStepKeepsLease(s, a);
    hide Step;
  }

  lemma {:induction false} DatesKept(states: seq<System>, i: nat, a: Action)
    requires i + 1 < |states| && Enabled(states[i], a) && states[i + 1] == Step(states[i], a) && Dated(states, i)
    ensures Dated(states, i + 1)
  {
    hide Step, Enabled, AliveBy, Moved;
    var s, t := states[i], states[i + 1];
    forall w | w in t.workers
      ensures t.workers[w].Loaded? ==> AliveBy(states, i + 1, w, t.workers[w].loadedAt)
      ensures HoldsLease(t.workers[w]) ==> AliveBy(states, i + 1, w, t.workers[w].lease - LEASE_MS)
    {
      WorkersMove(s, a, w);
      DateKept(states, i, w);
    }
  }

  lemma {:induction false} DateKept(states: seq<System>, i: nat, w: nat)
    requires i + 1 < |states| && Dated(states, i) && w in states[i + 1].workers && Moved(states[i], states[i + 1], w)
    ensures states[i + 1].workers[w].Loaded? ==> AliveBy(states, i + 1, w, states[i + 1].workers[w].loadedAt)
    ensures HoldsLease(states[i + 1].workers[w]) ==> AliveBy(states, i + 1, w, states[i + 1].workers[w].lease - LEASE_MS)
  {
    hide AliveBy;
    var s, after := states[i], states[i + 1].workers[w];
    if after.Loaded? {
      if s.workers[w] == after {
        AliveStays(states, i, w, after.loadedAt, after.loadedAt);
      } else {
        AliveNow(states, i, w);
        AliveStays(states, i, w, s.clock, after.loadedAt);
      }
    }
    if HoldsLease(after) {
      var before := s.workers[w];
      AliveStays(states, i, w, if HoldsLease(before) then before.lease - LEASE_MS else before.loadedAt, after.lease - LEASE_MS);
    }
  }

  lemma {:induction false} AliveNow(states: seq<System>, i: nat, w: nat)
    requires i < |states| && w in states[i].workers
    ensures AliveBy(states, i, w, states[i].clock)
  {
  }

  // ---------------------------------------------------------------- nobody is taken over

  /** A worker that holds a lease has not outlived it. */
  lemma {:induction false} LeaseIsActive(states: seq<System>, actions: seq<Action>, i: nat, w: nat)
    requires ShortLived(states, actions) && i < |states| && Dated(states, i) && w in states[i].workers && HoldsLease(states[i].workers[w])
    ensures states[i].clock < states[i].workers[w].lease
  {
    hide Run;
    assert AliveBy(states, i, w, states[i].workers[w].lease - LEASE_MS);
    var k :| 0 <= k <= i && w in states[k].workers && states[k].clock <= states[i].workers[w].lease - LEASE_MS;
    assert states[i].clock <= states[k].clock + LIFETIME_MS;
  }

  /** A claim goes through only while nobody holds the lease. */
  lemma {:induction false} ClaimNeedsNoHolder(s: System, w: nat, checkedAt: int, leasedAt: int)
    requires Record(s) && Sole(s) && Enabled(s, TryClaim(w, checkedAt, leasedAt)) && w in Step(s, TryClaim(w, checkedAt, leasedAt)).workers
    requires forall v :: v in s.workers && HoldsLease(s.workers[v]) ==> s.clock < s.workers[v].lease
    ensures forall v :: v in s.workers ==> !HoldsLease(s.workers[v])
    ensures Sole(Step(s, TryClaim(w, checkedAt, leasedAt)))
  {
    hide LocalStep, FinishStep, RequesterStep, OutsideStep;
    forall v | v in s.workers ensures !HoldsLease(s.workers[v]) {
      assert HoldsLease(s.workers[v]) ==> Owns(s, v);
    }
    hide Sole;
    ClaimIsSole(s, w, checkedAt, leasedAt);
  }

  lemma {:induction false} ClaimIsSole(s: System, w: nat, checkedAt: int, leasedAt: int)
    requires Enabled(s, TryClaim(w, checkedAt, leasedAt)) && w in Step(s, TryClaim(w, checkedAt, leasedAt)).workers
    requires forall v :: v in s.workers ==> !HoldsLease(s.workers[v])
    ensures Sole(Step(s, TryClaim(w, checkedAt, leasedAt)))
  {
    hide LocalStep, FinishStep, RequesterStep, OutsideStep;
  }

  lemma {:induction false} SoleKept(s: System, a: Action)
    requires Record(s) && Messages(s) && Sole(s) && Enabled(s, a) && !(a.TryClaim? && a.w in Step(s, a).workers)
    ensures Sole(Step(s, a))
  {
    hide Step, Enabled, Sole, Record;
    if IsWorkerStep(a) {
      SoleKeptByWorker(s, a);
    } else {
      SoleKeptByOthers(s, a);
    }
  }

  lemma {:induction false} SoleKeptByOthers(s: System, a: Action)
    requires Record(s) && Messages(s) && Sole(s) && Enabled(s, a) && !IsWorkerStep(a)
    ensures Sole(Step(s, a))
  {
    var t := Step(s, a);
    JobUnderHolders(s, a);
    StepShape(s, a);
    hide Step, Enabled, Record, Messages;
    forall w | w in t.workers && HoldsLease(t.workers[w]) ensures Owns(t, w) {
      WorkersMove(s, a, w);
      OthersMoveNobody(s, a, w);
      assert Owns(s, w);
    }
  }

  lemma {:induction false} OthersMoveNobody(s: System, a: Action, w: nat)
    requires Enabled(s, a) && !IsWorkerStep(a) && w in Step(s, a).workers && HoldsLease(Step(s, a).workers[w])
    ensures w in s.workers && Step(s, a).workers[w] == s.workers[w]
  {
    if a.Deliver? && w == s.nextWorker { DeliveredIsReceived(s, a.message); } else { OthersSame(s, a, w); }
    hide Step, Enabled;
  }

  lemma {:induction false} DeliveredIsReceived(s: System, m: nat)
    requires Enabled(s, Deliver(m))
    ensures s.nextWorker in Step(s, Deliver(m)).workers && Step(s, Deliver(m)).workers[s.nextWorker].Received?
  {
    hide EntryStep, LocalStep, FinishStep, RequesterStep;
    hide HeldBySomeone;
  }

  /** Requesters and the queue leave a job alone while its lease is held or it has succeeded. */
  lemma {:induction false} JobUnderHolders(s: System, a: Action)
    requires Record(s) && Enabled(s, a) && !IsWorkerStep(a)
    ensures s.job.Some? && (s.job.value.state == Rendering || s.job.value.state == Succeeded) ==> Step(s, a).job == s.job
  {
    if IsRequesterStep(a) { RequesterJob(s, a); hide Step; } else { QueueJob(s, a); }
  }

  lemma {:induction false} SoleKeptByWorker(s: System, a: Action)
    requires Record(s) && Sole(s) && Enabled(s, a) && IsWorkerStep(a) && !(a.TryClaim? && a.w in Step(s, a).workers)
    ensures Sole(Step(s, a))
  {
    hide Step, Record;
    var t := Step(s, a);
    assert IsFinish(a) ==> Owns(s, a.w);
    WorkerEffect(s, a);
    StepShape(s, a);
    if a.w in t.workers { FinisherIsDone(s, a); }
    forall w | w in t.workers && HoldsLease(t.workers[w]) ensures Owns(t, w) {
      if w == a.w { WorkersMove(s, a, w); }
      assert Owns(s, w);
    }
  }

  /** A worker that has ended the job goes on holding the lease only after a success whose answer was lost. */
  lemma {:induction false} FinisherIsDone(s: System, a: Action)
    requires Enabled(s, a) && IsWorkerStep(a) && a.w in Step(s, a).workers
    ensures a.FinishFailed? ==> !HoldsLease(Step(s, a).workers[a.w])
    ensures a.Load? || a.TryClaim? ==> !HoldsLease(s.workers[a.w])
    ensures !a.TryClaim? && HoldsLease(Step(s, a).workers[a.w]) ==>
              HoldsLease(s.workers[a.w]) && Step(s, a).workers[a.w].lease == s.workers[a.w].lease
  {
    hide Without;
  }

  lemma {:induction false} RunIsSole(states: seq<System>, actions: seq<Action>, i: nat)
    requires ShortLived(states, actions) && i < |states|
    ensures Dated(states, i) && Sole(states[i])
  {
    hide Step, Enabled, Invariant, Dated, Sole, ShortLived;
    if i == 0 {
      FirstIsSole(states, actions);
    } else {
      RunIsSole(states, actions, i - 1);
      RunLength(states, actions);
      var s, a := states[i - 1], actions[i - 1];
      StepOf(states, actions, i - 1);
      RunKeepsInvariant(states, actions, i - 1);
      InvariantHasRecord(s);
      DatesKept(states, i - 1, a);
      if a.TryClaim? && a.w in states[i].workers {
        forall v | v in s.workers && HoldsLease(s.workers[v]) ensures s.clock < s.workers[v].lease {
          LeaseIsActive(states, actions, i - 1, v);
        }
        ClaimNeedsNoHolder(s, a.w, a.checkedAt, a.leasedAt);
      } else {
        SoleKept(s, a);
      }
    }
  }

  lemma {:induction false} FirstIsSole(states: seq<System>, actions: seq<Action>)
    requires ShortLived(states, actions)
    ensures |states| > 0 && Dated(states, 0) && Sole(states[0])
  {
  }

  lemma {:induction false} RunLength(states: seq<System>, actions: seq<Action>)
    requires ShortLived(states, actions)
    ensures |states| == |actions| + 1
  {
  }

  lemma {:induction false} StepOf(states: seq<System>, actions: seq<Action>, i: nat)
    requires ShortLived(states, actions) && i < |actions|
    ensures Run(states, actions) && |states| == |actions| + 1
    ensures Enabled(states[i], actions[i]) && states[i + 1] == Step(states[i], actions[i])
  {
  }

  /** While no worker outlives the function timeout, no live worker is ever taken over, however early workers read
      their clocks and whatever the queue does: whoever finishes the job finishes its own claim of it. */
  lemma {:induction false} NobodyIsTakenOver(states: seq<System>, actions: seq<Action>, i: nat, w: nat)
    requires ShortLived(states, actions) && i < |states|
    ensures !TakenOver(states[i], w)
    ensures w in states[i].workers && HoldsLease(states[i].workers[w]) ==>
              Matches(states[i].job, Seen(states[i].workers[w].lease)) || HasSucceeded(states[i])
  {
    hide ShortLived, Matches;
    RunIsSole(states, actions, i);
    assert w in states[i].workers && HoldsLease(states[i].workers[w]) ==> Owns(states[i], w);
  }
}
