// Runs that show why the theorems about banner jobs need exclusive delivery, living requesters and a clock read at
// the claim.
module BannerCounterexamples {
  import opened Wrappers
  import opened BannerJobs
  import opened BannerProtocol
  import opened BannerSafety
  import opened BannerRuns
  import opened BannerEnding

  ghost predicate Reachable(s: System) {
    exists states: seq<System>, actions: seq<Action> :: Run(states, actions) && states[|actions|] == s
  }

  lemma {:induction false} ReachedByStep(s: System, a: Action)
    requires Reachable(s) && Enabled(s, a)
    ensures Reachable(Step(s, a))
  {
    hide Enabled, Step, Initial;
    var states, actions :| Run(states, actions) && states[|actions|] == s;
    var longer, more := states + [Step(s, a)], actions + [a];
    forall i | 0 <= i < |more|
      ensures Enabled(longer[i], more[i]) && longer[i + 1] == Step(longer[i], more[i])
    {
      if i < |actions| {
        assert Enabled(states[i], actions[i]) && states[i + 1] == Step(states[i], actions[i]);
        assert longer[i] == states[i] && more[i] == actions[i] && longer[i + 1] == states[i + 1];
      }
    }
    assert Run(longer, more) && longer[|more|] == Step(s, a);
  }

  function Empty(): System {
    System(0, None, false, None, Queue({}, 0, map[], {}), map[], map[], 0, None, {}, false, false)
  }

  lemma {:induction false} EmptyIsReachable()
    ensures Reachable(Empty())
  {
    assert Run([Empty()], []);
  }

  /** The first requester has inserted the job and sent message 0. */
  lemma {:induction false} FirstRequest() returns (s: System)
    ensures Reachable(s)
    ensures s == Empty().(job := Some(Job(Queued, None, None)), queue := Queue({0}, 1, map[], {}),
                          requesters := map[0 := Finished])
  {
    hide Reachable, EntryStep, LocalStep, FinishStep, OutsideStep, GetStep, ResetStep, MarkStep;
    EmptyIsReachable();
    s := Empty();
    ReachedByStep(s, Request(0)); s := Step(s, Request(0));
    ReachedByStep(s, Put(0)); s := Step(s, Put(0));
    ReachedByStep(s, Send(0, true, true)); s := Step(s, Send(0, true, true));
  }

  // ---------------------------------------------------------------- overlapping delivery

  /** The first worker has claimed. */
  lemma {:induction false} FirstClaim() returns (s: System)
    ensures Reachable(s)
    ensures s == Empty().(job := Some(Job(Rendering, Some(150000), None)), queue := Queue({0}, 1, map[0 := 1], {}),
                          requesters := map[0 := Finished], nextWorker := 1,
                          workers := map[0 := Claimed(0, 150000)], claim := Some(Claim(0, 0)))
  {
    hide Reachable, LocalStep, FinishStep, RequesterStep, GivenUp;
    s := FirstRequest();
    ReachedByStep(s, Deliver(0)); s := Step(s, Deliver(0));
    ReachedByStep(s, Load(0)); s := Step(s, Load(0));
    ReachedByStep(s, TryClaim(0, 0, 0)); s := Step(s, TryClaim(0, 0, 0));
  }

  /** A message is handed to the next worker just when the lease is over. */
  lemma {:induction false} NextClaims(s: System, m: nat) returns (t: System)
    requires Reachable(s) && Deliverable(s.queue, m) && s.job == Some(Job(Rendering, Some(s.clock), None))
    ensures Reachable(t) && t == NextClaim(s, m)
  {
    hide Reachable, LocalStep, FinishStep, RequesterStep, GivenUp, HeldBySomeone, Deliverable;
    var w := s.nextWorker;
    t := s;
    ReachedByStep(t, Deliver(m)); t := Step(t, Deliver(m));
    assert t == DeliverStep(s, m);
    ReachedByStep(t, Load(w)); t := Step(t, Load(w));
    assert t == SetWorker(DeliverStep(s, m), w, Loaded(m, s.job.value, s.clock));
    ReachedByStep(t, TryClaim(w, s.clock, s.clock)); t := Step(t, TryClaim(w, s.clock, s.clock));
    assert t.workers == NextClaim(s, m).workers;
  }

  function NextClaim(s: System, m: nat): System {
    var lease := s.clock + LEASE_MS;
    DeliverStep(s, m).(job := Some(Job(Rendering, Some(lease), None)), claim := Some(Claim(s.nextWorker, m)),
                       workers := s.workers[s.nextWorker := Claimed(m, lease)])
  }

  /** Worker 0 goes on while message 0 is handed to worker 1, which takes over when the lease ends. */
  lemma {:induction false} TakenOverAtExpiry() returns (s: System)
    ensures Reachable(s)
    ensures s.job == Some(Job(Rendering, Some(300000), None)) && s.queue.messages == {0} && !s.abandoned
    ensures s.requesters == map[0 := Finished] && s.workers == map[0 := Claimed(0, 150000), 1 := Claimed(0, 300000)]
  {
    hide Reachable, EntryStep, LocalStep, FinishStep, RequesterStep, GivenUp;
    s := FirstClaim();
    ReachedByStep(s, Tick(150000)); s := Step(s, Tick(150000));
    s := NextClaims(s, 0);
  }

  /** A worker fails and marks its job failed. */
  lemma {:induction false} Fails(s: System, w: nat) returns (t: System)
    requires Reachable(s) && w in s.workers && HoldsLease(s.workers[w])
    ensures Reachable(t) && t == FinishFailedStep(s, w, s.workers[w].message, s.workers[w].lease, false)
  {
    hide Reachable, EntryStep, RequesterStep, OutsideStep, AttachStep, SucceedStep, Matches, CompareAndSet;
    var failing := Failing(s.workers[w].message, s.workers[w].lease);
    ReachedByStep(s, Fail(w)); t := Step(s, Fail(w));
    assert t == SetWorker(s, w, failing);
    ReachedByStep(t, FinishFailed(w, false)); t := Step(t, FinishFailed(w, false));
    assert s.workers[w := failing][w := Done(failing.message)] == s.workers[w := Done(failing.message)];
  }

  /** Worker 0 fails to finish and deletes the message of both. */
  lemma {:induction false} TakenOverAndDeleted() returns (s: System)
    ensures Reachable(s)
    ensures s.job == Some(Job(Rendering, Some(300000), None)) && s.queue.messages == {} && !s.abandoned
    ensures s.requesters == map[0 := Finished] && s.workers == map[1 := Claimed(0, 300000)]
  {
    hide Reachable, EntryStep, LocalStep, FinishStep, RequesterStep, DeliverStep, GivenUp;
    s := TakenOverAtExpiry();
    s := Fails(s, 0);
    assert s.workers == map[0 := Done(0), 1 := Claimed(0, 300000)];
    ReachedByStep(s, Delete(0)); s := Step(s, Delete(0));
  }

  /** When a message can be delivered while a worker still holds it, a rendering job can be stranded for
      good although no requester died: the superseded worker deletes the message, then its successor
      crashes. */
  lemma {:induction false} OverlapStrandsAJob() returns (s: System)
    ensures Reachable(s) && !s.abandoned && Stranded(s)
  {
    s := TakenOverAndDeleted();
    hide Reachable;
    ReachedByStep(s, Crash(1));
    s := Step(s, Crash(1));
  }

  // ---------------------------------------------------------------- three crashes

  /** The message's next worker claims at the end of the last lease and crashes. */
  lemma {:induction false} ClaimsAndCrashes(s: System) returns (t: System)
    requires Reachable(s) && s.workers == map[] && Deliverable(s.queue, 0) && s.job == Some(Job(Rendering, Some(s.clock), None))
    ensures Reachable(t) && t.job == Some(Job(Rendering, Some(t.clock), None)) && t.requesters == s.requesters && t.workers == map[]
    ensures t.queue == s.queue.(receives := s.queue.receives[0 := Receives(s.queue, 0) + 1])
    ensures t.overlapped == s.overlapped && t.abandoned == s.abandoned
  {
    hide Reachable, EntryStep, FinishStep, RequesterStep, GivenUp;
    t := NextClaims(s, 0);
    assert t.workers == map[s.nextWorker := Claimed(0, s.clock + LEASE_MS)];
    t := Crashes(t, s.nextWorker, s.clock + LEASE_MS);
    assert t.workers == map[];
  }

  /** A worker crashes, and time goes by. */
  lemma {:induction false} Crashes(s: System, w: nat, now: int) returns (t: System)
    requires Reachable(s) && w in s.workers && s.clock <= now
    ensures Reachable(t) && t == s.(workers := s.workers - {w}, clock := now)
  {
    hide Reachable, EntryStep, FinishStep, RequesterStep, DeliverStep, GivenUp;
    ReachedByStep(s, Crash(w)); t := Step(s, Crash(w));
    ReachedByStep(t, Tick(now)); t := Step(t, Tick(now));
  }

  /** The first worker crashes too. */
  lemma {:induction false} FirstCrash() returns (s: System)
    ensures Reachable(s)
    ensures s == Empty().(clock := 150000, job := Some(Job(Rendering, Some(150000), None)), queue := Queue({0}, 1, map[0 := 1], {}),
                          requesters := map[0 := Finished], nextWorker := 1, claim := Some(Claim(0, 0)))
  {
    hide Reachable, EntryStep, FinishStep, RequesterStep, DeliverStep, GivenUp;
    s := FirstClaim();
    s := Crashes(s, 0, 150000);
  }

  /** Three crashes are enough to strand a rendering job, with no delivery overlapping another and no requester
      dead: the queue has handed out the message as often as it will, and gives up on it. */
  lemma {:induction false} ThreeCrashesStrandAJob() returns (s: System)
    ensures Reachable(s) && s.overlapped == {} && !s.abandoned && s.queue.deadLetters == {0} && Stranded(s)
  {
    hide Reachable, EntryStep, LocalStep, FinishStep, RequesterStep, DeliverStep, Stranded;
    s := FirstCrash();
    s := ClaimsAndCrashes(s);
    s := ClaimsAndCrashes(s);
    assert s.queue.receives == map[0 := 3];
    ReachedByStep(s, GiveUp(0)); s := Step(s, GiveUp(0));
    NobodyIsLeft(s);
  }

  lemma {:induction false} NobodyIsLeft(s: System)
    requires s.job.Some? && s.job.value.state == Rendering
    requires s.queue.messages == {} && s.workers == map[] && s.requesters == map[0 := Finished]
    ensures Stranded(s)
  {
  }

  // ---------------------------------------------------------------- a requester that dies

  /** A queued job without a message and without anyone about to send one. */
  ghost predicate Unserved(s: System) {
    s.job.Some? && s.job.value.state == Queued && s.queue.messages == {} && s.workers == map[] && s.requesters == map[]
  }

  /** A requester that dies between its insert and its message is enough to leave a queued job unserved. */
  lemma {:induction false} AbandonLeavesAJobUnserved() returns (s: System)
    ensures Reachable(s) && s.overlapped == {} && Unserved(s)
  {
    hide Reachable, EntryStep, LocalStep, FinishStep, OutsideStep, GetStep, ResetStep, SendStep, MarkStep;
    EmptyIsReachable();
    s := Empty();
    ReachedByStep(s, Request(0)); s := Step(s, Request(0));
    ReachedByStep(s, Put(0)); s := Step(s, Put(0));
    ReachedByStep(s, Abandon(0)); s := Step(s, Abandon(0));
    assert s.requesters == map[];
  }

  /** It stays unserved until somebody asks for the same banner again. */
  lemma {:induction false} UnservedUntilRequested(s: System, a: Action)
    requires Unserved(s) && Enabled(s, a) && !a.Request?
    ensures Unserved(Step(s, a)) && Step(s, a).job == s.job
  {
  }

  // ---------------------------------------------------------------- a clock read ahead of the claim

  /** Three requests found the job queued and each sent a message. */
  lemma {:induction false} ThreeRequests() returns (s: System)
    ensures Reachable(s)
    ensures s == Empty().(job := Some(Job(Queued, None, None)), queue := Queue({0, 1, 2}, 3, map[], {}),
                          requesters := map[0 := Finished, 1 := Finished, 2 := Finished])
  {
    s := FirstRequest();
    s := AnotherRequest(s, 1);
    s := AnotherRequest(s, 2);
  }

  lemma {:induction false} AnotherRequest(s: System, r: nat) returns (t: System)
    requires Reachable(s) && r !in s.requesters && s.job == Some(Job(Queued, None, None))
    ensures Reachable(t)
    ensures t == s.(queue := Sent(s.queue), requesters := s.requesters[r := Finished])
  {
    hide Reachable, EntryStep, LocalStep, FinishStep, OutsideStep, PutStep, ResetStep, MarkStep;
    t := Asks(s, r);
    ReachedByStep(t, Send(r, true, true)); t := Step(t, Send(r, true, true));
  }

  /** A new request up to what it makes of the job it finds. */
  lemma {:induction false} Asks(s: System, r: nat) returns (t: System)
    requires Reachable(s) && r !in s.requesters && s.job.Some?
    ensures Reachable(t) && t == GetStep(SetRequester(s, r, Lost), r)
  {
    hide Reachable, EntryStep, LocalStep, FinishStep, OutsideStep, GetStep, ResetStep, SendStep, MarkStep;
    t := s;
    ReachedByStep(t, Request(r)); t := Step(t, Request(r));
    ReachedByStep(t, Put(r)); t := Step(t, Put(r));
    assert t == SetRequester(s, r, Lost);
    ReachedByStep(t, Get(r)); t := Step(t, Get(r));
  }

  /** Workers 0 and 1 have read the queued job at time 0, and worker 0 has claimed it. */
  lemma {:induction false} TwoReaders() returns (s: System)
    ensures Reachable(s)
    ensures s.clock == 0 && s.job == Some(Job(Rendering, Some(150000), None)) && s.queue.messages == {0, 1, 2}
    ensures Deliverable(s.queue, 2)
    ensures s.workers == map[0 := Claimed(0, 150000), 1 := Loaded(1, Job(Queued, None, None), 0)] && s.nextWorker == 2
    ensures s.requesters == map[0 := Finished, 1 := Finished, 2 := Finished]
  {
    hide Reachable, LocalStep, FinishStep, RequesterStep, GivenUp;
    s := ThreeRequests();
    ReachedByStep(s, Deliver(0)); s := Step(s, Deliver(0));
    ReachedByStep(s, Deliver(1)); s := Step(s, Deliver(1));
    ReachedByStep(s, Load(0)); s := Step(s, Load(0));
    ReachedByStep(s, Load(1)); s := Step(s, Load(1));
    ReachedByStep(s, TryClaim(0, 0, 0)); s := Step(s, TryClaim(0, 0, 0));
  }

  /** Worker 2 takes over when the lease ends. */
  lemma {:induction false} ThirdTakesOver() returns (s: System)
    ensures Reachable(s)
    ensures s.clock == 150000 && s.job == Some(Job(Rendering, Some(300000), None))
    ensures s.claim == Some(Claim(2, 2)) && s.nextWorker == 3
    ensures s.workers == map[0 := Claimed(0, 150000), 1 := Loaded(1, Job(Queued, None, None), 0), 2 := Claimed(2, 300000)]
    ensures s.requesters == map[0 := Finished, 1 := Finished, 2 := Finished]
  {
    hide Reachable, LocalStep, FinishStep, RequesterStep, GivenUp;
    s := TwoReaders();
    ReachedByStep(s, Tick(150000)); s := Step(s, Tick(150000));
    s := NextClaims(s, 2);
  }

  lemma {:induction false} ThirdFails() returns (s: System)
    ensures Reachable(s)
    ensures s.clock == 150000 && s.job == Some(Job(Failed, Some(300000), None))
    ensures s.claim == Some(Claim(2, 2)) && s.nextWorker == 3
    ensures s.workers == map[0 := Claimed(0, 150000), 1 := Loaded(1, Job(Queued, None, None), 0), 2 := Done(2)]
    ensures s.requesters == map[0 := Finished, 1 := Finished, 2 := Finished]
  {
    hide Reachable, EntryStep, RequesterStep, OutsideStep, AttachStep, SucceedStep;
    s := ThirdTakesOver();
    s := Fails(s, 2);
  }

  /** A retry queues the job again. */
  lemma {:induction false} Requeued() returns (s: System)
    ensures Reachable(s)
    ensures s.clock == 150000 && s.job == Some(Job(Queued, Some(300000), None)) && s.claim == Some(Claim(2, 2))
    ensures s.workers == map[0 := Claimed(0, 150000), 1 := Loaded(1, Job(Queued, None, None), 0), 2 := Done(2)]
  {
    hide Reachable, EntryStep, LocalStep, FinishStep, OutsideStep, PutStep, SendStep, MarkStep;
    s := ThirdFails();
    s := Asks(s, 3);
    ReachedByStep(s, Reset(3)); s := Step(s, Reset(3));
  }

  /** Worker 1 claims it with the lease it worked out at time 0. */
  lemma {:induction false} StaleClaim() returns (s: System)
    ensures Reachable(s)
    ensures s.job == Some(Job(Rendering, Some(150000), None)) && s.claim == Some(Claim(1, 1))
    ensures 0 in s.workers && s.workers[0] == Claimed(0, 150000)
  {
    s := Requeued();
    hide Reachable;
    ReachedByStep(s, TryClaim(1, 0, 0)); s := Step(s, TryClaim(1, 0, 0));
  }

  /** When a worker may read the clock well before its conditional write, two claims can carry the same
      lease, and a worker that was taken over finishes the job of its successor. */
  lemma {:induction false} EarlyClockLetsTakenOverFinish() returns (s: System, w: nat)
    ensures Reachable(s) && TakenOver(s, w)
    ensures Enabled(s, Fail(w)) && Enabled(Step(s, Fail(w)), FinishFailed(w, false))
    ensures var job := Step(Step(s, Fail(w)), FinishFailed(w, false)).job;
            s.job.Some? && s.job.value.state == Rendering && job.Some? && job.value.state == Failed
  {
    s := StaleClaim();
    w := 0;
  }
}
