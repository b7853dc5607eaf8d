// One banner request and one rendering as the program runs them from beginning to end when nobody else
// interferes, and the protocol runs they amount to.
module BannerService {
  import opened Wrappers
  import opened BannerJobs
  import opened BannerProtocol
  import opened BannerSafety
  import opened BannerRuns

  /** The stores a rendering writes besides the job. */
  class Board {
    var card: Option<Card>
    var artifact: bool

    constructor (c: Option<Card>)
      ensures card == c && !artifact
    {
      card, artifact := c, false;
    }
  }

  /** Whether an undisturbed request sends a message. */
  predicate Sends(job: Option<Job>) {
    job.None? || job.value.state == Queued || job.value.state == Failed
  }

  /** The job after an undisturbed request whose message was, or was not, reported sent. */
  function Requested(job: Option<Job>, reported: bool): Option<Job> {
    if !Sends(job) then job
    else
      var lease, artifactId := if job.Some? then job.value.leaseUntil else None, if job.Some? then job.value.artifactId else None;
      Some(Job(if reported then Queued else Failed, lease, artifactId))
  }

  /** `requestBanner`, from the insert on. */
  method RequestBanner(record: JobRecord, reported: bool) returns (current: Job, sent: bool)
    modifies record
    ensures record.stored == Requested(old(record.stored), reported) && record.stored == Some(current)
    ensures sent <==> Sends(old(record.stored)) && reported
  {
    sent := false;
    var job := record.PutBannerJob(Job(Queued, None, None));
    if job.state == Succeeded || job.state == Rendering { return job, false; }
    if job.state == Failed {
      var reset := record.TransitionBannerJob(job, Change(Queued, None, None));
      if !reset { assert false; }  // the record is as it was read
    }
    if reported {
      sent := true;
    } else {
      var _ := record.TransitionBannerJob(job.(state := Queued), Change(Failed, None, None));
    }
    current := record.stored.value;
  }

  /** `renderBannerJob`. `rendered` says that everything up to the Card went well. */
  method RenderBannerJob(record: JobRecord, board: Board, now: int, rendered: bool) returns (thrown: bool)
    modifies record, board
    ensures var job := old(record.stored);
            if job.None? || job.value.state == Succeeded || job.value.state == Failed then
              !thrown && record.stored == job && board.card == old(board.card) && board.artifact == old(board.artifact)
            else if !Expired(job.value, now) then
              thrown && record.stored == job && board.card == old(board.card) && board.artifact == old(board.artifact)
            else
              !thrown && record.stored == Some(Rendered(job.value, now, rendered && old(board.card).Some?))
              && board.card == (if rendered && old(board.card).Some? then Some(WithReference(old(board.card).value)) else old(board.card))
              && board.artifact == (old(board.artifact) || (rendered && old(board.card).Some?))
  {
    if record.stored.None? { return false; }
    var job := record.stored.value;
    if job.state == Succeeded || job.state == Failed { return false; }
    if job.state == Rendering && (if job.leaseUntil.Some? then job.leaseUntil.value else 0) > now { return true; }
    var leaseUntil := now + LEASE_MS;
    var claimed := record.TransitionBannerJob(job, Change(Rendering, Some(leaseUntil), None));
    if !claimed { return true; }
    if rendered && board.card.Some? {
      board.artifact := true;
      board.card := Some(WithReference(board.card.value));
      var _ := record.TransitionBannerJob(Seen(leaseUntil), Change(Succeeded, None, Some(ARTIFACT)));
    } else {
      var _ := record.TransitionBannerJob(Seen(leaseUntil), Change(Failed, None, None));
    }
    return false;
  }

  /** A job a worker may claim at this time. */
  predicate Expired(job: Job, now: int) {
    job.state == Queued || (job.state == Rendering && (if job.leaseUntil.Some? then job.leaseUntil.value else 0) <= now)
  }

  function Rendered(job: Job, now: int, well: bool): Job {
    if well then Job(Succeeded, Some(now + LEASE_MS), Some(ARTIFACT)) else Job(Failed, Some(now + LEASE_MS), job.artifactId)
  }

  // ---------------------------------------------------------------- as protocol runs

  /** s after an undisturbed request by a new requester. */
  function AfterRequest(s: System, r: nat, reported: bool): System {
    s.(job := Requested(s.job, reported), requesters := s.requesters[r := Finished],
       queue := if Sends(s.job) && reported then Sent(s.queue) else s.queue)
  }

  /** The undisturbed request is a run of the protocol's steps. */
  lemma {:induction false} RequestIsARun(s: System, r: nat, reported: bool)
    requires r !in s.requesters
    ensures Leads(s, AfterRequest(s, r, reported))
  {
    hide Leads, EntryStep, LocalStep, FinishStep, OutsideStep, PutStep, GetStep, ResetStep, SendStep, MarkStep;
    var s1 := Step(s, Request(r));
    assert s1 == s.(requesters := s.requesters[r := Start]);
    if s.job.None? { FirstIsARun(s1, r, reported); } else { LaterIsARun(s1, r, reported); }
    assert AfterRequest(s1, r, reported) == AfterRequest(s, r, reported);
    hide Step;
    LeadsByStep(s, Request(r), AfterRequest(s, r, reported));
  }

  lemma {:induction false} FirstIsARun(s: System, r: nat, reported: bool)
    requires r in s.requesters && s.requesters[r].Start? && s.job.None?
    ensures Leads(s, AfterRequest(s, r, reported))
  {
    hide Leads, EntryStep, LocalStep, FinishStep, OutsideStep, GetStep, ResetStep, SendStep, MarkStep;
    var t := Step(s, Put(r));
    SendingIsARun(t, r, reported);
    assert SentOrMarked(t, r, reported) == AfterRequest(s, r, reported);
    LeadsByStep(s, Put(r), AfterRequest(s, r, reported));
  }

  lemma {:induction false} LaterIsARun(s: System, r: nat, reported: bool)
    requires r in s.requesters && s.requesters[r].Start? && s.job.Some?
    ensures Leads(s, AfterRequest(s, r, reported))
  {
    hide Leads, EntryStep, LocalStep, FinishStep, OutsideStep, GetStep, ResetStep, SendStep, MarkStep;
    var t := Step(s, Put(r));
    if s.job.value.state == Queued {
      QueuedIsARun(t, r, reported);
    } else if s.job.value.state == Failed {
      FailedIsARun(t, r, reported);
    } else {
      OthersWorkIsARun(t, r, reported);
    }
    assert AfterRequest(t, r, reported) == AfterRequest(s, r, reported);
    LeadsByStep(s, Put(r), AfterRequest(s, r, reported));
  }

  lemma {:induction false} QueuedIsARun(s: System, r: nat, reported: bool)
    requires r in s.requesters && s.requesters[r].Lost? && s.job.Some? && s.job.value.state == Queued
    ensures Leads(s, AfterRequest(s, r, reported))
  {
    hide Leads, EntryStep, LocalStep, FinishStep, OutsideStep, PutStep, ResetStep, SendStep, MarkStep;
    var t := Step(s, Get(r));
    SendingIsARun(t, r, reported);
    assert SentOrMarked(t, r, reported) == AfterRequest(s, r, reported);
    LeadsByStep(s, Get(r), AfterRequest(s, r, reported));
  }

  lemma {:induction false} FailedIsARun(s: System, r: nat, reported: bool)
    requires r in s.requesters && s.requesters[r].Lost? && s.job.Some? && s.job.value.state == Failed
    ensures Leads(s, AfterRequest(s, r, reported))
  {
    hide Leads, EntryStep, LocalStep, FinishStep, OutsideStep, PutStep, SendStep, MarkStep;
    var t := Step(s, Get(r));
    var u := Step(t, Reset(r));
    SendingIsARun(u, r, reported);
    assert SentOrMarked(u, r, reported) == AfterRequest(s, r, reported);
    LeadsByStep(t, Reset(r), AfterRequest(s, r, reported));
    LeadsByStep(s, Get(r), AfterRequest(s, r, reported));
  }

  lemma {:induction false} OthersWorkIsARun(s: System, r: nat, reported: bool)
    requires r in s.requesters && s.requesters[r].Lost? && s.job.Some? && !Sends(s.job)
    ensures Leads(s, AfterRequest(s, r, reported))
  {
    hide Leads, EntryStep, LocalStep, FinishStep, OutsideStep, PutStep, ResetStep, SendStep, MarkStep;
    var t := Step(s, Get(r));
    assert t == AfterRequest(s, r, reported);
    LeadsNowhere(t);
    LeadsByStep(s, Get(r), t);
  }

  /** From a queued job with the requester about to send. */
  function SentOrMarked(s: System, r: nat, reported: bool): System
    requires s.job.Some?
  {
    s.(job := Some(s.job.value.(state := if reported then Queued else Failed)), requesters := s.requesters[r := Finished],
       queue := if reported then Sent(s.queue) else s.queue)
  }

  lemma {:induction false} SendingIsARun(s: System, r: nat, reported: bool)
    requires r in s.requesters && s.requesters[r].Sending? && s.job.Some? && s.job.value.state == Queued
    ensures Leads(s, SentOrMarked(s, r, reported))
  {
    hide Leads, EntryStep, LocalStep, FinishStep, OutsideStep, PutStep, GetStep, ResetStep;
    var s1 := Step(s, Send(r, reported, reported));
    if reported {
      assert s1 == SentOrMarked(s, r, reported);
      LeadsNowhere(s1);
    } else {
      var s2 := Step(s1, Mark(r));
      assert s2 == SentOrMarked(s, r, reported);
      LeadsNowhere(s2);
      LeadsByStep(s1, Mark(r), s2);
    }
    LeadsByStep(s, Send(r, reported, reported), SentOrMarked(s, r, reported));
  }

  /** The undisturbed rendering of a claimable job is a run as well: it ends with the message deleted, the
      worker gone, and job and Card as the program leaves them. */
  lemma {:induction false} RenderingIsARun(s: System, m: nat, rendered: bool) returns (t: System)
    requires Deliverable(s.queue, m) && !HeldBySomeone(s, m) && s.nextWorker !in s.workers && s.job.Some? && Expired(s.job.value, s.clock)
    ensures Leads(s, t)
    ensures t.job == Some(Rendered(s.job.value, s.clock, rendered && s.card.Some?)) && t.queue.messages == s.queue.messages - {m}
    ensures t.card == (if rendered && s.card.Some? then Some(WithReference(s.card.value)) else s.card)
    ensures t.workers == s.workers && (rendered && s.card.Some? ==> t.artifact)
  {
    hide Leads, HeldBySomeone, LocalStep, FinishStep, RequesterStep, ClaimStep, GivenUp;
    var w := s.nextWorker;
    var s1 := Step(s, Deliver(m));
    var s2 := Step(s1, Load(w));
    assert s2.workers == s.workers[w := Loaded(m, s.job.value, s.clock)] && s2.clock == s.clock;
    t := LoadedIsARun(s2, w, m, rendered, s.workers);
    LeadsByStep(s1, Load(w), t);
    LeadsByStep(s, Deliver(m), t);
  }

  lemma {:induction false} LoadedIsARun(s: System, w: nat, m: nat, rendered: bool, others: map<nat, Worker>) returns (t: System)
    requires w !in others && s.job.Some? && Expired(s.job.value, s.clock)
    requires s.workers == others[w := Loaded(m, s.job.value, s.clock)]
    ensures Leads(s, t)
    ensures t.job == Some(Rendered(s.job.value, s.clock, rendered && s.card.Some?)) && t.queue.messages == s.queue.messages - {m}
    ensures t.card == (if rendered && s.card.Some? then Some(WithReference(s.card.value)) else s.card)
    ensures t.workers == others && (rendered && s.card.Some? ==> t.artifact)
  {
    hide Leads, Step, Without;
    var claim := TryClaim(w, s.clock, s.clock);
    ClaimingStep(s, w, m, others);
    if rendered && s.card.Some? {
      t := ReadingIsARun(Step(s, claim), w, m, others);
    } else {
      t := FailingIsARun(Step(s, claim), w, m, others);
    }
    LeadsByStep(s, claim, t);
  }

  lemma {:induction false} ClaimingStep(s: System, w: nat, m: nat, others: map<nat, Worker>)
    requires w !in others && s.job.Some? && Expired(s.job.value, s.clock)
    requires s.workers == others[w := Loaded(m, s.job.value, s.clock)]
    ensures var t, lease := Step(s, TryClaim(w, s.clock, s.clock)), s.clock + LEASE_MS;
            t.workers == others[w := Claimed(m, lease)] && t.job == Some(s.job.value.(state := Rendering, leaseUntil := Some(lease)))
            && t.card == s.card && t.queue == s.queue && t.artifact == s.artifact
  {
    hide LocalStep, FinishStep, RequesterStep, OutsideStep, LoadStep;
  }

  lemma {:induction false} ReadingIsARun(s: System, w: nat, m: nat, others: map<nat, Worker>) returns (t: System)
    requires w !in others && s.job.Some? && s.job.value.state == Rendering && s.job.value.leaseUntil.Some? && s.card.Some?
    requires s.workers == others[w := Claimed(m, s.job.value.leaseUntil.value)]
    ensures Leads(s, t)
    ensures t.job == Some(Job(Succeeded, s.job.value.leaseUntil, Some(ARTIFACT))) && t.card == Some(WithReference(s.card.value))
    ensures t.queue.messages == s.queue.messages - {m} && t.workers == others && t.artifact
  {
    hide Leads, Without, EntryStep, FinishStep, RequesterStep, OutsideStep;
    var lease := s.job.value.leaseUntil.value;
    var s1 := Step(s, ReadCard(w));
    assert s1.workers == others[w := CardRead(m, lease, s.card.value)];
    var s2 := Step(s1, MakeArtifact(w));
    assert s2.workers == others[w := Attaching(m, lease, s.card.value, 0)];
    t := AttachingIsARun(s2, w, m, others);
    LeadsByStep(s1, MakeArtifact(w), t);
    LeadsByStep(s, ReadCard(w), t);
  }

  /** The message of a worker that is done is deleted. */
  lemma {:induction false} DeletingIsARun(s: System, w: nat, m: nat, others: map<nat, Worker>) returns (t: System)
    requires w !in others && s.workers == others[w := Done(m)]
    ensures Leads(s, t) && t == s.(queue := s.queue.(messages := s.queue.messages - {m}), workers := others)
  {
    hide Leads, EntryStep, LocalStep, FinishStep, RequesterStep, DeliverStep, GivenUp;
    t := Step(s, Delete(w));
    assert t.workers == others;
    LeadsNowhere(t);
    LeadsByStep(s, Delete(w), t);
  }

  lemma {:induction false} FailingIsARun(s: System, w: nat, m: nat, others: map<nat, Worker>) returns (t: System)
    requires w !in others && s.job.Some? && s.job.value.state == Rendering && s.job.value.leaseUntil.Some?
    requires s.workers == others[w := Claimed(m, s.job.value.leaseUntil.value)]
    ensures Leads(s, t)
    ensures t.job == Some(s.job.value.(state := Failed)) && t.card == s.card
    ensures t.queue.messages == s.queue.messages - {m} && t.workers == others
  {
    hide Leads, EntryStep, RequesterStep, OutsideStep, AttachStep, SucceedStep;
    var lease := s.job.value.leaseUntil.value;
    var s1 := Step(s, Fail(w));
    assert s1.workers == others[w := Failing(m, lease)];
    var s2 := Step(s1, FinishFailed(w, false));
    assert s2.workers == others[w := Done(m)];
    t := DeletingIsARun(s2, w, m, others);
    LeadsByStep(s1, FinishFailed(w, false), t);
    LeadsByStep(s, Fail(w), t);
  }

  lemma {:induction false} AttachingIsARun(s: System, w: nat, m: nat, others: map<nat, Worker>) returns (t: System)
    requires w !in others && s.job.Some? && s.job.value.state == Rendering && s.job.value.leaseUntil.Some? && s.card.Some? && s.artifact
    requires s.workers == others[w := Attaching(m, s.job.value.leaseUntil.value, s.card.value, 0)]
    ensures Leads(s, t)
    ensures t.job == Some(Job(Succeeded, s.job.value.leaseUntil, Some(ARTIFACT))) && t.card == Some(WithReference(s.card.value))
    ensures t.queue.messages == s.queue.messages - {m} && t.workers == others && t.artifact
  {
    hide Leads, EntryStep, LocalStep, RequesterStep, OutsideStep, SucceedStep, FinishFailedStep, WithReference;
    var s1 := Step(s, Attach(w));
    assert s1.workers == others[w := Finishing(m, s.job.value.leaseUntil.value)];
    t := SucceedingIsARun(s1, w, m, others);
    LeadsByStep(s, Attach(w), t);
  }

  lemma {:induction false} SucceedingIsARun(s: System, w: nat, m: nat, others: map<nat, Worker>) returns (t: System)
    requires w !in others && s.job.Some? && s.job.value.state == Rendering && s.job.value.leaseUntil.Some?
    requires s.workers == others[w := Finishing(m, s.job.value.leaseUntil.value)]
    ensures Leads(s, t)
    ensures t.job == Some(Job(Succeeded, s.job.value.leaseUntil, Some(ARTIFACT))) && t.card == s.card
    ensures t.queue.messages == s.queue.messages - {m} && t.workers == others && t.artifact == s.artifact
  {
    hide Leads, EntryStep, LocalStep, RequesterStep, OutsideStep, AttachStep, FinishFailedStep;
    var s1 := Step(s, Succeed(w, false));
    assert s1.workers == others[w := Done(m)];
    t := DeletingIsARun(s1, w, m, others);
    LeadsByStep(s, Succeed(w, false), t);
  }
}
