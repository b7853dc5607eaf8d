// The stored banner job and its conditional writes (backend/src/banners/jobs.ts).
module BannerJobs {
  import opened Wrappers

  datatype State = Queued | Rendering | Succeeded | Failed

  datatype Job = Job(state: State, leaseUntil: Option<int>, artifactId: Option<string>)

  /** The attributes a transition sets; None leaves an attribute alone. */
  datatype Change = Change(state: State, leaseUntil: Option<int>, artifactId: Option<string>)

  /** The condition of a transition: the state is the one the caller saw and, when the caller saw a
      rendering job, so is the lease. */
  predicate Matches(stored: Option<Job>, seen: Job) {
    stored.Some? && stored.value.state == seen.state
    && (seen.state == Rendering ==> stored.value.leaseUntil == seen.leaseUntil)
  }

  function Changed(job: Job, change: Change): Job {
    Job(change.state,
        if change.leaseUntil.Some? then change.leaseUntil else job.leaseUntil,
        if change.artifactId.Some? then change.artifactId else job.artifactId)
  }

  /** The stored job after a compare-and-set. */
  function CompareAndSet(stored: Option<Job>, seen: Job, change: Change): (after: Option<Job>)
    ensures !Matches(stored, seen) ==> after == stored
    ensures Matches(stored, seen) ==> after.Some? && after.value.state == change.state
  {
    if Matches(stored, seen) then Some(Changed(stored.value, change)) else stored
  }

  class JobRecord {
    var stored: Option<Job>

    constructor ()
      ensures stored == None
    {
      stored := None;
    }

    /** Insert if absent; otherwise report what is there. */
    method PutBannerJob(job: Job) returns (current: Job)
      modifies this
      ensures stored == Some(current)
      ensures if old(stored).None? then current == job else stored == old(stored)
    {
      if stored.None? { stored := Some(job); return job; }
      return stored.value;
    }

    method TransitionBannerJob(seen: Job, change: Change) returns (ok: bool)
      modifies this
      ensures ok <==> Matches(old(stored), seen)
      ensures stored == CompareAndSet(old(stored), seen, change)
    {
      if stored.None? || stored.value.state != seen.state { return false; }
      if seen.state == Rendering && stored.value.leaseUntil != seen.leaseUntil { return false; }
      var job := stored.value;
      job := job.(state := change.state);
      if change.leaseUntil.Some? { job := job.(leaseUntil := change.leaseUntil); }
      if change.artifactId.Some? { job := job.(artifactId := change.artifactId); }
      stored := Some(job);
      return true;
    }
  }
}
