// Requesters and queue workers around one banner job, as steps that may interleave in any order
// (backend/src/banners/service.ts, backend/src/handler.ts, backend/src/db/cards.ts), over a queue that gives up
// on a message in the end (infra/template.full.yaml).
module BannerProtocol {
  import opened Wrappers
  import opened BannerJobs

  const LEASE_MS := 150000
  const ARTIFACT := "banner"

  /** The redrive policy's `maxReceiveCount`. */
  const MAX_RECEIVES := 3

  datatype Card = Card(version: int, refs: seq<string>)

  /** Where a requester stands: before the insert; before reading the job that was already there;
      before resetting a failed job; before sending; before marking the job failed because sending
      failed; finished. */
  datatype Requester = Start | Lost | Resetting(seen: Job) | Sending | Marking | Finished

  /** Where a worker stands with its message. From Claimed to Failing it believes it holds `lease`. */
  datatype Worker =
    | Received(message: nat)
    | Loaded(message: nat, seen: Job, loadedAt: int)
    | Claimed(message: nat, lease: int)
    | CardRead(message: nat, lease: int, card: Card)
    | Attaching(message: nat, lease: int, card: Card, attempt: nat)
    | Rereading(message: nat, lease: int)
    | Finishing(message: nat, lease: int)
    | Failing(message: nat, lease: int)
    | Done(message: nat)

  /** The record of the latest successful claim. */
  datatype Claim = Claim(worker: nat, message: nat)

  /** The undeleted messages, the next message's id, how often each was delivered, and those given up. */
  datatype Queue = Queue(messages: set<nat>, next: nat, receives: map<nat, nat>, deadLetters: set<nat>)

  /** The shared stores, the clock, the queue and everyone at work. The last four fields
      are history: the latest claim, the messages ever held by two live workers at once, whether a
      requester died before sending, and whether the Card has been given its reference. */
  datatype System = System(
    clock: int, job: Option<Job>, artifact: bool, card: Option<Card>,
    queue: Queue, requesters: map<nat, Requester>,
    workers: map<nat, Worker>, nextWorker: nat,
    claim: Option<Claim>, overlapped: set<nat>, abandoned: bool, attached: bool)

  datatype Action =
    | Tick(now: int)
    | EditCard(card: Option<Card>)
    | Request(r: nat)
    | Put(r: nat)
    | Get(r: nat)
    | Reset(r: nat)
    | Send(r: nat, enqueued: bool, reported: bool)
    | Mark(r: nat)
    | Abandon(r: nat)
    | Deliver(message: nat)
    | GiveUp(message: nat)
    | Load(w: nat)
    | TryClaim(w: nat, checkedAt: int, leasedAt: int)
    | ReadCard(w: nat)
    | MakeArtifact(w: nat)
    | Attach(w: nat)
    | Reread(w: nat)
    | Succeed(w: nat, lost: bool)
    | Fail(w: nat)
    | FinishFailed(w: nat, lost: bool)
    | Delete(w: nat)
    | Crash(w: nat)

  /** A worker reads the job or tries to claim it. */
  predicate IsEntry(a: Action) {
    a.Load? || a.TryClaim?
  }

  /** A worker reads the Card, makes the artifact, gives up or dies. */
  predicate IsLocal(a: Action) {
    a.ReadCard? || a.MakeArtifact? || a.Reread? || a.Fail? || a.Crash?
  }

  /** A worker writes the Card or finishes the job. */
  predicate IsFinish(a: Action) {
    a.Attach? || a.Succeed? || a.FinishFailed?
  }

  predicate IsWorkerStep(a: Action) {
    IsEntry(a) || IsLocal(a) || IsFinish(a)
  }

  predicate IsRequesterStep(a: Action) {
    a.Request? || a.Put? || a.Get? || a.Reset? || a.Send? || a.Mark? || a.Abandon?
  }

  predicate HoldsLease(worker: Worker) {
    !worker.Received? && !worker.Loaded? && !worker.Done?
  }

  /** Without any earlier reference to the artifact: `refs.filter(ref => ref.artifactId !== id)`. */
  function Without(refs: seq<string>, id: string): seq<string> {
    if refs == [] then []
    else Without(refs[..|refs| - 1], id) + (if refs[|refs| - 1] == id then [] else [refs[|refs| - 1]])
  }

  function WithReference(card: Card): Card {
    Card(card.version + 1, Without(card.refs, ARTIFACT) + [ARTIFACT])
  }

  predicate CardMatches(card: Option<Card>, seen: Card) {
    card.Some? && card.value.version == seen.version
  }

  function Receives(queue: Queue, m: nat): nat {
    if m in queue.receives then queue.receives[m] else 0
  }

  /** The queue will hand out the message once more. */
  predicate Deliverable(queue: Queue, m: nat) {
    m in queue.messages && Receives(queue, m) < MAX_RECEIVES
  }

  function GivenUp(queue: Queue, m: nat): Queue {
    queue.(messages := queue.messages - {m}, deadLetters := queue.deadLetters + {m})
  }

  predicate Enabled(s: System, a: Action) {
    match a
    case Tick(now) => now >= s.clock
    case EditCard(card) => card.Some? ==> s.card.Some? && card.value.version > s.card.value.version
    case Request(r) => r !in s.requesters
    case Put(r) => r in s.requesters && s.requesters[r].Start?
    case Get(r) => r in s.requesters && s.requesters[r].Lost?
    case Reset(r) => r in s.requesters && s.requesters[r].Resetting?
    case Send(r, enqueued, reported) => r in s.requesters && s.requesters[r].Sending? && (reported ==> enqueued)
    case Mark(r) => r in s.requesters && s.requesters[r].Marking?
    case Abandon(r) => r in s.requesters
    case Deliver(m) => Deliverable(s.queue, m)
    case GiveUp(m) => m in s.queue.messages && !Deliverable(s.queue, m)
    case Load(w) => w in s.workers && s.workers[w].Received?
    case TryClaim(w, checkedAt, leasedAt) =>
      w in s.workers && s.workers[w].Loaded? && s.workers[w].loadedAt <= checkedAt <= leasedAt <= s.clock
    case ReadCard(w) => w in s.workers && s.workers[w].Claimed?
    case MakeArtifact(w) => w in s.workers && s.workers[w].CardRead?
    case Attach(w) => w in s.workers && s.workers[w].Attaching?
    case Reread(w) => w in s.workers && s.workers[w].Rereading?
    case Succeed(w, _) => w in s.workers && s.workers[w].Finishing?
    case Fail(w) => w in s.workers && HoldsLease(s.workers[w])
    case FinishFailed(w, _) => w in s.workers && s.workers[w].Failing?
    case Delete(w) => w in s.workers && s.workers[w].Done?
    case Crash(w) => w in s.workers
  }

  function SetRequester(s: System, r: nat, to: Requester): System {
    s.(requesters := s.requesters[r := to])
  }

  function SetWorker(s: System, w: nat, to: Worker): System {
    s.(workers := s.workers[w := to])
  }

  function DropWorker(s: System, w: nat): System {
    s.(workers := s.workers - {w})
  }

  predicate HeldBySomeone(s: System, m: nat) {
    exists w :: w in s.workers && s.workers[w].message == m
  }

  /** The lease a worker finishes under. */
  function Seen(lease: int): Job {
    Job(Rendering, Some(lease), None)
  }

  function PutStep(s: System, r: nat): System {
    if s.job.None? then SetRequester(s.(job := Some(Job(Queued, None, None))), r, Sending)
    else SetRequester(s, r, Lost)
  }

  function GetStep(s: System, r: nat): System {
    if s.job.None? then s
    else
      match s.job.value.state
      case Succeeded => SetRequester(s, r, Finished)
      case Rendering => SetRequester(s, r, Finished)
      case Failed => SetRequester(s, r, Resetting(s.job.value))
      case Queued => SetRequester(s, r, Sending)
  }

  function ResetStep(s: System, r: nat, seen: Job): System {
    SetRequester(s.(job := CompareAndSet(s.job, seen, Change(Queued, None, None))), r,
                 if Matches(s.job, seen) then Sending else Finished)
  }

  function Sent(queue: Queue): Queue {
    queue.(messages := queue.messages + {queue.next}, next := queue.next + 1)
  }

  function SendStep(s: System, r: nat, enqueued: bool, reported: bool): System {
    var t := SetRequester(s, r, if reported then Finished else Marking);
    if enqueued then t.(queue := Sent(t.queue)) else t
  }

  function MarkStep(s: System, r: nat): System {
    SetRequester(s.(job := CompareAndSet(s.job, Job(Queued, None, None), Change(Failed, None, None))), r, Finished)
  }

  function DeliverStep(s: System, m: nat): System {
    SetWorker(s.(nextWorker := s.nextWorker + 1, queue := s.queue.(receives := s.queue.receives[m := Receives(s.queue, m) + 1]),
                 overlapped := if HeldBySomeone(s, m) then s.overlapped + {m} else s.overlapped),
              s.nextWorker, Received(m))
  }

  /** An absent or finished job ends the work; the message will be deleted. */
  function LoadStep(s: System, w: nat, m: nat): System {
    if s.job.None? || s.job.value.state == Succeeded || s.job.value.state == Failed then SetWorker(s, w, Done(m))
    else SetWorker(s, w, Loaded(m, s.job.value, s.clock))
  }

  function WonClaim(s: System, w: nat, m: nat, seen: Job, leasedAt: int): System {
    SetWorker(s.(job := CompareAndSet(s.job, seen, Change(Rendering, Some(leasedAt + LEASE_MS), None)), claim := Some(Claim(w, m))),
              w, Claimed(m, leasedAt + LEASE_MS))
  }

  /** An active lease or a lost race throws: the message is left for redelivery. */
  function ClaimStep(s: System, w: nat, m: nat, seen: Job, checkedAt: int, leasedAt: int): System {
    if seen.state == Rendering && (if seen.leaseUntil.Some? then seen.leaseUntil.value else 0) > checkedAt then DropWorker(s, w)
    else if !Matches(s.job, seen) then DropWorker(s, w)
    else WonClaim(s, w, m, seen, leasedAt)
  }

  function AttachStep(s: System, w: nat, m: nat, lease: int, seen: Card, attempt: nat): System {
    if CardMatches(s.card, seen) then
      SetWorker(s.(card := Some(WithReference(seen)), attached := true), w, Finishing(m, lease))
    else if attempt == 0 then SetWorker(s, w, Rereading(m, lease))
    else SetWorker(s, w, Failing(m, lease))
  }

  function SucceedStep(s: System, w: nat, m: nat, lease: int, lost: bool): System {
    SetWorker(s.(job := CompareAndSet(s.job, Seen(lease), Change(Succeeded, None, Some(ARTIFACT)))), w,
              if lost then Failing(m, lease) else Done(m))
  }

  function FinishFailedStep(s: System, w: nat, m: nat, lease: int, lost: bool): System {
    var t := s.(job := CompareAndSet(s.job, Seen(lease), Change(Failed, None, None)));
    if lost then DropWorker(t, w) else SetWorker(t, w, Done(m))
  }

  function EntryStep(s: System, a: Action): System
    requires Enabled(s, a) && IsEntry(a)
  {
    match a
    case Load(w) => LoadStep(s, w, s.workers[w].message)
    case TryClaim(w, checkedAt, leasedAt) => ClaimStep(s, w, s.workers[w].message, s.workers[w].seen, checkedAt, leasedAt)
  }

  function LocalStep(s: System, a: Action): System
    requires Enabled(s, a) && IsLocal(a)
  {
    var worker := s.workers[a.w];
    match a
    case ReadCard(w) =>
      SetWorker(s, w, if s.card.Some? then CardRead(worker.message, worker.lease, s.card.value)
                      else Failing(worker.message, worker.lease))
    case MakeArtifact(w) => SetWorker(s.(artifact := true), w, Attaching(worker.message, worker.lease, worker.card, 0))
    case Reread(w) =>
      SetWorker(s, w, if s.card.Some? then Attaching(worker.message, worker.lease, s.card.value, 1)
                      else Failing(worker.message, worker.lease))
    case Fail(w) => SetWorker(s, w, Failing(worker.message, worker.lease))
    case Crash(w) => DropWorker(s, w)
  }

  function FinishStep(s: System, a: Action): System
    requires Enabled(s, a) && IsFinish(a)
  {
    var worker := s.workers[a.w];
    match a
    case Attach(w) => AttachStep(s, w, worker.message, worker.lease, worker.card, worker.attempt)
    case Succeed(w, lost) => SucceedStep(s, w, worker.message, worker.lease, lost)
    case FinishFailed(w, lost) => FinishFailedStep(s, w, worker.message, worker.lease, lost)
  }

  function RequesterStep(s: System, a: Action): System
    requires Enabled(s, a) && IsRequesterStep(a)
  {
    match a
    case Request(r) => SetRequester(s, r, Start)
    case Put(r) => PutStep(s, r)
    case Get(r) => GetStep(s, r)
    case Reset(r) => ResetStep(s, r, s.requesters[r].seen)
    case Send(r, enqueued, reported) => SendStep(s, r, enqueued, reported)
    case Mark(r) => MarkStep(s, r)
    case Abandon(r) =>
      s.(requesters := s.requesters - {r},
         abandoned := s.abandoned || s.requesters[r].Sending? || s.requesters[r].Marking?)
  }

  /** The clock, the Card's other editors and the queue. */
  function OutsideStep(s: System, a: Action): System
    requires Enabled(s, a) && !IsWorkerStep(a) && !IsRequesterStep(a)
  {
    match a
    case Tick(now) => s.(clock := now)
    case EditCard(card) => s.(card := card)
    case Deliver(m) => DeliverStep(s, m)
    case GiveUp(m) => s.(queue := GivenUp(s.queue, m))
    case Delete(w) => DropWorker(s.(queue := s.queue.(messages := s.queue.messages - {s.workers[w].message})), w)
  }

  function Step(s: System, a: Action): System
    requires Enabled(s, a)
  {
    if IsEntry(a) then EntryStep(s, a)
    else if IsLocal(a) then LocalStep(s, a)
    else if IsFinish(a) then FinishStep(s, a)
    else if IsRequesterStep(a) then RequesterStep(s, a)
    else OutsideStep(s, a)
  }

  ghost predicate Initial(s: System) {
    s.job == None && !s.artifact && s.queue == Queue({}, 0, map[], {}) && s.requesters == map[] && s.workers == map[]
    && s.claim == None && s.overlapped == {} && !s.abandoned && !s.attached
  }

  /** states[i + 1] is what actions[i] makes of states[i]. */
  ghost predicate Segment(states: seq<System>, actions: seq<Action>) {
    |states| == |actions| + 1
    && forall i :: 0 <= i < |actions| ==> Enabled(states[i], actions[i]) && states[i + 1] == Step(states[i], actions[i])
  }

  ghost predicate Run(states: seq<System>, actions: seq<Action>) {
    Segment(states, actions) && Initial(states[0])
  }
}
