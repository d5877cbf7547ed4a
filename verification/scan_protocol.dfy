/** The abstract machine of a scan job and of one attempt, and the decision
    whether a submitted result may be committed. */
module ScanProtocol {
  import opened Basics

  datatype JobState = JobQueued | JobRunning | JobSucceeded | JobFailed | JobCancelled | JobExpired

  datatype JobEvent =
    | AttemptStarted
    | CancelJob
    | AuthorizationRevoked
    | DeadlineExceeded
    | JobResultCommitted
    | RetryBudgetExhausted

  datatype AttemptState = Created | Leased | Running | Succeeded | Failed | TimedOut | Cancelled | Superseded

  datatype AttemptEvent =
    | LeaseAcquired
    | JobCancelledOrExpired
    | ScannerStarted
    | LeaseExpiredOrInvalidated
    | AttemptResultCommitted
    | ScannerOrPolicyFailed
    | HardDeadlineExceeded
    | JobCancelEvent
    | NewerAttemptFence

  predicate LiveJob(s: JobState) {
    s == JobQueued || s == JobRunning
  }

  predicate LiveAttempt(s: AttemptState) {
    s == Leased || s == Running
  }

  predicate TerminalAttempt(s: AttemptState) {
    s != Created && !LiveAttempt(s)
  }

  function TransitionJob(s: JobState, e: JobEvent): Option<JobState> {
    match (s, e)
    case (JobQueued, AttemptStarted) => Some(JobRunning)
    case (JobQueued, CancelJob) => Some(JobCancelled)
    case (JobQueued, DeadlineExceeded) => Some(JobExpired)
    case (JobRunning, JobResultCommitted) => Some(JobSucceeded)
    case (JobRunning, RetryBudgetExhausted) => Some(JobFailed)
    case (JobRunning, CancelJob) => Some(JobCancelled)
    case (JobRunning, AuthorizationRevoked) => Some(JobCancelled)
    case (JobRunning, DeadlineExceeded) => Some(JobExpired)
    case _ => None
  }

  function TransitionAttempt(s: AttemptState, e: AttemptEvent): Option<AttemptState> {
    match (s, e)
    case (Created, LeaseAcquired) => Some(Leased)
    case (Created, JobCancelledOrExpired) => Some(Cancelled)
    case (Leased, ScannerStarted) => Some(Running)
    case (Leased, LeaseExpiredOrInvalidated) => Some(Superseded)
    case (Running, AttemptResultCommitted) => Some(Succeeded)
    case (Running, ScannerOrPolicyFailed) => Some(Failed)
    case (Running, LeaseExpiredOrInvalidated) => Some(Superseded)
    case (Running, HardDeadlineExceeded) => Some(TimedOut)
    case (Running, JobCancelEvent) => Some(Cancelled)
    case (Running, NewerAttemptFence) => Some(Superseded)
    case _ => None
  }

  /** The job stays where it is or takes one edge of the machine. */
  ghost predicate JobEdge(s: JobState, t: JobState) {
    s == t || exists e :: TransitionJob(s, e) == Some(t)
  }

  ghost predicate AttemptEdge(s: AttemptState, t: AttemptState) {
    s == t || exists e :: TransitionAttempt(s, e) == Some(t)
  }

  datatype Identity = Identity(attempt: Id, fence: int, digest: Digest)

  datatype CommitSnapshot = CommitSnapshot(
    job: JobState,
    current: Id,
    currentFence: int,
    state: AttemptState,
    leaseExpires: int,
    hardDeadline: int,
    accepted: Option<Identity>)

  datatype DenyCode =
    | InvalidState
    | JobNotRunning
    | AttemptNotRunning
    | StaleAttempt
    | LeaseExpired
    | AttemptDeadlineExceeded
    | ResultDigestConflict

  datatype CommitDecision =
    | PrimaryCommit
    | AlreadyCommitted
    | Deny(code: DenyCode, audit: bool)

  predicate ValidIdentity(i: Identity) {
    ValidId(i.attempt) && PositiveSafe(i.fence) && ValidDigest(i.digest)
  }

  predicate ValidSnapshot(s: CommitSnapshot) {
    && ValidId(s.current)
    && PositiveSafe(s.currentFence)
    && PositiveSafe(s.leaseExpires)
    && PositiveSafe(s.hardDeadline)
    && (s.accepted.Some? ==> ValidIdentity(s.accepted.value))
  }

  predicate SameAttempt(a: Identity, b: Identity) {
    a.attempt == b.attempt && a.fence == b.fence
  }

  function DecideCommit(s: CommitSnapshot, submitted: Identity, now: int): CommitDecision {
    if !ValidSnapshot(s) || !ValidIdentity(submitted) || !PositiveSafe(now) then Deny(InvalidState, false)
    else if s.job == JobSucceeded then
      if s.accepted.None? then Deny(InvalidState, true)
      else if !SameAttempt(s.accepted.value, submitted) then Deny(StaleAttempt, false)
      else if s.accepted.value.digest != submitted.digest then Deny(ResultDigestConflict, true)
      else AlreadyCommitted
    else if s.job != JobRunning then Deny(JobNotRunning, false)
    else if s.accepted.Some? then Deny(InvalidState, true)
    else if submitted.attempt != s.current || submitted.fence != s.currentFence then Deny(StaleAttempt, false)
    else if s.state != Running then Deny(AttemptNotRunning, false)
    else if now >= s.leaseExpires then Deny(LeaseExpired, false)
    else if now >= s.hardDeadline then Deny(AttemptDeadlineExceeded, false)
    else PrimaryCommit
  }
}
