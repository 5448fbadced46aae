/** Source preparation: one workflow stage whose attempts are leased, recovered and retried. */
module MediaLease {
  import opened Backoff
  import opened Wrappers

  datatype AttemptStatus = Queued | Running | Succeeded | Failed | TimedOut

  datatype StageStatus = StageQueued | StageRunning | RetryWait | StageSucceeded | StageFailed

  datatype JobStatus = JobQueued | JobRunning | JobSucceeded | JobFailed

  type Ordinal = n: nat | n >= 1 witness 1

  datatype Attempt = Attempt(number: Ordinal, status: AttemptStatus, token: Option<nat>, until: Option<int>,
                             recoveries: nat, queuedAt: int)

  datatype EventStatus = Pending | Publishing | Published | PublishFailed

  /** The outbox row whose delivery wakes a worker for the attempt with command key `key`. */
  datatype Event = Event(key: nat, status: EventStatus, availableAt: int, publishedAt: Option<int>,
                         lease: Option<nat>, until: Option<int>)

  /** The rows of one source-preparation job; attempts are in creation order and known by their position. */
  datatype Rows = Rows(attempts: seq<Attempt>, stage: StageStatus, readyAt: int, maxAttempts: nat, job: JobStatus,
                       events: seq<Event>, nextToken: nat)

  const MAX_LEASE_RECOVERIES_PER_ATTEMPT := 1

  function Initial(maxAttempts: nat, now: int): Rows {
    Rows([Attempt(1, Queued, None, None, 0, now)], StageQueued, now, maxAttempts, JobQueued,
         [Event(1, Pending, now, None, None, None)], 0)
  }

  // ---- Transactions ----

  predicate Recovering(a: Attempt, now: int) {
    a.status == Running && a.token.Some? && a.until.Some? && a.until.value < now
  }

  /** The attempt can be taken: it waits, or its lease ran out for the first time, and its parents agree. */
  predicate Claimable(s: Rows, k: nat, now: int) {
    && k < |s.attempts|
    && var a := s.attempts[k];
       || (a.status == Queued && s.stage in {StageQueued, RetryWait} && s.job in {JobQueued, JobRunning})
       || (&& Recovering(a, now) && s.stage == StageRunning && s.job == JobRunning
           && a.recoveries < MAX_LEASE_RECOVERIES_PER_ATTEMPT)
  }

  function AfterClaim(s: Rows, k: nat, now: int, lease: nat): Rows {
    if !Claimable(s, k, now) then s
    else
      var a := s.attempts[k];
      var taken := a.(status := Running, token := Some(s.nextToken), until := Some(now + lease),
                      recoveries := if a.status == Queued then a.recoveries else a.recoveries + 1);
      s.(attempts := s.attempts[k := taken], stage := StageRunning, job := JobRunning, nextToken := s.nextToken + 1)
  }

  predicate Holds(s: Rows, k: nat, token: nat) {
    k < |s.attempts| && s.attempts[k].status == Running && s.attempts[k].token == Some(token)
  }

  function Released(a: Attempt, status: AttemptStatus): Attempt {
    a.(status := status, token := None, until := None)
  }

  /** Completion does not look at the lease's expiry. */
  function AfterComplete(s: Rows, k: nat, token: nat): Rows {
    if !Holds(s, k, token) then s
    else s.(attempts := s.attempts[k := Released(s.attempts[k], Succeeded)], stage := StageSucceeded,
            job := JobSucceeded)
  }

  predicate Failable(s: Rows, k: nat, token: nat, expiredBefore: Option<int>) {
    && Holds(s, k, token)
    && (expiredBefore.Some? ==> s.attempts[k].until.Some? && s.attempts[k].until.value < expiredBefore.value)
  }

  function AfterFail(s: Rows, k: nat, token: nat, retryable: bool, status: AttemptStatus, expiredBefore: Option<int>,
                     now: int): Rows {
    if !Failable(s, k, token, expiredBefore) then s
    else
      var a := s.attempts[k];
      var ended := s.attempts[k := Released(a, status)];
      if retryable && a.number < s.maxAttempts then
        var next := a.number + 1;
        var ready := now + Delay(next);
        s.(attempts := ended + [Attempt(next, Queued, None, None, 0, now)], stage := RetryWait, readyAt := ready,
           events := s.events + [Event(next, Pending, ready, None, None, None)])
      else s.(attempts := ended, stage := StageFailed, job := JobFailed)
  }

  function AfterHeartbeat(s: Rows, k: nat, token: nat, now: int, lease: nat): Rows {
    if !Holds(s, k, token) then s
    else s.(attempts := s.attempts[k := s.attempts[k].(until := Some(now + lease))])
  }

  /** A published event whose attempt still waits, or whose worker let a first lease run out. */
  predicate Replayable(s: Rows, i: nat, k: nat, now: int, staleBefore: int) {
    && i < |s.events| && k < |s.attempts|
    && var e, a := s.events[i], s.attempts[k];
       && a.number == e.key
       && e.status == Published && e.publishedAt.Some? && e.publishedAt.value < staleBefore
       && (|| (&& a.status == Queued && a.queuedAt < staleBefore && s.stage in {StageQueued, RetryWait}
               && s.readyAt <= now && s.job in {JobQueued, JobRunning})
           || (&& a.status == Running && a.until.Some? && a.until.value < now
              && a.recoveries < MAX_LEASE_RECOVERIES_PER_ATTEMPT
               && s.stage == StageRunning && s.job == JobRunning))
  }

  function AfterReplay(s: Rows, i: nat, k: nat, now: int, staleBefore: int): Rows {
    if !Replayable(s, i, k, now, staleBefore) then s
    else s.(events := s.events[i := s.events[i].(status := Pending, availableAt := now, publishedAt := None,
                                                 lease := None, until := None)])
  }

  predicate Relayable(e: Event, now: int) {
    || (e.status in {Pending, PublishFailed} && e.availableAt <= now)
    || (e.status == Publishing && e.until.Some? && e.until.value < now)
  }

  /** The relay leases an event, publishes it, and records the outcome under that lease. */
  function AfterRelay(s: Rows, i: nat, now: int, lease: nat): Rows {
    if i < |s.events| && Relayable(s.events[i], now) then
      s.(events := s.events[i := s.events[i].(status := Publishing, lease := Some(s.nextToken),
                                              until := Some(now + lease))],
         nextToken := s.nextToken + 1)
    else s
  }

  function AfterPublished(s: Rows, i: nat, lease: nat, ok: bool, now: int, delay: nat): Rows {
    if i < |s.events| && s.events[i].status == Publishing && s.events[i].lease == Some(lease) then
      var e := s.events[i].(lease := None, until := None);
      s.(events := s.events[i := if ok then e.(status := Published, publishedAt := Some(now))
                                 else e.(status := PublishFailed, availableAt := now + delay)])
    else s
  }

  /** Anything any worker, recovery pass or relay may do, with any attempt, any token and any clock reading. */
  datatype Step =
    | Claim(k: nat, now: int, lease: nat)
    | Complete(k: nat, token: nat)
    | Fail(k: nat, token: nat, retryable: bool, now: int)
    | TimeOut(k: nat, token: nat, before: int, now: int)
    | Heartbeat(k: nat, token: nat, now: int, lease: nat)
    | Replay(i: nat, k: nat, now: int, staleBefore: int)
    | Relay(i: nat, now: int, lease: nat)
    | Publish(i: nat, lease: nat, ok: bool, now: int, delay: nat)

  function Apply(s: Rows, step: Step): Rows {
    match step
    case Claim(k, now, lease) => AfterClaim(s, k, now, lease)
    case Complete(k, token) => AfterComplete(s, k, token)
    case Fail(k, token, retryable, now) => AfterFail(s, k, token, retryable, Failed, None, now)
    case TimeOut(k, token, before, now) => AfterFail(s, k, token, true, TimedOut, Some(before), now)
    case Heartbeat(k, token, now, lease) => AfterHeartbeat(s, k, token, now, lease)
    case Replay(i, k, now, staleBefore) => AfterReplay(s, i, k, now, staleBefore)
    case Relay(i, now, lease) => AfterRelay(s, i, now, lease)
    case Publish(i, lease, ok, now, delay) => AfterPublished(s, i, lease, ok, now, delay)
  }

  function Run(s: Rows, steps: seq<Step>): Rows
    decreases |steps|
  {
    if steps == [] then s else Run(Apply(s, steps[0]), steps[1..])
  }

  // ---- What every run keeps ----

  predicate Ended(status: AttemptStatus) {
    status in {Succeeded, Failed, TimedOut}
  }

  /** Attempt `i`: its number, its lease exactly while it runs, and, unless it is the last, that it was given up. */
  ghost predicate AttemptOk(s: Rows, i: nat)
    requires i < |s.attempts|
  {
    var a := s.attempts[i];
    && a.number == i + 1
    && (a.token.Some? <==> a.status == Running)
    && (a.until.Some? <==> a.status == Running)
    && (a.token.Some? ==> a.token.value < s.nextToken)
    && a.recoveries <= MAX_LEASE_RECOVERIES_PER_ATTEMPT
    && (a.status == Queued ==> a.recoveries == 0)
    && (i + 1 < |s.attempts| ==> a.status in {Failed, TimedOut})
  }

  ghost predicate EventOk(s: Rows, i: nat)
    requires i < |s.events|
  {
    var e := s.events[i];
    && e.key == i + 1
    && (e.status == Published <==> e.publishedAt.Some?)
    && (e.status == Publishing <==> e.until.Some?)
    && (e.status == Publishing <==> e.lease.Some?)
  }

  function Last(s: Rows): Attempt
    requires s.attempts != []
  {
    s.attempts[|s.attempts| - 1]
  }

  /** Stage and job follow the last attempt. */
  ghost predicate ParentsAgree(s: Rows)
    requires s.attempts != []
  {
    match Last(s).status
    case Queued =>
      if |s.attempts| == 1 then s.stage == StageQueued && s.job == JobQueued
      else s.stage == RetryWait && s.job == JobRunning
    case Running => s.stage == StageRunning && s.job == JobRunning
    case Succeeded => s.stage == StageSucceeded && s.job == JobSucceeded
    case _ => s.stage == StageFailed && s.job == JobFailed
  }

  ghost predicate Inv(s: Rows) {
    && 1 <= |s.attempts| <= s.maxAttempts
    && |s.events| == |s.attempts|
    && (forall i :: 0 <= i < |s.attempts| ==> AttemptOk(s, i))
    && (forall i :: 0 <= i < |s.events| ==> EventOk(s, i))
    && ParentsAgree(s)
  }

  lemma InvInitial(maxAttempts: nat, now: int)
    requires maxAttempts >= 1
    ensures Inv(Initial(maxAttempts, now))
  {
  }

  /** A new job waits for its first attempt, and the event that wakes a worker for it is pending and due. */
  lemma StartsWaiting(maxAttempts: nat, now: int)
    ensures var s := Initial(maxAttempts, now);
            && Claimable(s, 0, now) && |s.attempts| == |s.events| == 1 && s.maxAttempts == maxAttempts
            && s.attempts[0].number == s.events[0].key && s.attempts[0].queuedAt == s.readyAt == now
            && s.events[0].status == Pending && forall later :: Relayable(s.events[0], later) <==> later >= now
  {
  }

  /** Only the last attempt can change hands: a step that finds its lease or takes one acts on the last. */
  lemma ActsOnLast(s: Rows, k: nat)
    requires Inv(s) && k < |s.attempts| && !Ended(s.attempts[k].status)
    ensures k == |s.attempts| - 1
  {
    assert AttemptOk(s, k);
  }

  lemma InvClaim(s: Rows, k: nat, now: int, lease: nat)
    requires Inv(s)
    ensures Inv(AfterClaim(s, k, now, lease))
  {
    var t := AfterClaim(s, k, now, lease);
    if Claimable(s, k, now) {
      ActsOnLast(s, k);
      forall i | 0 <= i < |t.attempts| ensures AttemptOk(t, i) { assert AttemptOk(s, i); }
      forall i | 0 <= i < |t.events| ensures EventOk(t, i) { assert EventOk(s, i); }
    }
  }

  lemma InvComplete(s: Rows, k: nat, token: nat)
    requires Inv(s)
    ensures Inv(AfterComplete(s, k, token))
  {
    var t := AfterComplete(s, k, token);
    if Holds(s, k, token) {
      ActsOnLast(s, k);
      forall i | 0 <= i < |t.attempts| ensures AttemptOk(t, i) { assert AttemptOk(s, i); }
      forall i | 0 <= i < |t.events| ensures EventOk(t, i) { assert EventOk(s, i); }
    }
  }

  lemma InvFail(s: Rows, k: nat, token: nat, retryable: bool, status: AttemptStatus, before: Option<int>, now: int)
    requires Inv(s) && status in {Failed, TimedOut}
    ensures Inv(AfterFail(s, k, token, retryable, status, before, now))
  {
    var t := AfterFail(s, k, token, retryable, status, before, now);
    if Failable(s, k, token, before) {
      ActsOnLast(s, k);
      assert AttemptOk(s, k);
      forall i | 0 <= i < |t.attempts| ensures AttemptOk(t, i) { if i < |s.attempts| { assert AttemptOk(s, i); } }
      forall i | 0 <= i < |t.events| ensures EventOk(t, i) { if i < |s.events| { assert EventOk(s, i); } }
    }
  }

  lemma InvHeartbeat(s: Rows, k: nat, token: nat, now: int, lease: nat)
    requires Inv(s)
    ensures Inv(AfterHeartbeat(s, k, token, now, lease))
  {
    var t := AfterHeartbeat(s, k, token, now, lease);
    if Holds(s, k, token) {
      ActsOnLast(s, k);
      forall i | 0 <= i < |t.attempts| ensures AttemptOk(t, i) { assert AttemptOk(s, i); }
      forall i | 0 <= i < |t.events| ensures EventOk(t, i) { assert EventOk(s, i); }
    }
  }

  /** A change of one event's delivery keeps the invariant. */
  lemma InvEvent(s: Rows, t: Rows, i: nat)
    requires Inv(s) && i < |s.events| == |t.events| && t == s.(events := t.events, nextToken := t.nextToken)
    requires t.nextToken >= s.nextToken && t.events == s.events[i := t.events[i]] && EventOk(t, i)
    ensures Inv(t)
  {
    forall j | 0 <= j < |t.attempts| ensures AttemptOk(t, j) { assert AttemptOk(s, j); }
    forall j | 0 <= j < |t.events| ensures EventOk(t, j) { assert EventOk(s, j); }
    assert Last(t) == Last(s);
  }

  lemma InvOutbox(s: Rows, step: Step)
    requires Inv(s) && (step.Replay? || step.Relay? || step.Publish?)
    ensures Inv(Apply(s, step))
  {
    var t := Apply(s, step);
    if t != s {
      assert EventOk(s, step.i);
      InvEvent(s, t, step.i);
    }
  }

  lemma InvStep(s: Rows, step: Step)
    requires Inv(s)
    ensures Inv(Apply(s, step)) && Apply(s, step).maxAttempts == s.maxAttempts
  {
    match step
    case Claim(k, now, lease) => InvClaim(s, k, now, lease);
    case Complete(k, token) => InvComplete(s, k, token);
    case Fail(k, token, retryable, now) => InvFail(s, k, token, retryable, Failed, None, now);
    case TimeOut(k, token, before, now) => InvFail(s, k, token, true, TimedOut, Some(before), now);
    case Heartbeat(k, token, now, lease) => InvHeartbeat(s, k, token, now, lease);
    case _ => InvOutbox(s, step);
  }

  /** The invariant over every run: numbering, one lease at most, agreeing statuses, at most one success. */
  lemma {:induction false} InvRun(s: Rows, steps: seq<Step>)
    requires Inv(s)
    ensures Inv(Run(s, steps)) && Run(s, steps).maxAttempts == s.maxAttempts
    decreases |steps|
  {
    if steps != [] {
      InvStep(s, steps[0]);
      InvRun(Apply(s, steps[0]), steps[1..]);
    }
  }

  // ---- Safety over runs ----

  ghost predicate Terminal(s: Rows) {
    s.job in {JobSucceeded, JobFailed}
  }

  /** A finished job stays as it is: only event delivery goes on. */
  lemma {:induction false} TerminalAbsorbing(s: Rows, steps: seq<Step>)
    requires Inv(s) && Terminal(s)
    ensures var t := Run(s, steps); t.attempts == s.attempts && t.stage == s.stage && t.job == s.job
    decreases |steps|
  {
    if steps != [] {
      var step := steps[0];
      var n := |s.attempts| - 1;
      assert Ended(Last(s).status);
      forall k | 0 <= k < |s.attempts| ensures Ended(s.attempts[k].status) { assert AttemptOk(s, k); }
      assert Apply(s, step).attempts == s.attempts;
      InvStep(s, step);
      TerminalAbsorbing(Apply(s, step), steps[1..]);
    }
  }

  /** An attempt that ended keeps its row for ever. */
  lemma {:induction false} EndedAttemptFixed(s: Rows, steps: seq<Step>, k: nat)
    requires Inv(s) && k < |s.attempts| && Ended(s.attempts[k].status)
    ensures k < |Run(s, steps).attempts| && Run(s, steps).attempts[k] == s.attempts[k]
    decreases |steps|
  {
    if steps != [] {
      InvStep(s, steps[0]);
      assert k < |Apply(s, steps[0]).attempts| && Apply(s, steps[0]).attempts[k] == s.attempts[k];
      EndedAttemptFixed(Apply(s, steps[0]), steps[1..], k);
    }
  }

  /** At most one attempt ever succeeds, and it is the last one created. */
  lemma AtMostOneSucceeds(s: Rows, steps: seq<Step>)
    requires Inv(s)
    ensures var t := Run(s, steps); forall k :: 0 <= k < |t.attempts| && t.attempts[k].status == Succeeded ==>
      k == |t.attempts| - 1
    ensures var t := Run(s, steps); (exists k :: 0 <= k < |t.attempts| && t.attempts[k].status == Succeeded) <==>
      t.job == JobSucceeded
  {
    var t := Run(s, steps);
    InvRun(s, steps);
    forall k | 0 <= k < |t.attempts| && t.attempts[k].status == Succeeded ensures k == |t.attempts| - 1 {
      assert AttemptOk(t, k);
    }
    if t.job == JobSucceeded { assert t.attempts[|t.attempts| - 1].status == Succeeded; }
  }

  /** The token was issued and no attempt runs under it any more. */
  ghost predicate Superseded(s: Rows, token: nat) {
    token < s.nextToken && forall k :: 0 <= k < |s.attempts| ==> s.attempts[k].token != Some(token)
  }

  ghost predicate ActsUnder(step: Step, token: nat) {
    (step.Complete? || step.Fail? || step.TimeOut? || step.Heartbeat?) && step.token == token
  }

  lemma SupersededStays(s: Rows, step: Step, token: nat)
    requires Inv(s) && Superseded(s, token)
    ensures Superseded(Apply(s, step), token)
    ensures ActsUnder(step, token) ==> Apply(s, step) == s
  {
    var t := Apply(s, step);
    assert t.nextToken >= s.nextToken;
    forall k | 0 <= k < |t.attempts| ensures t.attempts[k].token != Some(token) {
      if k < |s.attempts| { assert s.attempts[k].token != Some(token); }
    }
  }

  /** A worker whose lease was taken over, or whose attempt ended, changes nothing at any later time. */
  lemma {:induction false} SupersededIsInert(s: Rows, steps: seq<Step>, late: Step, token: nat)
    requires Inv(s) && Superseded(s, token) && ActsUnder(late, token)
    ensures Apply(Run(s, steps), late) == Run(s, steps)
    decreases |steps|
  {
    if steps == [] {
      SupersededStays(s, late, token);
    } else {
      SupersededStays(s, steps[0], token);
      InvStep(s, steps[0]);
      SupersededIsInert(Apply(s, steps[0]), steps[1..], late, token);
    }
  }

  /** Taking an attempt over, completing it or failing it supersedes the token it ran under. */
  lemma TakeoverSupersedes(s: Rows, step: Step, k: nat, token: nat)
    requires Inv(s) && Holds(s, k, token) && !Holds(Apply(s, step), k, token)
    ensures Superseded(Apply(s, step), token)
  {
    var t := Apply(s, step);
    ActsOnLast(s, k);
    assert AttemptOk(s, k);
    forall j | 0 <= j < |t.attempts| ensures t.attempts[j].token != Some(token) {
      if j < |s.attempts| { assert AttemptOk(s, j); }
    }
  }

  /** Under the invariant the parent checks never stand in the way: what can be claimed, exactly. */
  lemma ClaimableExactly(s: Rows, k: nat, now: int)
    requires Inv(s) && k < |s.attempts|
    ensures Claimable(s, k, now) <==>
            var a := s.attempts[k];
            || a.status == Queued
            || (a.status == Running && a.until.Some? && a.until.value < now && a.recoveries == 0)
  {
    assert AttemptOk(s, k);
    if !Ended(s.attempts[k].status) { ActsOnLast(s, k); }
  }

  /** After an effective claim the issued token holds the attempt, for as long as asked. */
  lemma ClaimLeases(s: Rows, k: nat, now: int, lease: nat)
    requires Inv(s) && Claimable(s, k, now)
    ensures var t := AfterClaim(s, k, now, lease);
            && Holds(t, k, s.nextToken)
            && t.attempts[k].until == Some(now + lease)
            && (forall token :: Holds(t, k, token) ==> token == s.nextToken)
            && forall token :: Holds(s, k, token) ==> Superseded(t, token)
  {
    var t := AfterClaim(s, k, now, lease);
    forall token | Holds(s, k, token) ensures Superseded(t, token) {
      assert AttemptOk(s, k);
      TakeoverSupersedes(s, Claim(k, now, lease), k, token);
    }
  }

  // ---- What each transaction does ----

  /** Only attempt `k` and what hangs on it may differ. */
  ghost predicate OtherAttemptsKept(s: Rows, t: Rows, k: nat) {
    && |s.attempts| <= |t.attempts| && t.maxAttempts == s.maxAttempts
    && forall j :: 0 <= j < |s.attempts| && j != k ==> t.attempts[j] == s.attempts[j]
  }

  /** Completing an attempt under its token ends it, its stage and its job in success, and does nothing else. */
  lemma CompletionSucceeds(s: Rows, k: nat, token: nat)
    requires Inv(s) && Holds(s, k, token)
    ensures var t := Apply(s, Complete(k, token));
            && t.attempts[k].status == Succeeded && t.stage == StageSucceeded && t.job == JobSucceeded
            && t.attempts[k].recoveries == s.attempts[k].recoveries && t.attempts[k].queuedAt == s.attempts[k].queuedAt
            && |t.attempts| == |s.attempts| && OtherAttemptsKept(s, t, k)
            && t.events == s.events && t.readyAt == s.readyAt && t.nextToken == s.nextToken
  {
  }

  /** How the failure of an attempt ends it: reported by its worker, or found by recovery. */
  function EndStatus(step: Step): AttemptStatus
    requires step.Fail? || step.TimeOut?
  {
    if step.Fail? then Failed else TimedOut
  }

  /** The failure may be tried again; recovery always does. */
  predicate TriesAgain(step: Step)
    requires step.Fail? || step.TimeOut?
  {
    step.TimeOut? || step.retryable
  }

  /** A failure that is not to be tried again, or has no attempt left, ends the job with it, and schedules nothing. */
  lemma FinalFailure(s: Rows, step: Step)
    requires Inv(s) && (step.Fail? || step.TimeOut?) && Effective(s, step)
    requires !TriesAgain(step) || |s.attempts| == s.maxAttempts
    ensures var t := Apply(s, step);
            && t.attempts[step.k].status == EndStatus(step) && t.stage == StageFailed && t.job == JobFailed
            && |t.attempts| == |s.attempts| && OtherAttemptsKept(s, t, step.k)
            && t.events == s.events && t.readyAt == s.readyAt
  {
    ActsOnLast(s, step.k);
    assert AttemptOk(s, step.k);
  }

  /** A failure to be tried again, with an attempt left, queues the next attempt and the event that will wake it. */
  lemma RetriedFailure(s: Rows, step: Step)
    requires Inv(s) && (step.Fail? || step.TimeOut?) && Effective(s, step)
    requires TriesAgain(step) && |s.attempts| < s.maxAttempts
    ensures var t, n := Apply(s, step), |s.attempts|;
            && t.attempts[step.k].status == EndStatus(step) && OtherAttemptsKept(s, t, step.k)
            && |t.attempts| == n + 1 && t.attempts[n] == Attempt(n + 1, Queued, None, None, 0, step.now)
            && t.stage == RetryWait && t.job == s.job && t.readyAt == step.now + 5000 * Power(n - 1)
            && t.events == s.events + [Event(n + 1, Pending, t.readyAt, None, None, None)]
  {
    ActsOnLast(s, step.k);
    assert AttemptOk(s, step.k);
  }

  /** A worker's failure needs its token only; recovery also needs the lease to have run out by the time it gives. */
  lemma FailsExactly(s: Rows, step: Step)
    requires Inv(s) && (step.Fail? || step.TimeOut?)
    ensures Apply(s, step) != s <==>
            && step.k < |s.attempts| && s.attempts[step.k].token == Some(step.token)
            && (step.TimeOut? ==> s.attempts[step.k].until.Some? && s.attempts[step.k].until.value < step.before)
  {
    if step.k < |s.attempts| { assert AttemptOk(s, step.k); }
  }

  /** A beat under the held token keeps every other worker out until its lease ends, and changes nothing else. */
  lemma HeartbeatExtends(s: Rows, k: nat, token: nat, now: int, lease: nat)
    requires Inv(s) && Holds(s, k, token)
    ensures var t := Apply(s, Heartbeat(k, token, now, lease));
            && Holds(t, k, token)
            && (forall later :: later <= now + lease ==> !Claimable(t, k, later))
            && (forall later :: later > now + lease ==> (Claimable(t, k, later) <==> s.attempts[k].recoveries == 0))
            && t == s.(attempts := t.attempts) && |t.attempts| == |s.attempts| && OtherAttemptsKept(s, t, k)
            && t.attempts[k] == s.attempts[k].(until := t.attempts[k].until)
  {
    assert AttemptOk(s, k);
    ActsOnLast(s, k);
  }

  /** A claim keeps every other worker out until its lease ends. */
  lemma ClaimExcludes(s: Rows, k: nat, now: int, lease: nat, later: int)
    requires Inv(s) && Claimable(s, k, now)
    ensures var t := Apply(s, Claim(k, now, lease));
            && (Claimable(t, k, later) <==> later > now + lease && s.attempts[k].status == Queued)
            && |t.attempts| == |s.attempts| && OtherAttemptsKept(s, t, k)
            && t.events == s.events && t.readyAt == s.readyAt && t.attempts[k].queuedAt == s.attempts[k].queuedAt
  {
    assert AttemptOk(s, k);
    ActsOnLast(s, k);
  }

  /** Only event `i` may differ. */
  ghost predicate OtherEventsKept(s: Rows, t: Rows, i: nat) {
    && t == s.(events := t.events, nextToken := t.nextToken) && |t.events| == |s.events|
    && forall j :: 0 <= j < |s.events| && j != i ==> t.events[j] == s.events[j]
  }

  /**
   * What recovery redelivers: the event of an attempt that waits, or whose first lease ran out, if it was published
   * long enough ago and, where the attempt waits, that has been due, and queued, for long enough.
   */
  lemma ReplayableExactly(s: Rows, i: nat, k: nat, now: int, staleBefore: int)
    requires Inv(s) && i < |s.events| && k < |s.attempts|
    ensures Replayable(s, i, k, now, staleBefore) <==>
            && i == k && s.events[i].publishedAt.Some? && s.events[i].publishedAt.value < staleBefore
            && Claimable(s, k, now)
            && (s.attempts[k].status == Queued ==> s.attempts[k].queuedAt < staleBefore && s.readyAt <= now)
  {
    assert AttemptOk(s, k) && EventOk(s, i);
    if !Ended(s.attempts[k].status) { ActsOnLast(s, k); }
  }

  /** A redelivered event is due at once; the others, and all that is not an event, stay as they are. */
  lemma ReplayIsDue(s: Rows, i: nat, k: nat, now: int, staleBefore: int)
    requires Inv(s) && Replayable(s, i, k, now, staleBefore)
    ensures var t := Apply(s, Replay(i, k, now, staleBefore));
            && OtherEventsKept(s, t, i) && t.nextToken == s.nextToken && t.events[i].key == s.events[i].key
            && t.events[i].status == Pending
            && forall later :: Relayable(t.events[i], later) <==> later >= now
  {
  }

  /** A relay that takes an event keeps the others off it until its lease ends. */
  lemma RelayExcludes(s: Rows, i: nat, now: int, lease: nat)
    requires Inv(s) && i < |s.events| && Relayable(s.events[i], now)
    ensures var t := Apply(s, Relay(i, now, lease));
            && OtherEventsKept(s, t, i) && t.events[i].key == s.events[i].key
            && t.events[i].lease == Some(s.nextToken) && t.nextToken == s.nextToken + 1
            && forall later :: Relayable(t.events[i], later) <==> later > now + lease
  {
    assert EventOk(s, i);
  }

  /** Publishing is recorded under the relay's own lease: published now, or due again after the delay. */
  lemma PublishRecords(s: Rows, i: nat, lease: nat, ok: bool, now: int, delay: nat)
    requires Inv(s) && i < |s.events|
    ensures var t := Apply(s, Publish(i, lease, ok, now, delay));
            && OtherEventsKept(s, t, i) && t.nextToken == s.nextToken && t.events[i].key == s.events[i].key
            && (s.events[i].lease != Some(lease) ==> t == s)
            && (s.events[i].lease == Some(lease) ==>
                  if ok then t.events[i].publishedAt == Some(now) && t.events[i].status == Published
                  else
                    && t.events[i].status == PublishFailed
                    && forall later :: Relayable(t.events[i], later) <==> later >= now + delay)
  {
    assert EventOk(s, i);
  }

  // ---- Bounds ----

  /** Attempts left, then what the last attempt can still go through. */
  function Measure(s: Rows): int
    requires s.attempts != []
  {
    3 * (s.maxAttempts - |s.attempts|) + Rank(Last(s))
  }

  function Rank(a: Attempt): nat {
    if a.status == Queued then 3
    else if a.status == Running then (if a.recoveries == 0 then 2 else 1)
    else 0
  }

  /** A step that changes an attempt other than by extending a lease. */
  predicate Effective(s: Rows, step: Step) {
    match step
    case Claim(k, now, lease) => Claimable(s, k, now)
    case Complete(k, token) => Holds(s, k, token)
    case Fail(k, token, retryable, now) => Failable(s, k, token, None)
    case TimeOut(k, token, before, now) => Failable(s, k, token, Some(before))
    case _ => false
  }

  lemma MeasureDecreases(s: Rows, step: Step)
    requires Inv(s)
    ensures 0 <= Measure(s) <= 3 * s.maxAttempts
    ensures if Effective(s, step) then Measure(Apply(s, step)) < Measure(s) else Measure(Apply(s, step)) == Measure(s)
    ensures Effective(s, step) ==> !Terminal(s)
  {
    InvStep(s, step);
    if Effective(s, step) {
      ActsOnLast(s, step.k);
      assert AttemptOk(s, step.k);
    }
  }

  function EffectiveSteps(s: Rows, steps: seq<Step>): nat
    decreases |steps|
  {
    if steps == [] then 0
    else (if Effective(s, steps[0]) then 1 else 0) + EffectiveSteps(Apply(s, steps[0]), steps[1..])
  }

  /** Whatever the schedule, only so many steps change an attempt: with heartbeats aside, the job ends. */
  lemma {:induction false} RunsAreBounded(s: Rows, steps: seq<Step>)
    requires Inv(s)
    ensures Inv(Run(s, steps)) && EffectiveSteps(s, steps) <= Measure(s) - Measure(Run(s, steps))
    ensures EffectiveSteps(s, steps) <= 3 * s.maxAttempts
    decreases |steps|
  {
    InvRun(s, steps);
    MeasureDecreases(Run(s, steps), Complete(0, 0));
    if steps == [] {
      MeasureDecreases(s, Complete(0, 0));
    } else {
      MeasureDecreases(s, steps[0]);
      InvStep(s, steps[0]);
      RunsAreBounded(Apply(s, steps[0]), steps[1..]);
    }
  }

  /** Executions: a worker runs the executor once for each claim that returns a lease. */
  function Executions(s: Rows, steps: seq<Step>): nat
    decreases |steps|
  {
    if steps == [] then 0
    else (if steps[0].Claim? && Effective(s, steps[0]) then 1 else 0) + Executions(Apply(s, steps[0]), steps[1..])
  }

  /** How often the work can still be claimed: twice for each attempt to come, and what the last one has left. */
  function ClaimsLeft(s: Rows): int
    requires s.attempts != []
  {
    2 * (s.maxAttempts - |s.attempts|)
    + if Last(s).status == Queued then 2 else if Last(s).status == Running && Last(s).recoveries == 0 then 1 else 0
  }

  lemma ClaimsLeftStep(s: Rows, step: Step)
    requires Inv(s)
    ensures 0 <= ClaimsLeft(s) <= 2 * s.maxAttempts
    ensures Apply(s, step).attempts != []
    ensures ClaimsLeft(Apply(s, step)) <= ClaimsLeft(s) - if step.Claim? && Effective(s, step) then 1 else 0
  {
    InvStep(s, step);
    if Effective(s, step) {
      ActsOnLast(s, step.k);
      assert AttemptOk(s, step.k);
    }
  }

  /** The executor runs at most twice per attempt allowed. */
  lemma {:induction false} ExecutionsAreBounded(s: Rows, steps: seq<Step>)
    requires Inv(s)
    ensures Executions(s, steps) <= ClaimsLeft(s) <= 2 * s.maxAttempts
    decreases |steps|
  {
    if steps == [] {
      ClaimsLeftStep(s, Complete(0, 0));
    } else {
      ClaimsLeftStep(s, steps[0]);
      InvStep(s, steps[0]);
      ExecutionsAreBounded(Apply(s, steps[0]), steps[1..]);
    }
  }

  /** The delay a step puts before the attempt it creates. */
  function StepDelay(s: Rows, step: Step): int {
    var t := Apply(s, step);
    if (step.Fail? || step.TimeOut?) && |t.attempts| > |s.attempts| then t.readyAt - step.now else 0
  }

  function ScheduledBackoff(s: Rows, steps: seq<Step>): int
    decreases |steps|
  {
    if steps == [] then 0 else StepDelay(s, steps[0]) + ScheduledBackoff(Apply(s, steps[0]), steps[1..])
  }

  /** How often the work was retried. */
  function Retries(s: Rows): nat {
    if |s.attempts| == 0 then 0 else |s.attempts| - 1
  }

  lemma BackoffStep(s: Rows, step: Step)
    requires Inv(s)
    ensures var t := Apply(s, step);
            && Retries(s) <= Retries(t) <= Retries(s) + 1
            && (Retries(t) > Retries(s) ==>
              (step.Fail? || step.TimeOut?) && StepDelay(s, step) == 5000 * Power(Retries(s)))
            && StepDelay(s, step) == 5000 * Power(Retries(t)) - 5000 * Power(Retries(s))
  {
    if Effective(s, step) {
      ActsOnLast(s, step.k);
      assert AttemptOk(s, step.k);
    }
  }

  /** A retry is one new attempt, queued, whose event is pending and due when the stage is ready. */
  lemma RetryIsScheduled(s: Rows, step: Step)
    requires Inv(s) && |Apply(s, step).attempts| > |s.attempts|
    ensures var t, n := Apply(s, step), |s.attempts|;
            && |t.attempts| == |t.events| == n + 1 && t.attempts[n].status == Queued && t.attempts[n].number == n + 1
            && t.events[n].key == n + 1 && t.events[n].status == Pending && t.events[n].availableAt == t.readyAt
            && t.attempts[n - 1].status in {Failed, TimedOut} && t.stage == RetryWait
  {
    BackoffStep(s, step);
    if Effective(s, step) {
      ActsOnLast(s, step.k);
      assert AttemptOk(s, step.k);
    }
  }

  /** Delays double: those before n retries add up to 5000 * (2^n - 1) milliseconds. */
  lemma {:induction false} BackoffTotal(s: Rows, steps: seq<Step>)
    requires Inv(s)
    ensures ScheduledBackoff(s, steps) == 5000 * Power(Retries(Run(s, steps))) - 5000 * Power(Retries(s))
    decreases |steps|
  {
    if steps != [] {
      BackoffStep(s, steps[0]);
      InvStep(s, steps[0]);
      BackoffTotal(Apply(s, steps[0]), steps[1..]);
    }
  }

  lemma BackoffIsBounded(maxAttempts: nat, now: int, steps: seq<Step>)
    requires maxAttempts >= 1
    ensures ScheduledBackoff(Initial(maxAttempts, now), steps) <= 5000 * (Power(maxAttempts - 1) - 1)
  {
    var s := Initial(maxAttempts, now);
    InvInitial(maxAttempts, now);
    InvRun(s, steps);
    BackoffTotal(s, steps);
    PowerGrows(Retries(Run(s, steps)), maxAttempts - 1);
  }

  // ---- No work is stranded ----

  /** What a recovery pass does about the last attempt: time it out, or redeliver its event. */
  function RecoveryStep(s: Rows, now: int, staleBefore: int): Step
    requires s.attempts != []
  {
    var k := |s.attempts| - 1;
    if Last(s).status == Running && Last(s).recoveries >= MAX_LEASE_RECOVERIES_PER_ATTEMPT && Last(s).token.Some?
    then TimeOut(k, Last(s).token.value, now, now)
    else Replay(k, k, now, staleBefore)
  }

  /** The lease ran out, the retry is due, and delivery has had its recovery window. */
  ghost predicate Late(s: Rows, now: int, staleBefore: int)
    requires s.attempts != []
  {
    && Last(s).queuedAt < staleBefore && s.readyAt <= now
    && (Last(s).until.Some? ==> Last(s).until.value < now)
    && forall i :: 0 <= i < |s.events| ==>
      (s.events[i].publishedAt.Some? ==> s.events[i].publishedAt.value < staleBefore)
  }

  /**
   * At a late enough time, whatever the recovery window, the recovery pass leaves no unfinished job without a
   * wake-up: it timed the attempt out, or the attempt's event is one the relay will deliver and the attempt is one
   * a claim will take.
   */
  lemma NoStrandedWork(s: Rows, now: int, staleBefore: int)
    requires Inv(s) && !Terminal(s) && Late(s, now, staleBefore)
    ensures var t, k := Apply(s, RecoveryStep(s, now, staleBefore)), |s.attempts| - 1;
            if Last(s).status == Running && Last(s).recoveries == 1 then t.attempts[k].status == TimedOut
            else t.events[k].key == s.attempts[k].number && t.events[k].status != Published && Claimable(t, k, now)
  {
    var k := |s.attempts| - 1;
    assert AttemptOk(s, k) && EventOk(s, k);
    ClaimableExactly(s, k, now);
  }

  /** Workers that all stall: claim, let the lease run out, reclaim, let it run out, time out, retry. */
  function Stall(s: Rows, now: int, rounds: nat): seq<Step>
    decreases rounds
  {
    if rounds == 0 || s.attempts == [] then []
    else
      var k := |s.attempts| - 1;
      var step :=
        if Last(s).status == Running && Last(s).recoveries >= MAX_LEASE_RECOVERIES_PER_ATTEMPT && Last(s).token.Some?
        then TimeOut(k, Last(s).token.value, now, now)
        else Claim(k, now, 0);
      [step] + Stall(Apply(s, step), now + 1, rounds - 1)
  }

  lemma StallStep(s: Rows, now: int)
    requires Inv(s) && !Terminal(s) && (Last(s).until.Some? ==> Last(s).until.value < now)
    ensures var step := Stall(s, now, 1)[0]; var t := Apply(s, step);
            && Inv(t) && Effective(s, step)
            && (Terminal(t) ==> t.job == JobFailed && Measure(t) == 0 && ClaimsLeft(t) == 0)
            && Measure(t) == Measure(s) - 1
            && (Last(t).until.Some? ==> Last(t).until.value < now + 1)
            && ClaimsLeft(t) == ClaimsLeft(s) - if step.Claim? then 1 else 0
  {
    var step := Stall(s, now, 1)[0];
    var k := |s.attempts| - 1;
    assert AttemptOk(s, k);
    ClaimableExactly(s, k, now);
    InvStep(s, step);
  }

  /**
   * The bounds are reached: from any unfinished state, workers that always stall drive the job to FAILED
   * with every claim that was left, one step at a time.
   */
  lemma {:induction false} StalledWorkersEndTheJob(s: Rows, now: int)
    requires Inv(s) && !Terminal(s) && (Last(s).until.Some? ==> Last(s).until.value < now)
    ensures Measure(s) >= 0
    ensures var steps := Stall(s, now, Measure(s));
            Run(s, steps).job == JobFailed && EffectiveSteps(s, steps) == Measure(s)
              && Executions(s, steps) == ClaimsLeft(s)
    decreases 3 * (s.maxAttempts - |s.attempts|) + Rank(Last(s))
  {
    var step := Stall(s, now, 1)[0];
    var t := Apply(s, step);
    MeasureDecreases(s, step);
    StallStep(s, now);
    var steps := Stall(s, now, Measure(s));
    assert steps[0] == step && steps[1..] == Stall(t, now + 1, Measure(t));
    if Terminal(t) {
      assert Run(t, []) == t && EffectiveSteps(t, []) == 0 && Executions(t, []) == 0;
      assert steps[1..] == [];
    } else {
      StalledWorkersEndTheJob(t, now + 1);
    }
  }
}
