/** The database rows of one source-preparation job, updated in place by the worker's transactions. */
module SourcePreparation {
  import opened Backoff
  import opened Wrappers
  import opened MediaLease

  class Store {
    var attempts: seq<Attempt>
    var stage: StageStatus
    var readyAt: int
    const maxAttempts: nat
    var job: JobStatus
    var events: seq<Event>
    var nextToken: nat

    function Contents(): Rows
      reads this
    {
      Rows(attempts, stage, readyAt, maxAttempts, job, events, nextToken)
    }

    ghost predicate Valid()
      reads this
    {
      Inv(Contents())
    }

    constructor (maxAttempts: nat, now: int)
      requires maxAttempts >= 1
      ensures Contents() == Initial(maxAttempts, now)
      ensures Valid()
    {
      attempts := [Attempt(1, Queued, None, None, 0, now)];
      stage := StageQueued;
      readyAt := now;
      this.maxAttempts := maxAttempts;
      job := JobQueued;
      events := [Event(1, Pending, now, None, None, None)];
      nextToken := 0;
      new;
      InvInitial(maxAttempts, now);
    }

    /** Takes attempt `k` if it waits, or if its first lease ran out. */
    method ClaimAttempt(k: nat, now: int, lease: nat) returns (token: Option<nat>)
      requires Valid()
      modifies this
      ensures Contents() == AfterClaim(old(Contents()), k, now, lease)
      ensures Valid()
      ensures token.Some? <==> old(Claimable(Contents(), k, now))
      ensures token.Some? ==> Holds(Contents(), k, token.value) && token.value >= old(nextToken)
    {
      InvClaim(Contents(), k, now, lease);
      if k >= |attempts| { return None; }
      var a := attempts[k];
      var recovering := a.status == Running && a.token.Some? && a.until.Some? && a.until.value < now;
      var queued := a.status == Queued;
      if !queued && !recovering { return None; }
      if queued && !(stage in {StageQueued, RetryWait} && job in {JobQueued, JobRunning}) { return None; }
      if recovering && !(stage == StageRunning && job == JobRunning) { return None; }
      if recovering && a.recoveries >= MAX_LEASE_RECOVERIES_PER_ATTEMPT { return None; }
      token := Some(nextToken);
      nextToken := nextToken + 1;
      attempts := attempts[k := a.(token := token, until := Some(now + lease))];
      if queued {
        attempts := attempts[k := attempts[k].(status := Running)];
        stage := StageRunning;
        job := JobRunning;
      } else {
        attempts := attempts[k := attempts[k].(recoveries := a.recoveries + 1)];
      }
      assert attempts == AfterClaim(old(Contents()), k, now, lease).attempts;
    }

    /** Commits a result if the caller's token still runs the attempt. */
    method CompleteAttempt(k: nat, token: nat) returns (won: bool)
      requires Valid()
      modifies this
      ensures Contents() == AfterComplete(old(Contents()), k, token)
      ensures Valid()
      ensures won <==> old(Holds(Contents(), k, token))
    {
      InvComplete(Contents(), k, token);
      won := k < |attempts| && attempts[k].status == Running && attempts[k].token == Some(token);
      if won {
        attempts := attempts[k := attempts[k].(status := Succeeded, token := None, until := None)];
        stage := StageSucceeded;
        job := JobSucceeded;
      }
    }

    /** Ends the attempt; schedules the next one if the failure is retryable and one is left. */
    method FailAttemptById(k: nat, token: nat, retryable: bool, status: AttemptStatus, expiredBefore: Option<int>,
                           now: int)
        returns (won: bool)
      requires Valid() && status in {Failed, TimedOut}
      modifies this
      ensures Contents() == AfterFail(old(Contents()), k, token, retryable, status, expiredBefore, now)
      ensures Valid()
      ensures won <==> old(Failable(Contents(), k, token, expiredBefore))
    {
      InvFail(Contents(), k, token, retryable, status, expiredBefore, now);
      if k >= |attempts| || attempts[k].status != Running { return false; }
      var a := attempts[k];
      if a.token != Some(token) { return false; }
      if expiredBefore.Some? && !(a.until.Some? && a.until.value < expiredBefore.value) { return false; }
      won := true;
      attempts := attempts[k := a.(status := status, token := None, until := None)];
      if retryable && a.number < maxAttempts {
        var next := a.number + 1;
        attempts := attempts + [Attempt(next, Queued, None, None, 0, now)];
        stage := RetryWait;
        readyAt := now + Delay(next);
        events := events + [Event(next, Pending, now + Delay(next), None, None, None)];
      } else {
        stage := StageFailed;
        job := JobFailed;
      }
    }

    method Heartbeat(k: nat, token: nat, now: int, lease: nat)
      requires Valid()
      modifies `attempts
      ensures Contents() == AfterHeartbeat(old(Contents()), k, token, now, lease)
      ensures Valid()
    {
      InvHeartbeat(Contents(), k, token, now, lease);
      if k < |attempts| && attempts[k].status == Running && attempts[k].token == Some(token) {
        attempts := attempts[k := attempts[k].(until := Some(now + lease))];
      }
    }

    /** One recovery pass: redeliver stale events, then time out attempts whose second lease ran out. */
    method RecoverExpiredAttempts(now: int, staleBefore: int) returns (recovered: nat)
      requires Valid()
      modifies this
      ensures Valid()
      ensures var k := |old(attempts)| - 1;
              Contents() ==
                if old(Exhausted(Contents(), k, now))
                then AfterFail(old(Contents()), k, old(attempts)[k].token.value, true, TimedOut, Some(now), now)
                else AfterReplay(old(Contents()), k, k, now, staleBefore)
      ensures recovered == if old(Exhausted(Contents(), |attempts| - 1, now)
                                  || Replayable(Contents(), |attempts| - 1, |attempts| - 1, now, staleBefore))
                           then 1 else 0
    {
      recovered := 0;
      ghost var s := Contents();
      ghost var last := |attempts| - 1;
      assert AttemptOk(s, last);
      var i := 0;
      while i < |events|
        invariant 0 <= i <= |events| == |attempts| == last + 1 && Valid()
        invariant Contents() == if i <= last then s else AfterReplay(s, last, last, now, staleBefore)
        invariant recovered == if i > last && Replayable(s, last, last, now, staleBefore) then 1 else 0
      {
        InvOutbox(Contents(), Replay(i, i, now, staleBefore));
        if Replayable(Contents(), i, i, now, staleBefore) {
          OnlyLastIsReplayable(s, i, now, staleBefore);
          events := events[i := events[i].(status := Pending, availableAt := now, publishedAt := None, lease := None,
                                           until := None)];
          recovered := recovered + 1;
        }
        i := i + 1;
      }
      var n := |attempts|;
      var k := 0;
      ghost var t := Contents();
      ReplayedIsNotExhausted(s, now, staleBefore);
      while k < n
        invariant 0 <= k <= n == last + 1 <= |attempts| && Valid()
        invariant k <= last ==> Contents() == t
        invariant k > last ==>
          Contents() == if Exhausted(s, last, now)
            then AfterFail(s, last, s.attempts[last].token.value, true, TimedOut, Some(now), now) else t
        invariant recovered == (if Replayable(s, last, last, now, staleBefore) then 1 else 0)
                               + (if k > last && Exhausted(s, last, now) then 1 else 0)
      {
        if Exhausted(Contents(), k, now) {
          OnlyLastIsExhausted(s, t, k, now);
          var won := FailAttemptById(k, attempts[k].token.value, true, TimedOut, Some(now), now);
          if won { recovered := recovered + 1; }
        }
        k := k + 1;
      }
    }
  }

  /** A running attempt whose second lease ran out. */
  predicate Exhausted(s: Rows, k: int, now: int) {
    && 0 <= k < |s.attempts|
    && var a := s.attempts[k];
       && a.status == Running && a.token.Some? && a.until.Some? && a.until.value < now
       && a.recoveries >= MAX_LEASE_RECOVERIES_PER_ATTEMPT && s.stage == StageRunning && s.job == JobRunning
  }

  lemma OnlyLastIsReplayable(s: Rows, i: nat, now: int, staleBefore: int)
    requires Inv(s) && Replayable(s, i, i, now, staleBefore)
    ensures i == |s.attempts| - 1
  {
    ActsOnLast(s, i);
  }

  lemma ReplayedIsNotExhausted(s: Rows, now: int, staleBefore: int)
    requires Inv(s)
    ensures var last := |s.attempts| - 1; Exhausted(s, last, now) ==> !Replayable(s, last, last, now, staleBefore)
  {
  }

  lemma OnlyLastIsExhausted(s: Rows, t: Rows, k: nat, now: int)
    requires Inv(s) && t.attempts == s.attempts && t.stage == s.stage && t.job == s.job && Exhausted(t, k, now)
    ensures k == |s.attempts| - 1 && Exhausted(s, k, now)
  {
    ActsOnLast(s, k);
  }
}
