/** The queue of translation generations: leases, bounded retries and the events that wake a worker. */
module GenerationLease {
  import opened Backoff
  import opened Editorial
  import opened Sorting
  import opened Wrappers

  /** What a generation saw of one dialogue; the target fields are absent when it had no translation. */
  datatype SnapshotDialogue = SnapshotDialogue(dialogue: nat, source: nat, targetId: Option<TranslationId>,
                                               targetRevision: Option<nat>, targetCounter: Option<nat>)

  datatype Snapshot = Snapshot(track: nat, scene: nat, sceneRevision: nat, dialogues: seq<SnapshotDialogue>,
                               glossary: seq<nat>)

  datatype Status = Queued | Running | Succeeded | Failed

  datatype Generation = Generation(snapshot: Snapshot, status: Status, attemptCount: nat, maxAttempts: nat,
                                   token: Option<nat>, until: Option<int>, execution: Option<nat>)

  /** The deduplication key of an event, beside its generation: the first request, or the retry for attempt `n`. */
  datatype EventKey = Requested | Retry(n: nat)

  /** Pending while `published` is absent. */
  datatype Event = Event(generation: nat, key: EventKey, availableAt: int, published: Option<int>)

  datatype Queue = Queue(generations: seq<Generation>, events: seq<Event>, nextToken: nat)

  // ---- Transactions ----

  function AfterRequest(q: Queue, snapshot: Snapshot, maxAttempts: nat, now: int): Queue {
    q.(generations := q.generations + [Generation(snapshot, Queued, 0, maxAttempts, None, None, None)],
       events := q.events + [Event(|q.generations|, Requested, now, None)])
  }

  function Replace(q: Queue, g: nat, row: Generation): Queue
    requires g < |q.generations|
  {
    q.(generations := q.generations[g := row])
  }

  predicate Waiting(q: Queue, g: nat) {
    g < |q.generations| && q.generations[g].status == Queued
  }

  function AfterClaim(q: Queue, g: nat, now: int, lease: nat): Queue {
    if !Waiting(q, g) then q
    else
      var row := q.generations[g];
      if row.attemptCount >= row.maxAttempts
      then Replace(q, g, row.(status := Failed, execution := Some(q.nextToken))).(nextToken := q.nextToken + 1)
      else Replace(q, g, row.(status := Running, attemptCount := row.attemptCount + 1, token := Some(q.nextToken),
                              until := Some(now + lease), execution := Some(q.nextToken + 1)))
        .(nextToken := q.nextToken + 2)
  }

  predicate Holds(q: Queue, g: nat, token: nat) {
    g < |q.generations| && q.generations[g].status == Running && q.generations[g].token == Some(token)
  }

  /** The lease a commit needs: its own token and execution, and not yet run out. */
  predicate Leased(q: Queue, g: nat, token: nat, execution: nat, now: int) {
    && Holds(q, g, token) && q.generations[g].execution == Some(execution)
    && q.generations[g].until.Some? && q.generations[g].until.value > now
  }

  function Released(row: Generation, status: Status): Generation {
    row.(status := status, token := None, until := None)
  }

  function AfterSuccess(q: Queue, g: nat): Queue
    requires g < |q.generations|
  {
    Replace(q, g, Released(q.generations[g], Succeeded))
  }

  /**
   * A worker fails its attempt while the lease lasts; recovery fails it once the lease ran out before
   * `expiredBefore`.
   */
  predicate Failable(q: Queue, g: nat, token: nat, expiredBefore: Option<int>, now: int) {
    && Holds(q, g, token) && q.generations[g].until.Some?
    && if expiredBefore.Some? then q.generations[g].until.value < expiredBefore.value
       else q.generations[g].until.value > now
  }

  predicate Retries(row: Generation, retryable: bool) {
    retryable && row.attemptCount < row.maxAttempts
  }

  /** `5000 * 2 ** max(0, next - 2)` milliseconds. */
  function RetryDelay(next: nat): nat {
    if next >= 2 then Delay(next) else Delay(2)
  }

  function AfterFail(q: Queue, g: nat, token: nat, retryable: bool, expiredBefore: Option<int>, now: int): Queue {
    if !Failable(q, g, token, expiredBefore, now) then q
    else
      var row := q.generations[g];
      if Retries(row, retryable) then
        var next := row.attemptCount + 1;
        Replace(q, g, Released(row, Queued).(execution := None))
          .(events := q.events + [Event(g, Retry(next), now + RetryDelay(next), None)])
      else Replace(q, g, Released(row, Failed))
  }

  function AfterHeartbeat(q: Queue, g: nat, token: nat, now: int, lease: nat): Queue {
    if !Holds(q, g, token) then q else Replace(q, g, q.generations[g].(until := Some(now + lease)))
  }

  function AfterPublish(q: Queue, e: nat, now: int): Queue {
    if e < |q.events| && q.events[e].published.None? && q.events[e].availableAt <= now
    then q.(events := q.events[e := q.events[e].(published := Some(now))]) else q
  }

  predicate Replayable(q: Queue, e: nat, staleBefore: int) {
    && e < |q.events| && q.events[e].published.Some? && q.events[e].published.value < staleBefore
    && Waiting(q, q.events[e].generation)
  }

  function AfterReplay(q: Queue, e: nat, now: int, staleBefore: int): Queue {
    if !Replayable(q, e, staleBefore) then q
    else q.(events := q.events[e := q.events[e].(published := None, availableAt := now)])
  }

  /** Steps of workers, recovery and relay that leave the texts alone. */
  datatype Work =
    | Claim(g: nat, now: int, lease: nat)
    | Fail(g: nat, token: nat, retryable: bool, expiredBefore: Option<int>, now: int)
    | Heartbeat(g: nat, token: nat, now: int, lease: nat)
    | Publish(e: nat, now: int)
    | Replay(e: nat, now: int, staleBefore: int)

  function AfterWork(q: Queue, work: Work): Queue {
    match work
    case Claim(g, now, lease) => AfterClaim(q, g, now, lease)
    case Fail(g, token, retryable, expiredBefore, now) => AfterFail(q, g, token, retryable, expiredBefore, now)
    case Heartbeat(g, token, now, lease) => AfterHeartbeat(q, g, token, now, lease)
    case Publish(e, now) => AfterPublish(q, e, now)
    case Replay(e, now, staleBefore) => AfterReplay(q, e, now, staleBefore)
  }

  // ---- What every step keeps ----

  predicate Ended(status: Status) {
    status == Succeeded || status == Failed
  }

  /** A lease exactly while it runs; a waiting generation has an attempt left. */
  ghost predicate RowOk(row: Generation, nextToken: nat) {
    && row.attemptCount <= row.maxAttempts
    && (row.token.Some? <==> row.status == Running)
    && (row.until.Some? <==> row.status == Running)
    && (row.execution.Some? <==> row.status != Queued)
    && (row.token.Some? ==> row.token.value < nextToken)
    && (row.status == Queued ==> row.attemptCount < row.maxAttempts)
    && (row.status != Queued ==> row.attemptCount >= 1)
  }

  /** Retry events name attempts that were scheduled already. */
  ghost predicate EventOk(q: Queue, e: nat)
    requires e < |q.events|
  {
    var v := q.events[e];
    v.generation < |q.generations|
    && (v.key.Retry? ==>
          var row := q.generations[v.generation];
          2 <= v.key.n <= row.attemptCount + if row.status == Queued then 1 else 0)
  }

  /** The event that delivers the attempt a waiting generation is due. */
  ghost predicate Delivers(q: Queue, e: nat, g: nat) {
    && e < |q.events| && g < |q.generations| && q.events[e].generation == g
    && q.events[e].key == if q.generations[g].attemptCount == 0 then Requested
       else Retry(q.generations[g].attemptCount + 1)
  }

  ghost predicate HasDelivery(q: Queue, g: nat) {
    exists e :: Delivers(q, e, g)
  }

  ghost predicate QueueInv(q: Queue) {
    && (forall g :: 0 <= g < |q.generations| ==> RowOk(q.generations[g], q.nextToken))
    && (forall e :: 0 <= e < |q.events| ==> EventOk(q, e))
    && (forall e, f :: 0 <= e < f < |q.events| ==>
      q.events[e].generation != q.events[f].generation || q.events[e].key != q.events[f].key)
    && (forall g :: 0 <= g < |q.generations| && q.generations[g].status == Queued ==> HasDelivery(q, g))
  }

  lemma InvRequest(q: Queue, snapshot: Snapshot, maxAttempts: nat, now: int)
    requires QueueInv(q) && maxAttempts >= 1
    ensures QueueInv(AfterRequest(q, snapshot, maxAttempts, now))
  {
    var r := AfterRequest(q, snapshot, maxAttempts, now);
    forall e | 0 <= e < |r.events| ensures EventOk(r, e) { if e < |q.events| { assert EventOk(q, e); } }
    forall e, f | 0 <= e < f < |r.events|
      ensures r.events[e].generation != r.events[f].generation || r.events[e].key != r.events[f].key
    {
      assert EventOk(q, e);
    }
    forall g | 0 <= g < |r.generations| && r.generations[g].status == Queued ensures HasDelivery(r, g) {
      if g < |q.generations| {
        assert HasDelivery(q, g);
        var e :| Delivers(q, e, g);
        assert Delivers(r, e, g);
      } else {
        assert Delivers(r, |q.events|, g);
      }
    }
  }

  /** One row replaced, with the events unchanged; a row that waits now waited before, with as many attempts. */
  lemma RowReplaced(q: Queue, g: nat, row: Generation, nextToken: nat)
    requires QueueInv(q) && g < |q.generations| && nextToken >= q.nextToken && RowOk(row, nextToken)
    requires var was := q.generations[g];
             row.attemptCount + (if row.status == Queued then 1 else 0)
             >= was.attemptCount + (if was.status == Queued then 1 else 0)
    requires row.status == Queued ==>
      q.generations[g].status == Queued && row.attemptCount == q.generations[g].attemptCount
    ensures QueueInv(Replace(q, g, row).(nextToken := nextToken))
  {
    var r := Replace(q, g, row).(nextToken := nextToken);
    forall e | 0 <= e < |r.events| ensures EventOk(r, e) { assert EventOk(q, e); }
    forall h | 0 <= h < |r.generations|
      ensures RowOk(r.generations[h], r.nextToken)
    {
      assert RowOk(q.generations[h], q.nextToken);
    }
    forall h | 0 <= h < |r.generations| && r.generations[h].status == Queued ensures HasDelivery(r, h) {
      assert HasDelivery(q, h);
      var e :| Delivers(q, e, h);
      assert Delivers(r, e, h);
    }
  }

  lemma InvClaim(q: Queue, g: nat, now: int, lease: nat)
    requires QueueInv(q)
    ensures QueueInv(AfterClaim(q, g, now, lease))
  {
    if Waiting(q, g) {
      var row := q.generations[g];
      assert RowOk(row, q.nextToken);
      RowReplaced(q, g, row.(status := Running, attemptCount := row.attemptCount + 1, token := Some(q.nextToken),
                             until := Some(now + lease), execution := Some(q.nextToken + 1)), q.nextToken + 2);
    }
  }

  lemma InvSuccess(q: Queue, g: nat)
    requires QueueInv(q) && g < |q.generations| && q.generations[g].status == Running
    ensures QueueInv(AfterSuccess(q, g))
  {
    assert RowOk(q.generations[g], q.nextToken);
    RowReplaced(q, g, Released(q.generations[g], Succeeded), q.nextToken);
    assert AfterSuccess(q, g) == AfterSuccess(q, g).(nextToken := q.nextToken);
  }

  /** A retry: the row waits again, and its event is new. */
  lemma Requeued(q: Queue, g: nat, now: int)
    requires QueueInv(q) && g < |q.generations| && q.generations[g].status == Running
    requires q.generations[g].attemptCount < q.generations[g].maxAttempts
    ensures var row := q.generations[g];
            QueueInv(Replace(q, g, Released(row, Queued).(execution := None))
                       .(events := q.events
                         + [Event(g, Retry(row.attemptCount + 1), now + RetryDelay(row.attemptCount + 1), None)]))
  {
    var row := q.generations[g];
    var event := Event(g, Retry(row.attemptCount + 1), now + RetryDelay(row.attemptCount + 1), None);
    var r := Replace(q, g, Released(row, Queued).(execution := None)).(events := q.events + [event]);
    assert RowOk(row, q.nextToken);
    forall e | 0 <= e < |r.events| ensures EventOk(r, e) { if e < |q.events| { assert EventOk(q, e); } }
    forall h | 0 <= h < |r.generations|
      ensures RowOk(r.generations[h], r.nextToken)
    {
      assert RowOk(q.generations[h], q.nextToken);
    }
    forall e, f | 0 <= e < f < |r.events|
      ensures r.events[e].generation != r.events[f].generation || r.events[e].key != r.events[f].key
    {
      assert EventOk(q, e);
    }
    forall h | 0 <= h < |r.generations| && r.generations[h].status == Queued ensures HasDelivery(r, h) {
      if h == g {
        assert Delivers(r, |q.events|, g);
      } else {
        assert HasDelivery(q, h);
        var e :| Delivers(q, e, h);
        assert Delivers(r, e, h);
      }
    }
  }

  lemma InvFail(q: Queue, g: nat, token: nat, retryable: bool, expiredBefore: Option<int>, now: int)
    requires QueueInv(q)
    ensures QueueInv(AfterFail(q, g, token, retryable, expiredBefore, now))
  {
    if Failable(q, g, token, expiredBefore, now) {
      var row := q.generations[g];
      assert RowOk(row, q.nextToken);
      if Retries(row, retryable) {
        Requeued(q, g, now);
      } else {
        RowReplaced(q, g, Released(row, Failed), q.nextToken);
        assert AfterFail(q, g, token, retryable, expiredBefore, now)
            == Replace(q, g, Released(row, Failed)).(nextToken := q.nextToken);
      }
    }
  }

  lemma InvHeartbeat(q: Queue, g: nat, token: nat, now: int, lease: nat)
    requires QueueInv(q)
    ensures QueueInv(AfterHeartbeat(q, g, token, now, lease))
  {
    if Holds(q, g, token) {
      var row := q.generations[g].(until := Some(now + lease));
      assert RowOk(q.generations[g], q.nextToken);
      RowReplaced(q, g, row, q.nextToken);
      assert AfterHeartbeat(q, g, token, now, lease) == Replace(q, g, row).(nextToken := q.nextToken);
    }
  }

  /** A change of one event's delivery. */
  lemma EventReplaced(q: Queue, e: nat, event: Event)
    requires QueueInv(q) && e < |q.events| && event.generation == q.events[e].generation && event.key == q.events[e].key
    ensures QueueInv(q.(events := q.events[e := event]))
  {
    var r := q.(events := q.events[e := event]);
    forall f | 0 <= f < |r.events| ensures EventOk(r, f) { assert EventOk(q, f); }
    forall g | 0 <= g < |r.generations| && r.generations[g].status == Queued ensures HasDelivery(r, g) {
      assert HasDelivery(q, g);
      var f :| Delivers(q, f, g);
      assert Delivers(r, f, g);
    }
  }

  lemma InvWork(q: Queue, work: Work)
    requires QueueInv(q)
    ensures QueueInv(AfterWork(q, work))
  {
    match work
    case Claim(g, now, lease) => InvClaim(q, g, now, lease);
    case Fail(g, token, retryable, expiredBefore, now) => InvFail(q, g, token, retryable, expiredBefore, now);
    case Heartbeat(g, token, now, lease) => InvHeartbeat(q, g, token, now, lease);
    case Publish(e, now) =>
      if AfterPublish(q, e, now) != q { EventReplaced(q, e, q.events[e].(published := Some(now))); }
    case Replay(e, now, staleBefore) =>
      if Replayable(q, e, staleBefore) { EventReplaced(q, e, q.events[e].(published := None, availableAt := now)); }
  }

  // ---- Steps of one generation ----

  /** How one step may move a generation's row; its snapshot stays, and an ended one stays as it is. */
  ghost predicate RowStep(before: Generation, after: Generation) {
    && after.snapshot == before.snapshot && after.maxAttempts == before.maxAttempts
    && (Ended(before.status) ==> after == before)
    && before.attemptCount <= after.attemptCount
    && (after.attemptCount > before.attemptCount ==>
      before.status == Queued && after.status == Running && after.attemptCount == before.attemptCount + 1)
  }

  lemma WorkMovesRow(q: Queue, work: Work, g: nat)
    requires QueueInv(q) && g < |q.generations|
    ensures g < |AfterWork(q, work).generations| && RowStep(q.generations[g], AfterWork(q, work).generations[g])
    ensures AfterWork(q, work).generations[g].status == Succeeded ==> q.generations[g].status == Succeeded
    ensures |AfterWork(q, work).generations| == |q.generations|
  {
    assert RowOk(q.generations[g], q.nextToken);
  }

  /** The branch that fails a generation out of attempts at claim time is never taken. */
  lemma ClaimAlwaysRuns(q: Queue, g: nat, now: int, lease: nat)
    requires QueueInv(q) && Waiting(q, g)
    ensures var row := AfterClaim(q, g, now, lease).generations[g];
            row.status == Running && row.attemptCount == q.generations[g].attemptCount + 1 <= row.maxAttempts
            && Leased(AfterClaim(q, g, now, lease), g, row.token.value, row.execution.value, now) == (lease > 0)
  {
    assert RowOk(q.generations[g], q.nextToken);
  }

  /** The token was issued for this generation's past: the row is not leased under it. */
  ghost predicate Superseded(q: Queue, g: nat, token: nat) {
    g < |q.generations| && token < q.nextToken && q.generations[g].token != Some(token)
  }

  lemma SupersededStays(q: Queue, work: Work, g: nat, token: nat)
    requires QueueInv(q) && Superseded(q, g, token)
    ensures Superseded(AfterWork(q, work), g, token)
    ensures (work.Fail? || work.Heartbeat?) && work.g == g && work.token == token ==> AfterWork(q, work) == q
    ensures forall execution, now :: !Leased(q, g, token, execution, now)
  {
    assert RowOk(q.generations[g], q.nextToken);
  }

  // ---- What each transaction does ----

  /** Only generation `g` may differ, and what is logged of events so far. */
  ghost predicate OtherGenerationsKept(q: Queue, r: Queue, g: nat) {
    && |r.generations| == |q.generations| && q.events <= r.events
    && forall h :: 0 <= h < |q.generations| && h != g ==> r.generations[h] == q.generations[h]
  }

  /** A request queues the generation with all its attempts to come, and the event that will wake a worker at once. */
  lemma RequestQueues(q: Queue, snapshot: Snapshot, maxAttempts: nat, now: int)
    ensures var r, g := AfterRequest(q, snapshot, maxAttempts, now), |q.generations|;
            && r.generations[..g] == q.generations && |r.generations| == g + 1 && r.nextToken == q.nextToken
            && Waiting(r, g) && r.generations[g].snapshot == snapshot && r.generations[g].attemptCount == 0
            && r.generations[g].maxAttempts == maxAttempts
            && r.events == q.events + [Event(g, Requested, now, None)]
  {
  }

  /** A claim leases a waiting generation to the issued token and execution until its lease ends. */
  lemma ClaimLeases(q: Queue, g: nat, now: int, lease: nat)
    requires QueueInv(q) && Waiting(q, g)
    ensures var r := AfterWork(q, Claim(g, now, lease));
            && OtherGenerationsKept(q, r, g) && r.events == q.events
            && r.generations[g].token.Some? && r.generations[g].token.value >= q.nextToken
            && r.generations[g].execution.Some? && r.generations[g].execution.value >= q.nextToken
            && forall token: nat, execution: nat, later :: Leased(r, g, token, execution, later) <==>
                 && r.generations[g].token == Some(token) && r.generations[g].execution == Some(execution)
                 && later < now + lease
  {
    assert RowOk(q.generations[g], q.nextToken);
  }

  /** A waiting generation out of attempts, which no run leads to, would be failed by a claim and leased to nobody. */
  lemma ExhaustedClaimFails(q: Queue, g: nat, now: int, lease: nat)
    requires Waiting(q, g) && q.generations[g].attemptCount >= q.generations[g].maxAttempts
    ensures var r := AfterWork(q, Claim(g, now, lease));
            && OtherGenerationsKept(q, r, g) && r.events == q.events && r.nextToken == q.nextToken + 1
            && r.generations[g] == q.generations[g].(status := Failed, execution := Some(q.nextToken))
  {
  }

  /** A beat under the held token extends its lease, and changes nothing else. */
  lemma HeartbeatExtends(q: Queue, g: nat, token: nat, now: int, lease: nat)
    requires QueueInv(q) && Holds(q, g, token)
    ensures var r := AfterWork(q, Heartbeat(g, token, now, lease));
            && OtherGenerationsKept(q, r, g) && r.events == q.events && r.nextToken == q.nextToken
            && r.generations[g] == q.generations[g].(until := r.generations[g].until)
            && forall execution: nat, later :: Leased(r, g, token, execution, later) <==>
                 Some(execution) == q.generations[g].execution && later < now + lease
  {
    assert RowOk(q.generations[g], q.nextToken);
  }

  /** A failure needs the token: from the worker while its lease lasts, from recovery once it ran out. */
  lemma FailsExactly(q: Queue, g: nat, token: nat, retryable: bool, expiredBefore: Option<int>, now: int)
    requires QueueInv(q)
    ensures AfterWork(q, Fail(g, token, retryable, expiredBefore, now)) != q <==>
            && g < |q.generations| && q.generations[g].token == Some(token)
            && match expiredBefore
               case None => q.generations[g].until.value > now
               case Some(before) => q.generations[g].until.value < before
  {
    if g < |q.generations| { assert RowOk(q.generations[g], q.nextToken); }
  }

  /** A failure not to be tried again, or with no attempt left, ends the generation and schedules nothing. */
  lemma FinalFailure(q: Queue, work: Work)
    requires QueueInv(q) && work.Fail? && WorkAdvances(q, work, work.g)
    requires !work.retryable || q.generations[work.g].attemptCount == q.generations[work.g].maxAttempts
    ensures var r := AfterWork(q, work);
            && OtherGenerationsKept(q, r, work.g) && r.events == q.events && r.nextToken == q.nextToken
            && r.generations[work.g].status == Failed
            && r.generations[work.g].attemptCount == q.generations[work.g].attemptCount
  {
    assert RowOk(q.generations[work.g], q.nextToken);
  }

  /** A failure to be tried again, with an attempt left, queues the generation and the event that will wake a worker. */
  lemma RetriedFailure(q: Queue, work: Work)
    requires QueueInv(q) && work.Fail? && WorkAdvances(q, work, work.g)
    requires work.retryable && q.generations[work.g].attemptCount < q.generations[work.g].maxAttempts
    ensures var r, count := AfterWork(q, work), q.generations[work.g].attemptCount;
            && OtherGenerationsKept(q, r, work.g) && r.nextToken == q.nextToken
            && Waiting(r, work.g) && r.generations[work.g].attemptCount == count
            && r.events == q.events + [Event(work.g, Retry(count + 1), work.now + 5000 * Power(count - 1), None)]
  {
    assert RowOk(q.generations[work.g], q.nextToken);
  }

  /** The relay publishes an event that is pending and due, and no other. */
  lemma PublishesExactly(q: Queue, e: nat, now: int)
    requires e < |q.events|
    ensures var r := AfterWork(q, Publish(e, now));
            && r == q.(events := r.events) && |r.events| == |q.events|
            && (forall f :: 0 <= f < |q.events| && f != e ==> r.events[f] == q.events[f])
            && r.events[e] == q.events[e].(published := r.events[e].published)
            && r.events[e].published == if q.events[e].published.Some? then q.events[e].published
                                        else if q.events[e].availableAt > now then None else Some(now)
  {
  }

  /** Recovery makes a stale event of a waiting generation pending and due at once, and no other. */
  lemma ReplaysExactly(q: Queue, e: nat, now: int, staleBefore: int)
    requires QueueInv(q) && e < |q.events|
    ensures var r, v := AfterWork(q, Replay(e, now, staleBefore)), q.events[e];
            && r == q.(events := r.events) && |r.events| == |q.events|
            && (forall f :: 0 <= f < |q.events| && f != e ==> r.events[f] == q.events[f])
            && r.events[e] ==
               if Waiting(q, v.generation) && v.published.Some? && v.published.value < staleBefore
               then Event(v.generation, v.key, now, None) else v
  {
    assert EventOk(q, e);
  }

  // ---- How many steps a generation has left ----

  /** A claim and an end for each attempt to come, and the end of the one that runs. */
  function StepsLeft(row: Generation): int {
    match row.status
    case Queued => 2 * (row.maxAttempts - row.attemptCount)
    case Running => 2 * (row.maxAttempts - row.attemptCount) + 1
    case _ => 0
  }

  /** A claim, or a failure of an attempt, that takes effect on generation `g`. */
  predicate WorkAdvances(q: Queue, work: Work, g: nat) {
    match work
    case Claim(h, now, lease) => h == g && Waiting(q, g)
    case Fail(h, token, retryable, expiredBefore, now) => h == g && Failable(q, g, token, expiredBefore, now)
    case _ => false
  }

  lemma WorkUsesSteps(q: Queue, work: Work, g: nat)
    requires QueueInv(q) && g < |q.generations|
    ensures |AfterWork(q, work).generations| == |q.generations|
    ensures var before, after := q.generations[g], AfterWork(q, work).generations[g];
            if WorkAdvances(q, work, g) then 0 <= StepsLeft(after) < StepsLeft(before)
            else after == before.(until := after.until)
  {
    assert RowOk(q.generations[g], q.nextToken);
  }

  /** What becomes of a generation whose workers stall: it is claimed, and recovered once the lease ran out. */
  function Stall(q: Queue, g: nat, now: int): Work {
    if g < |q.generations| && q.generations[g].token.Some?
      then Fail(g, q.generations[g].token.value, true, Some(now), now)
    else Claim(g, now, 0)
  }

  ghost predicate Stalled(q: Queue, g: nat, now: int) {
    g < |q.generations| && (q.generations[g].until.Some? ==> q.generations[g].until.value < now)
  }

  lemma StallWork(q: Queue, g: nat, now: int)
    requires QueueInv(q) && Stalled(q, g, now) && !Ended(q.generations[g].status)
    ensures var work := Stall(q, g, now); var t := AfterWork(q, work);
            && WorkAdvances(q, work, g) && Stalled(t, g, now + 1)
            && StepsLeft(t.generations[g]) == StepsLeft(q.generations[g]) - 1
            && (Ended(t.generations[g].status) ==>
                  t.generations[g].status == Failed && t.generations[g].attemptCount == t.generations[g].maxAttempts)
  {
    assert RowOk(q.generations[g], q.nextToken);
  }

  lemma StepsLeftOf(q: Queue, g: nat)
    requires QueueInv(q) && g < |q.generations|
    ensures var row := q.generations[g];
            0 <= StepsLeft(row) <= 2 * row.maxAttempts && (StepsLeft(row) == 0 <==> Ended(row.status))
  {
    assert RowOk(q.generations[g], q.nextToken);
  }

  /** `n` steps after a generation had `left` of them it has stalled throughout, and failed if none is left. */
  ghost predicate StalledFor(q: Queue, g: nat, now: int, left: int, n: nat) {
    && Stalled(q, g, now + n) && StepsLeft(q.generations[g]) == left - n
    && (n > 0 && Ended(q.generations[g].status) ==>
          q.generations[g].status == Failed && q.generations[g].attemptCount == q.generations[g].maxAttempts)
  }

  lemma StallsOn(q: Queue, g: nat, now: int, left: int, n: nat)
    requires QueueInv(q) && StalledFor(q, g, now, left, n) && n < left
    ensures WorkAdvances(q, Stall(q, g, now + n), g)
    ensures StalledFor(AfterWork(q, Stall(q, g, now + n)), g, now, left, n + 1)
  {
    StepsLeftOf(q, g);
    StallWork(q, g, now + n);
  }

  /** The queue after `rounds` steps of workers of generation `g` that all stall, a moment apart. */
  function StalledQueue(q: Queue, g: nat, now: int, rounds: nat): Queue {
    if rounds == 0 then q
    else var r := StalledQueue(q, g, now, rounds - 1); AfterWork(r, Stall(r, g, now + rounds - 1))
  }

  lemma {:induction false} StalledQueueStalls(q: Queue, g: nat, now: int, left: int, rounds: nat)
    requires QueueInv(q) && StalledFor(q, g, now, left, 0) && rounds <= left
    ensures QueueInv(StalledQueue(q, g, now, rounds))
    ensures StalledFor(StalledQueue(q, g, now, rounds), g, now, left, rounds)
  {
    if rounds > 0 {
      StalledQueueStalls(q, g, now, left, rounds - 1);
      var r := StalledQueue(q, g, now, rounds - 1);
      StallsOn(r, g, now, left, rounds - 1);
      InvWork(r, Stall(r, g, now + rounds - 1));
    }
  }

  /** Retries so far. */
  function RetryCount(row: Generation): nat {
    if row.status == Queued || row.attemptCount == 0 then row.attemptCount else row.attemptCount - 1
  }

  /** The delay a step schedules before a retry of generation `g`. */
  function StepDelay(q: Queue, work: Work, g: nat): int
    requires g < |q.generations|
  {
    var r := AfterWork(q, work);
    if work.Fail? && work.g == g && |r.events| > |q.events| then r.events[|q.events|].availableAt - work.now else 0
  }

  lemma DelayStep(q: Queue, work: Work, g: nat)
    requires QueueInv(q) && g < |q.generations|
    ensures g < |AfterWork(q, work).generations|
    ensures var before, after := q.generations[g], AfterWork(q, work).generations[g];
            StepDelay(q, work, g) == 5000 * Power(RetryCount(after)) - 5000 * Power(RetryCount(before))
  {
    assert RowOk(q.generations[g], q.nextToken);
  }

  /** A waiting generation can be delivered: its event is pending, or recovery makes it pending again. */
  lemma QueuedIsDeliverable(q: Queue, g: nat, now: int) returns (e: nat)
    requires QueueInv(q) && Waiting(q, g)
    ensures q.generations[g].attemptCount < q.generations[g].maxAttempts
    ensures Delivers(q, e, g)
    ensures q.events[e].published.Some? && q.events[e].published.value < now ==>
              AfterReplay(q, e, now, now).events[e].published.None? && Delivers(AfterReplay(q, e, now, now), e, g)
  {
    assert RowOk(q.generations[g], q.nextToken);
    assert HasDelivery(q, g);
    e :| Delivers(q, e, g);
  }

  /** A generation whose lease ran out is put back or given up by recovery. */
  lemma ExpiredIsRecovered(q: Queue, g: nat, now: int)
    requires QueueInv(q) && g < |q.generations| && q.generations[g].status == Running && q.generations[g].until.Some?
    requires q.generations[g].until.value < now
    ensures q.generations[g].token.Some?
    ensures var row := AfterFail(q, g, q.generations[g].token.value, true, Some(now), now).generations[g];
            row.status == if q.generations[g].attemptCount < q.generations[g].maxAttempts then Queued else Failed
  {
    assert RowOk(q.generations[g], q.nextToken);
  }

  // ---- One recovery pass ----

  /** The first `n` of the chosen events made pending again where a waiting generation may have missed them. */
  function ReplayUpTo(q: Queue, chosen: seq<nat>, n: nat, now: int, staleBefore: int): Queue
    requires n <= |chosen|
  {
    if n == 0 then q else AfterReplay(ReplayUpTo(q, chosen, n - 1, now, staleBefore), chosen[n - 1], now, staleBefore)
  }

  predicate Expired(q: Queue, g: nat, now: int) {
    && g < |q.generations| && q.generations[g].status == Running && q.generations[g].token.Some?
    && q.generations[g].until.Some? && q.generations[g].until.value < now
  }

  function AfterExpiry(q: Queue, g: nat, now: int): Queue {
    if Expired(q, g, now) then AfterFail(q, g, q.generations[g].token.value, true, Some(now), now) else q
  }

  /** The first `n` of the chosen generations failed, retryably, where their lease ran out. */
  function FailUpTo(q: Queue, chosen: seq<nat>, n: nat, now: int): Queue
    requires n <= |chosen|
  {
    if n == 0 then q else AfterExpiry(FailUpTo(q, chosen, n - 1, now), chosen[n - 1], now)
  }

  function Recovered(q: Queue, stale: seq<nat>, expired: seq<nat>, now: int, staleBefore: int): Queue {
    FailUpTo(ReplayUpTo(q, stale, |stale|, now, staleBefore), expired, |expired|, now)
  }

  /** None of the chosen events was published after event `e`. */
  ghost predicate NoneLater(q: Queue, chosen: seq<nat>, e: nat)
    requires e < |q.events| && q.events[e].published.Some?
  {
    forall i :: 0 <= i < |chosen| ==>
      && chosen[i] < |q.events| && q.events[chosen[i]].published.Some?
      && q.events[chosen[i]].published.value <= q.events[e].published.value
  }

  /** What the first query answers: the events longest published, at most `limit` of them. */
  ghost predicate OldestStale(q: Queue, chosen: seq<nat>, limit: nat, staleBefore: int) {
    && Distinct(chosen) && |chosen| <= limit
    && (forall i :: 0 <= i < |chosen| ==> Replayable(q, chosen[i], staleBefore))
    && (forall e :: Replayable(q, e, staleBefore) && e !in chosen ==> |chosen| == limit && NoneLater(q, chosen, e))
  }

  /** None of the chosen leases ran out after that of generation `g`. */
  ghost predicate NoneLonger(q: Queue, chosen: seq<nat>, g: nat)
    requires g < |q.generations| && q.generations[g].until.Some?
  {
    forall i :: 0 <= i < |chosen| ==>
      && chosen[i] < |q.generations| && q.generations[chosen[i]].until.Some?
      && q.generations[chosen[i]].until.value <= q.generations[g].until.value
  }

  /** What the second query answers: the leases that ran out first, at most `limit` of them. */
  ghost predicate OldestExpired(q: Queue, chosen: seq<nat>, limit: nat, now: int) {
    && Distinct(chosen) && |chosen| <= limit
    && (forall i :: 0 <= i < |chosen| ==> Expired(q, chosen[i], now))
    && (forall g :: Expired(q, g, now) && g !in chosen ==> |chosen| == limit && NoneLonger(q, chosen, g))
  }

  ghost predicate DeliversSoon(q: Queue, e: nat, g: nat, staleBefore: int) {
    Delivers(q, e, g) && (q.events[e].published.Some? ==> q.events[e].published.value >= staleBefore)
  }

  /** Its event waits for the relay, or was published recently. */
  ghost predicate Deliverable(q: Queue, g: nat, staleBefore: int) {
    exists e :: DeliversSoon(q, e, g, staleBefore)
  }

  ghost predicate GaveWay(q: Queue, e: nat, g: nat, stale: seq<nat>) {
    Delivers(q, e, g) && e !in stale && q.events[e].published.Some? && NoneLater(q, stale, e)
  }

  /** The limit was reached by events published no later than the one the generation waits for. */
  ghost predicate DeliveryPutOff(q: Queue, g: nat, stale: seq<nat>, limit: nat) {
    |stale| == limit && exists e :: GaveWay(q, e, g, stale)
  }

  /** The limit was reached by leases that ran out no later. */
  ghost predicate ExpiryPutOff(q: Queue, g: nat, expired: seq<nat>, limit: nat) {
    |expired| == limit && g !in expired && g < |q.generations| && q.generations[g].until.Some?
      && NoneLonger(q, expired, g)
  }

  /** A replay touches one event's delivery only. */
  lemma ReplayedOne(q: Queue, e: nat, now: int, staleBefore: int, f: nat)
    requires e < |q.events| && f < |q.events|
    ensures var r := AfterReplay(q, e, now, staleBefore);
            && r.generations == q.generations && |r.events| == |q.events|
            && r.events[f].generation == q.events[f].generation && r.events[f].key == q.events[f].key
            && (f != e ==> r.events[f] == q.events[f])
            && !Replayable(r, e, staleBefore)
            && (f != e ==> Replayable(r, f, staleBefore) == Replayable(q, f, staleBefore))
  {
  }

  /** The first `n` of the chosen events are no longer due to be replayed, and the other events are as they were. */
  ghost predicate Replayed(q: Queue, r: Queue, chosen: seq<nat>, n: nat, staleBefore: int)
    requires n <= |chosen|
  {
    && QueueInv(r) && r.generations == q.generations && |r.events| == |q.events|
    && (forall e :: 0 <= e < |q.events| ==>
      r.events[e].generation == q.events[e].generation && r.events[e].key == q.events[e].key)
    && (forall i :: 0 <= i < n ==> !Replayable(r, chosen[i], staleBefore))
    && (forall e :: 0 <= e < |q.events| && e !in chosen[..n] ==> r.events[e] == q.events[e])
  }

  lemma ReplayedNone(q: Queue, chosen: seq<nat>, staleBefore: int)
    requires QueueInv(q)
    ensures Replayed(q, q, chosen, 0, staleBefore)
  {
  }

  lemma ReplayedOneMore(q: Queue, r: Queue, next: Queue, chosen: seq<nat>, n: nat, now: int, staleBefore: int)
    requires n < |chosen| && Replayed(q, r, chosen, n, staleBefore) && chosen[n] < |q.events|
    requires next == AfterReplay(r, chosen[n], now, staleBefore)
    ensures Replayed(q, next, chosen, n + 1, staleBefore)
  {
    InvWork(r, Replay(chosen[n], now, staleBefore));
    ReplayedOne(r, chosen[n], now, staleBefore, chosen[n]);
    forall i | 0 <= i < n ensures !Replayable(next, chosen[i], staleBefore) {
      if chosen[i] < |r.events| { ReplayedOne(r, chosen[n], now, staleBefore, chosen[i]); }
    }
    forall e | 0 <= e < |q.events| && e !in chosen[..n + 1] ensures next.events[e] == q.events[e] {
      assert chosen[n] == chosen[..n + 1][n];
      assert forall x :: x in chosen[..n] ==> x in chosen[..n + 1];
    }
  }

  lemma {:induction false} ReplayedUpTo(q: Queue, chosen: seq<nat>, n: nat, now: int, staleBefore: int)
    requires QueueInv(q) && n <= |chosen| && forall i :: 0 <= i < |chosen| ==> chosen[i] < |q.events|
    ensures Replayed(q, ReplayUpTo(q, chosen, n, now, staleBefore), chosen, n, staleBefore)
  {
    if n == 0 {
      ReplayedNone(q, chosen, staleBefore);
    } else {
      ReplayedUpTo(q, chosen, n - 1, now, staleBefore);
      ReplayedOneMore(q, ReplayUpTo(q, chosen, n - 1, now, staleBefore), ReplayUpTo(q, chosen, n, now, staleBefore),
                      chosen, n - 1, now, staleBefore);
    }
  }

  /** Every waiting generation has an event that will reach a worker, or gave way to older ones. */
  ghost predicate WaitingReached(q: Queue, r: Queue, stale: seq<nat>, limit: nat, staleBefore: int) {
    forall h :: 0 <= h < |r.generations| && Waiting(r, h) ==>
      Deliverable(r, h, staleBefore) || DeliveryPutOff(q, h, stale, limit)
  }

  lemma ReachedAfterReplay(q: Queue, r: Queue, stale: seq<nat>, limit: nat, staleBefore: int)
    requires QueueInv(q) && OldestStale(q, stale, limit, staleBefore) && Replayed(q, r, stale, |stale|, staleBefore)
    ensures WaitingReached(q, r, stale, limit, staleBefore)
  {
    forall h | 0 <= h < |r.generations| && Waiting(r, h)
      ensures Deliverable(r, h, staleBefore) || DeliveryPutOff(q, h, stale, limit)
    {
      assert HasDelivery(q, h);
      var e :| Delivers(q, e, h);
      assert stale[..|stale|] == stale;
      if Replayable(q, e, staleBefore) && e !in stale {
        assert GaveWay(q, e, h, stale);
      } else {
        assert DeliversSoon(r, e, h, staleBefore);
      }
    }
  }

  /** Failing an expired lease ends it, and what it puts back to wait is delivered by a new pending event. */
  lemma FailedOne(q: Queue, r: Queue, g: nat, now: int, stale: seq<nat>, limit: nat, staleBefore: int)
    requires QueueInv(r) && Expired(r, g, now) && WaitingReached(q, r, stale, limit, staleBefore)
    ensures var t := AfterExpiry(r, g, now);
            && QueueInv(t) && |t.generations| == |r.generations| && t.generations[g].status != Running
            && (forall h :: 0 <= h < |r.generations| && h != g ==> t.generations[h] == r.generations[h])
            && WaitingReached(q, t, stale, limit, staleBefore)
  {
    var t := AfterExpiry(r, g, now);
    InvWork(r, Fail(g, r.generations[g].token.value, true, Some(now), now));
    forall h | 0 <= h < |t.generations| && Waiting(t, h)
      ensures Deliverable(t, h, staleBefore) || DeliveryPutOff(q, h, stale, limit)
    {
      if h == g {
        assert RowOk(r.generations[g], r.nextToken);
        assert DeliversSoon(t, |r.events|, g, staleBefore);
      } else if Deliverable(r, h, staleBefore) {
        var e :| DeliversSoon(r, e, h, staleBefore);
        assert DeliversSoon(t, e, h, staleBefore);
      }
    }
  }

  /** The first `n` of the chosen leases are over, and the other generations are as they were. */
  ghost predicate FailedBefore(q: Queue, r: Queue, chosen: seq<nat>, n: nat, now: int)
    requires n <= |chosen|
  {
    && QueueInv(r) && |r.generations| == |q.generations|
    && (forall i :: 0 <= i < n ==> !Expired(r, chosen[i], now))
    && (forall h :: 0 <= h < |q.generations| && h !in chosen[..n] ==> r.generations[h] == q.generations[h])
  }

  lemma FailedOneMore(q: Queue, r: Queue, t: Queue, chosen: seq<nat>, n: nat, now: int)
    requires n < |chosen| && FailedBefore(q, r, chosen, n, now) && QueueInv(t) && |t.generations| == |r.generations|
    requires chosen[n] < |r.generations| && !Expired(t, chosen[n], now)
    requires forall h :: 0 <= h < |r.generations| && h != chosen[n] ==> t.generations[h] == r.generations[h]
    ensures FailedBefore(q, t, chosen, n + 1, now)
  {
    forall i | 0 <= i < n ensures !Expired(t, chosen[i], now) { assert !Expired(r, chosen[i], now); }
    forall h | 0 <= h < |q.generations| && h !in chosen[..n + 1] ensures t.generations[h] == q.generations[h] {
      assert chosen[n] == chosen[..n + 1][n];
      assert forall x :: x in chosen[..n] ==> x in chosen[..n + 1];
    }
  }

  lemma {:induction false} FailedUpTo(q: Queue, p: Queue, chosen: seq<nat>, n: nat, now: int, stale: seq<nat>,
                                      limit: nat, staleBefore: int)
    requires QueueInv(p) && n <= |chosen| && WaitingReached(q, p, stale, limit, staleBefore)
    requires forall i :: 0 <= i < |chosen| ==> chosen[i] < |p.generations|
    ensures FailedBefore(p, FailUpTo(p, chosen, n, now), chosen, n, now)
    ensures WaitingReached(q, FailUpTo(p, chosen, n, now), stale, limit, staleBefore)
  {
    if n > 0 {
      FailedUpTo(q, p, chosen, n - 1, now, stale, limit, staleBefore);
      var r := FailUpTo(p, chosen, n - 1, now);
      if Expired(r, chosen[n - 1], now) { FailedOne(q, r, chosen[n - 1], now, stale, limit, staleBefore); }
      FailedOneMore(p, r, FailUpTo(p, chosen, n, now), chosen, n - 1, now);
    }
  }

  /** Every lease that still runs runs on, or gave way to leases that ran out no later. */
  ghost predicate RunningReached(q: Queue, r: Queue, expired: seq<nat>, limit: nat, now: int) {
    forall g :: 0 <= g < |r.generations| && r.generations[g].status == Running ==>
      r.generations[g].until.Some? && (r.generations[g].until.value >= now || ExpiryPutOff(q, g, expired, limit))
  }

  /**
   * After a recovery pass no lease is left expired, and every waiting generation has an event that will reach a
   * worker, but for what the pass's limit puts off; and it puts off nothing before what has waited longer.
   */
  lemma NothingIsStranded(q: Queue, stale: seq<nat>, expired: seq<nat>, limit: nat, now: int, staleBefore: int)
    requires QueueInv(q) && OldestStale(q, stale, limit, staleBefore) && OldestExpired(q, expired, limit, now)
    ensures var r := Recovered(q, stale, expired, now, staleBefore);
            && QueueInv(r) && |r.generations| == |q.generations|
            && RunningReached(q, r, expired, limit, now)
            && WaitingReached(q, r, stale, limit, staleBefore)
  {
    var p := ReplayUpTo(q, stale, |stale|, now, staleBefore);
    ReplayedUpTo(q, stale, |stale|, now, staleBefore);
    ReachedAfterReplay(q, p, stale, limit, staleBefore);
    FailedUpTo(q, p, expired, |expired|, now, stale, limit, staleBefore);
    EndedAsChosen(q, Recovered(q, stale, expired, now, staleBefore), expired, limit, now);
  }

  lemma EndedAsChosen(q: Queue, r: Queue, expired: seq<nat>, limit: nat, now: int)
    requires OldestExpired(q, expired, limit, now) && FailedBefore(q, r, expired, |expired|, now)
    ensures RunningReached(q, r, expired, limit, now)
  {
    assert expired[..|expired|] == expired;
    forall x | x in expired ensures !Expired(r, x, now) {
      var i :| 0 <= i < |expired| && expired[i] == x;
    }
    forall g | 0 <= g < |r.generations| && r.generations[g].status == Running
      ensures r.generations[g].until.Some?
        && (r.generations[g].until.value >= now || ExpiryPutOff(q, g, expired, limit))
    {
      assert RowOk(r.generations[g], r.nextToken);
      if Expired(r, g, now) { assert g !in expired && Expired(q, g, now); }
    }
  }
}
