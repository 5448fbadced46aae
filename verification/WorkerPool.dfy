/** A fixed number of workers that share one claim counter over a list of items. */
module WorkerPool {
  import opened Wrappers

  /**
   * `busy[w]` is the item worker `w` awaits, `None` once its loop ended. `started` lists the claims in order;
   * `owner` says which worker runs an item that neither finished nor failed.
   */
  datatype State<T> = State(items: seq<Option<T>>, index: nat, busy: seq<Option<nat>>, started: seq<nat>,
                            finished: set<nat>, failed: set<nat>, owner: map<nat, nat>)

  /** The first item from `i` on that is not skipped. */
  function NextItem<T>(items: seq<Option<T>>, i: nat): (r: nat)
    requires i <= |items|
    ensures i <= r <= |items| && (r < |items| ==> items[r].Some?)
    ensures forall j :: i <= j < r ==> items[j].None?
    decreases |items| - i
  {
    if i == |items| || items[i].Some? then i else NextItem(items, i + 1)
  }

  /** Worker `w` goes on with its loop: it claims the next item, or ends. */
  function Claim<T>(s: State<T>, w: nat): State<T>
    requires w < |s.busy| && s.index <= |s.items|
  {
    var k := NextItem(s.items, s.index);
    if k < |s.items| then
      s.(index := k + 1, busy := s.busy[w := Some(k)], started := s.started + [k], owner := s.owner[k := w])
    else s.(index := k, busy := s.busy[w := None])
  }

  function Launch<T>(s: State<T>): State<T>
    requires s.index <= |s.items|
  {
    Claim(s.(busy := s.busy + [None]), |s.busy|)
  }

  function Fresh<T>(items: seq<Option<T>>): State<T> {
    State(items, 0, [], [], {}, {}, map[])
  }

  /** The state once `n` workers have run up to their first await. */
  function Launched<T>(items: seq<Option<T>>, n: nat): (s: State<T>)
    ensures s.index <= |s.items| && s.items == items && |s.busy| == n
  {
    if n == 0 then Fresh(items) else Launch(Launched(items, n - 1))
  }

  function Workers<T>(items: seq<Option<T>>, concurrency: nat): nat {
    if concurrency <= |items| then concurrency else |items|
  }

  predicate Awaits<T>(s: State<T>, w: nat) {
    w < |s.busy| && s.busy[w].Some? && s.index <= |s.items|
  }

  /** The task worker `w` awaits resolves or throws. */
  function AfterTask<T>(s: State<T>, w: nat, ok: bool): State<T> {
    if !Awaits(s, w) then s
    else
      var k := s.busy[w].value;
      if ok then Claim(s.(finished := s.finished + {k}, owner := s.owner - {k}), w)
      else s.(busy := s.busy[w := None], failed := s.failed + {k}, owner := s.owner - {k})
  }

  datatype TaskEnd = TaskEnd(worker: nat, ok: bool)

  function Run<T>(s: State<T>, ends: seq<TaskEnd>): State<T>
    decreases |ends|
  {
    if ends == [] then s else Run(AfterTask(s, ends[0].worker, ends[0].ok), ends[1..])
  }

  // ---- What every interleaving keeps ----

  /** Claims are made once each, in list order, and cover exactly the items below the counter. */
  ghost predicate ClaimsOk<T>(s: State<T>) {
    && s.index <= |s.items|
    && (forall i, j :: 0 <= i < j < |s.started| ==> s.started[i] < s.started[j])
    && (forall k :: k in s.started <==> 0 <= k < s.index && s.items[k].Some?)
  }

  /** Every claimed item finished, failed, or is run by exactly one worker. */
  ghost predicate OwnersOk<T>(s: State<T>) {
    && (forall k :: k in s.owner ==> s.owner[k] < |s.busy| && s.busy[s.owner[k]] == Some(k))
    && (forall w :: 0 <= w < |s.busy| && s.busy[w].Some? ==>
      s.busy[w].value in s.owner && s.owner[s.busy[w].value] == w)
    && (forall k :: k in s.started <==> k in s.owner || k in s.finished || k in s.failed)
    && s.owner.Keys !! s.finished && s.owner.Keys !! s.failed && s.finished !! s.failed
  }

  /** A worker's loop ends only when the counter reached the end, unless a task threw. */
  ghost predicate ExitsOk<T>(s: State<T>) {
    s.failed == {} ==> forall w :: 0 <= w < |s.busy| && s.busy[w].None? ==> s.index == |s.items|
  }

  ghost predicate Inv<T>(s: State<T>) {
    ClaimsOk(s) && OwnersOk(s) && ExitsOk(s)
  }

  /** As `Inv`, while worker `w` is between two items. */
  ghost predicate InvBetween<T>(s: State<T>, w: nat) {
    && ClaimsOk(s) && w < |s.busy|
    && OwnersOk(s.(busy := s.busy[w := None]))
    && (s.failed == {} ==> forall v :: 0 <= v < |s.busy| && v != w && s.busy[v].None? ==> s.index == |s.items|)
  }

  lemma InvClaim<T>(s: State<T>, w: nat)
    requires InvBetween(s, w)
    ensures Inv(Claim(s, w))
  {
    var k, t := NextItem(s.items, s.index), Claim(s, w);
    if k < |s.items| {
      forall j ensures j in t.started <==> 0 <= j < t.index && t.items[j].Some? {
        assert j in t.started <==> j in s.started || j == k;
      }
      forall i, j | 0 <= i < j < |t.started| ensures t.started[i] < t.started[j] {
        assert t.started[i] in s.started;
      }
      assert k !in s.started;
      OwnersClaimed(s.(busy := s.busy[w := None]), t, w, k);
    } else {
      assert t == s.(index := k, busy := s.busy[w := None]);
    }
  }

  lemma OwnersClaimed<T>(s: State<T>, t: State<T>, w: nat, k: nat)
    requires OwnersOk(s) && w < |s.busy| && s.busy[w].None? && k !in s.started
    requires t.busy == s.busy[w := Some(k)] && t.started == s.started + [k] && t.owner == s.owner[k := w]
    requires t.finished == s.finished && t.failed == s.failed
    ensures OwnersOk(t)
  {
    assert k !in s.owner && k !in s.finished && k !in s.failed;
    forall j ensures j in t.started <==> j in t.owner || j in t.finished || j in t.failed {
      assert j in t.started <==> j in s.started || j == k;
    }
    forall v | 0 <= v < |t.busy| && t.busy[v].Some?
      ensures t.busy[v].value in t.owner && t.owner[t.busy[v].value] == v
    {
      if v != w { assert s.busy[v].value in s.owner; }
    }
  }

  lemma InvTask<T>(s: State<T>, w: nat, ok: bool)
    requires Inv(s)
    ensures Inv(AfterTask(s, w, ok))
  {
    if Awaits(s, w) {
      var k := s.busy[w].value;
      assert k in s.owner && s.owner[k] == w;
      if ok {
        var between := s.(finished := s.finished + {k}, owner := s.owner - {k});
        OwnersReleased(s, between.(busy := between.busy[w := None]), w, k);
        InvClaim(between, w);
      } else {
        OwnersReleased(s, AfterTask(s, w, ok), w, k);
      }
    }
  }

  lemma OwnersReleased<T>(s: State<T>, t: State<T>, w: nat, k: nat)
    requires OwnersOk(s) && w < |s.busy| && s.busy[w] == Some(k)
    requires t.busy == s.busy[w := None] && t.started == s.started && t.owner == s.owner - {k}
    requires (t.finished == s.finished + {k} && t.failed == s.failed)
      || (t.finished == s.finished && t.failed == s.failed + {k})
    ensures OwnersOk(t)
  {
    assert k in s.owner && s.owner[k] == w;
    forall v | 0 <= v < |t.busy| && t.busy[v].Some?
      ensures t.busy[v].value in t.owner && t.owner[t.busy[v].value] == v
    {
      assert s.busy[v].value in s.owner && s.owner[s.busy[v].value] == v;
    }
  }

  lemma OwnersOfMore<T>(s: State<T>)
    requires OwnersOk(s)
    ensures OwnersOk(s.(busy := s.busy + [None]))
  {
  }

  /** A worker that joins is between two items. */
  lemma InvJoined<T>(s: State<T>)
    requires Inv(s)
    ensures InvBetween(s.(busy := s.busy + [None]), |s.busy|)
  {
    var t := s.(busy := s.busy + [None]);
    OwnersOfMore(s);
    assert t.(busy := t.busy[|s.busy| := None]) == t;
  }

  lemma {:induction false} InvLaunched<T>(items: seq<Option<T>>, n: nat)
    ensures Inv(Launched(items, n))
  {
    if n > 0 {
      InvLaunched(items, n - 1);
      var s := Launched(items, n - 1);
      InvJoined(s);
      InvClaim(s.(busy := s.busy + [None]), |s.busy|);
    }
  }

  lemma {:induction false} InvRun<T>(s: State<T>, ends: seq<TaskEnd>)
    requires Inv(s)
    ensures Inv(Run(s, ends)) && Run(s, ends).items == s.items && |Run(s, ends).busy| == |s.busy|
    decreases |ends|
  {
    if ends != [] {
      InvTask(s, ends[0].worker, ends[0].ok);
      InvRun(AfterTask(s, ends[0].worker, ends[0].ok), ends[1..]);
    }
  }

  /** All workers ended: `Promise.all` settles. */
  ghost predicate Settled<T>(s: State<T>) {
    forall w :: 0 <= w < |s.busy| ==> s.busy[w].None?
  }

  lemma SettledOwnsNothing<T>(s: State<T>, k: nat)
    requires OwnersOk(s) && Settled(s)
    ensures k !in s.owner
  {
  }

  /** When all workers ended without a failure, the finished items are those that are not skipped. */
  lemma SettledFinished<T>(s: State<T>)
    requires Inv(s) && Settled(s) && s.failed == {} && (s.busy == [] ==> s.items == [])
    ensures forall k :: k in s.finished <==> 0 <= k < |s.items| && s.items[k].Some?
  {
    assert s.index == |s.items| by {
      if s.busy != [] { assert s.busy[0].None?; }
    }
    forall k: nat ensures k in s.finished <==> 0 <= k < |s.items| && s.items[k].Some? {
      SettledOwnsNothing(s, k);
      assert k in s.started <==> 0 <= k < s.index && s.items[k].Some?;
    }
  }

  /**
   * Whatever the interleaving: at most `Workers(items, concurrency)` items are awaited, each on its own; a claim
   * is never repeated; and once all workers ended without a failure, every item that is not skipped was run.
   */
  lemma PoolRunsEachItemOnce<T>(items: seq<Option<T>>, concurrency: nat, ends: seq<TaskEnd>)
    ensures var s := Run(Launched(items, Workers(items, concurrency)), ends);
            && Inv(s)
            && |s.busy| == Workers(items, concurrency)
            && (forall v, w :: 0 <= v < w < |s.busy| && s.busy[v].Some? ==> s.busy[v] != s.busy[w])
            && (Settled(s) && s.failed == {} && concurrency >= 1 ==>
                  forall k :: k in s.finished <==> 0 <= k < |items| && items[k].Some?)
  {
    var first := Launched(items, Workers(items, concurrency));
    InvLaunched(items, Workers(items, concurrency));
    InvRun(first, ends);
    var s := Run(first, ends);
    if Settled(s) && s.failed == {} && concurrency >= 1 { SettledFinished(s); }
  }

  /** How many of the ends find their worker awaiting. */
  function TaskEnds<T>(s: State<T>, ends: seq<TaskEnd>): nat
    decreases |ends|
  {
    if ends == [] then 0
    else (if Awaits(s, ends[0].worker) then 1 else 0) + TaskEnds(AfterTask(s, ends[0].worker, ends[0].ok), ends[1..])
  }

  lemma TaskCounts<T>(s: State<T>, w: nat, ok: bool)
    requires Inv(s)
    ensures var t := AfterTask(s, w, ok);
            |t.finished| + |t.failed| == |s.finished| + |s.failed| + if Awaits(s, w) then 1 else 0
  {
    if Awaits(s, w) {
      var k := s.busy[w].value;
      assert k in s.owner && k !in s.finished && k !in s.failed;
    }
  }

  lemma {:induction false} RangeSize(a: set<nat>, n: nat)
    requires forall k :: k in a ==> k < n
    ensures |a| <= n
  {
    if n > 0 {
      RangeSize(a - {n - 1}, n - 1);
      if n - 1 !in a { assert a - {n - 1} == a; }
    } else {
      assert a == {};
    }
  }

  /** Items end at most once each. */
  lemma EndedItems<T>(s: State<T>)
    requires Inv(s)
    ensures |s.finished| + |s.failed| <= |s.items|
  {
    forall k | k in s.finished + s.failed ensures k < |s.items| { assert k in s.started; }
    RangeSize(s.finished + s.failed, |s.items|);
    assert |s.finished + s.failed| == |s.finished| + |s.failed|;
  }

  /**
   * The pool settles: each end that finds its worker awaiting ends one item for good, so there are at most as many
   * as items, and until the pool is settled there is a worker whose end can come.
   */
  lemma {:induction false} PoolSettles<T>(s: State<T>, ends: seq<TaskEnd>)
    requires Inv(s)
    ensures var t := Run(s, ends);
            && TaskEnds(s, ends) + |s.finished| + |s.failed| == |t.finished| + |t.failed| <= |s.items|
            && (Settled(t) <==> forall w :: !Awaits(t, w))
    ensures TaskEnds(s, ends) + |s.finished| + |s.failed| == |s.items| ==> Settled(Run(s, ends))
    decreases |ends|
  {
    if ends == [] {
      EndedItems(s);
      SettledExactly(s);
    } else {
      TaskCounts(s, ends[0].worker, ends[0].ok);
      InvTask(s, ends[0].worker, ends[0].ok);
      PoolSettles(AfterTask(s, ends[0].worker, ends[0].ok), ends[1..]);
    }
  }

  lemma SettledExactly<T>(s: State<T>)
    requires Inv(s)
    ensures Settled(s) <==> forall w :: !Awaits(s, w)
    ensures |s.finished| + |s.failed| == |s.items| ==> Settled(s)
  {
    if w: nat :| w < |s.busy| && s.busy[w].Some? {
      assert Awaits(s, w);
      TaskCounts(s, w, true);
      InvTask(s, w, true);
      EndedItems(AfterTask(s, w, true));
    }
  }

  /** Where no item is skipped, the first `n` workers start on the first `n` items. */
  lemma {:induction false} LaunchedInOrder<T>(items: seq<Option<T>>, n: nat)
    requires n <= |items| && forall i :: 0 <= i < |items| ==> items[i].Some?
    ensures var s := Launched(items, n);
            s.index == n && |s.busy| == n && forall w :: 0 <= w < n ==> s.busy[w] == Some(w)
  {
    if n > 0 { LaunchedInOrder(items, n - 1); }
  }

  /** With no worker nothing runs, so a positive concurrency is needed for a list with work in it. */
  lemma NoWorkerRunsNothing<T>(items: seq<Option<T>>, ends: seq<TaskEnd>)
    ensures var s := Run(Launched(items, Workers(items, 0)), ends); Settled(s) && s.failed == {} && s.finished == {}
    decreases |ends|
  {
    if ends != [] {
      assert AfterTask(Launched(items, 0), ends[0].worker, ends[0].ok) == Launched(items, 0);
      NoWorkerRunsNothing(items, ends[1..]);
    }
  }

  class Pool<T> {
    const items: seq<Option<T>>
    var index: nat
    var busy: seq<Option<nat>>
    ghost var started: seq<nat>
    ghost var finished: set<nat>
    ghost var failed: set<nat>
    ghost var owner: map<nat, nat>

    ghost function Contents(): State<T>
      reads this
    {
      State(items, index, busy, started, finished, failed, owner)
    }

    ghost predicate Valid()
      reads this
    {
      Inv(Contents())
    }

    constructor (items: seq<Option<T>>, concurrency: nat)
      ensures Valid() && Contents() == Launched(items, Workers(items, concurrency))
    {
      this.items := items;
      index, busy := 0, [];
      started, finished, failed, owner := [], {}, {}, map[];
      new;
      LaunchAll(if concurrency <= |items| then concurrency else |items|);
      InvLaunched(items, Workers(items, concurrency));
    }

    method LaunchAll(n: nat)
      requires Contents() == Fresh(items)
      modifies this
      ensures Contents() == Launched(items, n)
    {
      var w := 0;
      while w < n
        invariant 0 <= w <= n && Contents() == Launched(items, w)
      {
        ghost var s := Contents();
        busy := busy + [None];
        assert Contents() == s.(busy := s.busy + [None]);
        GoOn(w);
        w := w + 1;
      }
    }

    /** The loop of worker `w`, up to its next await or its end. */
    method GoOn(w: nat)
      requires w < |busy| && index <= |items|
      modifies this
      ensures Contents() == Claim(old(Contents()), w)
    {
      while index < |items|
        invariant index <= |items| && NextItem(items, index) == NextItem(items, old(index))
        invariant busy == old(busy) && started == old(started) && finished == old(finished)
        invariant failed == old(failed) && owner == old(owner)
      {
        var k := index;
        index := index + 1;
        if items[k].Some? {
          busy := busy[w := Some(k)];
          started := started + [k];
          owner := owner[k := w];
          return;
        }
      }
      busy := busy[w := None];
    }

    /** The awaited task of worker `w` ends; other workers go on even when it threw. */
    method EndTask(w: nat, ok: bool)
      requires Valid() && Awaits(Contents(), w)
      modifies this
      ensures Contents() == AfterTask(old(Contents()), w, ok)
      ensures Valid()
    {
      InvTask(Contents(), w, ok);
      ghost var k := busy[w].value;
      owner := owner - {k};
      if ok {
        finished := finished + {k};
        GoOn(w);
      } else {
        failed := failed + {k};
        busy := busy[w := None];
      }
    }
  }
}
