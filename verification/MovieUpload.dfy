/** A resumable upload: batches of signed parts, progress, and the checkpoint that survives a pause. */
module MovieUpload {
  import opened Wrappers
  import opened Sorting
  import opened Tiling
  import opened WorkerPool

  /** Bytes of one part sent so far. */
  datatype Count = Count(number: int, bytes: int)

  const BATCH := 12
  const CONCURRENCY := 4

  // ---- Insertion-ordered maps keyed by part number ----

  predicate HasPart(parts: seq<Part>, number: int) {
    exists i :: 0 <= i < |parts| && parts[i].number == number
  }

  function PutPart(parts: seq<Part>, part: Part): seq<Part> {
    if parts == [] then [part]
    else if parts[0].number == part.number then [part] + parts[1..]
    else [parts[0]] + PutPart(parts[1..], part)
  }

  function PutCount(counts: seq<Count>, count: Count): seq<Count> {
    if counts == [] then [count]
    else if counts[0].number == count.number then [count] + counts[1..]
    else [counts[0]] + PutCount(counts[1..], count)
  }

  function DeleteCount(counts: seq<Count>, number: int): seq<Count> {
    if counts == [] then []
    else (if counts[0].number == number then [] else [counts[0]]) + DeleteCount(counts[1..], number)
  }

  function SumParts(parts: seq<Part>): int {
    if parts == [] then 0 else (if parts[0].byteSize.Some? then parts[0].byteSize.value else 0) + SumParts(parts[1..])
  }

  function SumCounts(counts: seq<Count>): int {
    if counts == [] then 0 else counts[0].bytes + SumCounts(counts[1..])
  }

  // ---- The session ----

  /**
   * `resumed` is the checkpoint the session started from; `offset` is how many missing parts have been signed,
   * the last `|pool.items|` of them in the current batch.
   */
  datatype Session = Session(layout: Layout, resumed: seq<Part>, completed: seq<Part>, missing: seq<int>, offset: nat,
                             pool: State<int>, inFlight: seq<Count>)

  function Batch(numbers: seq<int>): seq<Option<int>> {
    seq(|numbers|, i requires 0 <= i < |numbers| => Some(numbers[i]))
  }

  function MissingUpTo(completed: seq<Part>, n: nat): seq<int> {
    if n == 0 then []
    else MissingUpTo(completed, n - 1) + if HasPart(completed, n) then [] else [n]
  }

  /** `new Map(...)` of a stored list: a number that occurs again replaces the earlier part. */
  function FromEntries(parts: seq<Part>): seq<Part> {
    if parts == [] then [] else PutPart(FromEntries(parts[..|parts| - 1]), parts[|parts| - 1])
  }

  function Resume(layout: Layout, stored: seq<Part>): Session {
    var completed := FromEntries(stored);
    Session(layout, completed, completed, MissingUpTo(completed, layout.totalParts), 0, Launched([], 0), [])
  }

  /** Every part the session signed so far has been stored, and all workers ended. */
  ghost predicate BatchDone(s: Session) {
    Settled(s.pool) && s.pool.failed == {}
  }

  function BatchEnd(s: Session): nat {
    if s.offset + BATCH <= |s.missing| then s.offset + BATCH else |s.missing|
  }

  function AfterSign(s: Session): Session
    requires s.offset <= |s.missing|
  {
    var end := BatchEnd(s);
    var items := Batch(s.missing[s.offset..end]);
    s.(offset := end, pool := Launched(items, Workers(items, CONCURRENCY)), inFlight := [])
  }

  /** The number of the part worker `w` uploads. */
  predicate Uploads(s: Session, w: nat, number: int) {
    Awaits(s.pool, w) && var k := s.pool.busy[w].value; k < |s.pool.items| && s.pool.items[k] == Some(number)
  }

  function AfterProgress(s: Session, number: int, loaded: int): Session {
    s.(inFlight := PutCount(s.inFlight, Count(number, loaded)))
  }

  function Stored(l: Layout, number: int, etag: string): Part {
    Part(number, etag, Some(ExpectedPartSize(l, number)))
  }

  function AfterUploaded(s: Session, w: nat, number: int, etag: string): Session {
    s.(inFlight := DeleteCount(s.inFlight, number), completed := PutPart(s.completed, Stored(s.layout, number, etag)),
       pool := AfterTask(s.pool, w, true))
  }

  function AfterFailed(s: Session, w: nat): Session {
    s.(pool := AfterTask(s.pool, w, false))
  }

  // ---- What every step keeps ----

  ghost predicate DistinctParts(parts: seq<Part>) {
    forall i, j :: 0 <= i < j < |parts| ==> parts[i].number != parts[j].number
  }

  ghost predicate GoodPart(l: Layout, p: Part) {
    1 <= p.number <= l.totalParts && p.byteSize == Some(ExpectedPartSize(l, p.number))
  }

  /** A checkpoint of this upload: distinct parts of the file, each of its full size. */
  ghost predicate GoodParts(l: Layout, parts: seq<Part>) {
    DistinctParts(parts) && forall i :: 0 <= i < |parts| ==> GoodPart(l, parts[i])
  }

  /** The missing parts are those the checkpoint lacked, in order. */
  ghost predicate MissingOk(s: Session) {
    && (forall i, j :: 0 <= i < j < |s.missing| ==> s.missing[i] < s.missing[j])
    && (forall i :: 0 <= i < |s.missing| ==>
      1 <= s.missing[i] <= s.layout.totalParts && !HasPart(s.resumed, s.missing[i]))
    && (forall n :: 1 <= n <= s.layout.totalParts && !HasPart(s.resumed, n) ==> n in s.missing)
  }

  /** Part `i` of the missing ones is stored exactly when an earlier batch, or the current one, finished it. */
  ghost predicate StoredOk(s: Session, i: nat)
    requires i < |s.missing| && |s.pool.items| <= s.offset
  {
    var low := s.offset - |s.pool.items|;
    HasPart(s.completed, s.missing[i]) <==> i < low || i - low in s.pool.finished
  }

  ghost predicate CompletedOk(s: Session) {
    && GoodParts(s.layout, s.completed)
    && s.resumed <= s.completed
    && |s.pool.items| <= s.offset <= |s.missing|
    && s.pool.items == Batch(s.missing[s.offset - |s.pool.items|..s.offset])
    && forall i :: 0 <= i < |s.missing| ==> StoredOk(s, i)
  }

  ghost predicate CountOk(l: Layout, c: Count) {
    1 <= c.number <= l.totalParts && 0 <= c.bytes <= ExpectedPartSize(l, c.number)
  }

  /** Progress is kept for parts that are not stored yet, each at most once. */
  ghost predicate InFlightOk(s: Session) {
    && (forall i, j :: 0 <= i < j < |s.inFlight| ==> s.inFlight[i].number != s.inFlight[j].number)
    && forall i :: 0 <= i < |s.inFlight| ==>
      CountOk(s.layout, s.inFlight[i]) && !HasPart(s.completed, s.inFlight[i].number)
  }

  ghost predicate SessionInv(s: Session) {
    && ValidLayout(s.layout)
    && Inv(s.pool)
    && |s.pool.busy| == Workers(s.pool.items, CONCURRENCY)
    && MissingOk(s)
    && CompletedOk(s)
    && InFlightOk(s)
  }

  // ---- Lemmas about the maps ----

  lemma {:induction false} PutNew(parts: seq<Part>, part: Part)
    requires !HasPart(parts, part.number)
    ensures PutPart(parts, part) == parts + [part]
  {
    if parts != [] {
      assert parts[0].number != part.number;
      forall i | 0 <= i < |parts[1..]|
        ensures parts[1..][i].number != part.number
      {
        assert parts[i + 1].number != part.number;
      }
      PutNew(parts[1..], part);
    }
  }

  lemma HasAppended(parts: seq<Part>, part: Part, number: int)
    ensures HasPart(parts + [part], number) <==> HasPart(parts, number) || number == part.number
  {
    var t := parts + [part];
    if HasPart(parts, number) {
      var i :| 0 <= i < |parts| && parts[i].number == number;
      assert t[i].number == number;
    }
    if number == part.number { assert t[|parts|].number == number; }
  }

  lemma {:induction false} PutCountKeeps(counts: seq<Count>, c: Count)
    requires forall i, j :: 0 <= i < j < |counts| ==> counts[i].number != counts[j].number
    ensures var r := PutCount(counts, c);
            && (forall i, j :: 0 <= i < j < |r| ==> r[i].number != r[j].number)
            && (forall x :: x in r <==> x == c || (x in counts && x.number != c.number))
  {
    if counts != [] { assert counts == [counts[0]] + counts[1..]; }
    if counts != [] && counts[0].number != c.number {
      PutCountKeeps(counts[1..], c);
      var rest := PutCount(counts[1..], c);
      forall i, j | 0 <= i < j < |rest| + 1 ensures ([counts[0]] + rest)[i].number != ([counts[0]] + rest)[j].number {
        if i == 0 {
          assert rest[j - 1] in rest;
        }
      }
    } else if counts != [] {
      var r := [c] + counts[1..];
      forall i, j | 0 <= i < j < |r| ensures r[i].number != r[j].number { assert r[j] == counts[j]; }
    }
  }

  lemma {:induction false} DeleteCountKeeps(counts: seq<Count>, number: int)
    requires forall i, j :: 0 <= i < j < |counts| ==> counts[i].number != counts[j].number
    ensures var r := DeleteCount(counts, number);
            && (forall i, j :: 0 <= i < j < |r| ==> r[i].number != r[j].number)
            && (forall x :: x in r <==> x in counts && x.number != number)
  {
    if counts != [] {
      DeleteCountKeeps(counts[1..], number);
      var rest := DeleteCount(counts[1..], number);
      forall x | x in rest ensures x.number != counts[0].number {
        assert x in counts[1..];
      }
      assert counts == [counts[0]] + counts[1..];
    }
  }

  /** A list without repeated numbers is its own map. */
  lemma {:induction false} EntriesOfDistinct(parts: seq<Part>)
    requires DistinctParts(parts)
    ensures FromEntries(parts) == parts
  {
    if parts != [] {
      var front, last := parts[..|parts| - 1], parts[|parts| - 1];
      EntriesOfDistinct(front);
      forall i | 0 <= i < |front| ensures front[i].number != last.number { assert parts[i].number != last.number; }
      PutNew(front, last);
    }
  }

  /** Setting a key the map has leaves every other entry, and the order of the keys. */
  lemma {:induction false} PutReplaces(parts: seq<Part>, part: Part)
    requires DistinctParts(parts) && HasPart(parts, part.number)
    ensures |PutPart(parts, part)| == |parts|
    ensures forall i :: 0 <= i < |parts| ==>
              PutPart(parts, part)[i] == if parts[i].number == part.number then part else parts[i]
  {
    var i :| 0 <= i < |parts| && parts[i].number == part.number;
    if i > 0 {
      assert parts[1..][i - 1].number == part.number;
      PutReplaces(parts[1..], part);
    }
  }

  /** The last part with a number. */
  function LastOf(parts: seq<Part>, number: int): Option<Part> {
    if parts == [] then None
    else if parts[|parts| - 1].number == number then Some(parts[|parts| - 1])
    else LastOf(parts[..|parts| - 1], number)
  }

  lemma {:induction false} LastOfAt(parts: seq<Part>, i: nat)
    requires DistinctParts(parts) && i < |parts|
    ensures LastOf(parts, parts[i].number) == Some(parts[i])
  {
    if i < |parts| - 1 { LastOfAt(parts[..|parts| - 1], i); }
  }

  lemma {:induction false} LastOfNone(parts: seq<Part>, number: int)
    requires !HasPart(parts, number)
    ensures LastOf(parts, number) == None
  {
    if parts != [] {
      var front := parts[..|parts| - 1];
      assert parts[|parts| - 1].number != number;
      forall i | 0 <= i < |front| ensures front[i].number != number { assert parts[i].number != number; }
      LastOfNone(front, number);
    }
  }

  lemma LastOfPut(parts: seq<Part>, part: Part, number: int)
    requires DistinctParts(parts)
    ensures DistinctParts(PutPart(parts, part))
    ensures LastOf(PutPart(parts, part), number) == if number == part.number then Some(part) else LastOf(parts, number)
  {
    if HasPart(parts, part.number) {
      PutReplaces(parts, part);
      var after := PutPart(parts, part);
      assert forall i :: 0 <= i < |after| ==> after[i].number == parts[i].number;
      if i :| 0 <= i < |parts| && parts[i].number == number {
        LastOfAt(parts, i);
        LastOfAt(after, i);
      } else {
        LastOfNone(parts, number);
        LastOfNone(after, number);
      }
    } else {
      PutNew(parts, part);
      assert (parts + [part])[..|parts|] == parts;
    }
  }

  /** The map of any stored list has each number once, with the last part the list has for it. */
  lemma {:induction false} EntriesHoldLast(parts: seq<Part>, number: int)
    ensures DistinctParts(FromEntries(parts)) && LastOf(FromEntries(parts), number) == LastOf(parts, number)
  {
    if parts != [] {
      EntriesHoldLast(parts[..|parts| - 1], number);
      LastOfPut(FromEntries(parts[..|parts| - 1]), parts[|parts| - 1], number);
    }
  }

  // ---- Preservation ----

  lemma {:induction false} MissingNumbers(stored: seq<Part>, n: nat)
    ensures var m := MissingUpTo(stored, n);
            && (forall i, j :: 0 <= i < j < |m| ==> m[i] < m[j])
            && (forall i :: 0 <= i < |m| ==> 1 <= m[i] <= n && !HasPart(stored, m[i]))
            && (forall k :: 1 <= k <= n && !HasPart(stored, k) ==> k in m)
  {
    if n > 0 { MissingNumbers(stored, n - 1); }
  }

  lemma InvResume(layout: Layout, stored: seq<Part>)
    requires ValidLayout(layout) && GoodParts(layout, stored)
    ensures SessionInv(Resume(layout, stored))
  {
    var s := Resume(layout, stored);
    EntriesOfDistinct(stored);
    MissingNumbers(stored, layout.totalParts);
    InvLaunched<int>([], 0);
    assert s.pool.items == Batch(s.missing[0..0]);
    forall i | 0 <= i < |s.missing| ensures StoredOk(s, i) { }
  }

  /** The next twelve missing parts are signed, or those that are left, and the first four start at once. */
  lemma SignsNextTwelve(s: Session)
    requires s.offset <= |s.missing|
    ensures var t := AfterSign(s);
            var n := if |s.missing| - s.offset < 12 then |s.missing| - s.offset else 12;
            && t.offset == s.offset + n && |t.pool.items| == n
            && (forall i :: 0 <= i < n ==> t.pool.items[i] == Some(s.missing[s.offset + i]))
            && |t.pool.busy| == (if n < 4 then n else 4)
            && (forall w :: 0 <= w < |t.pool.busy| ==> t.pool.busy[w] == Some(w))
            && t.inFlight == [] && t.completed == s.completed && t.missing == s.missing && t.resumed == s.resumed
  {
    var t := AfterSign(s);
    LaunchedInOrder(t.pool.items, if |t.pool.items| < 4 then |t.pool.items| else 4);
  }

  lemma BatchFinished(s: Session, k: nat)
    requires SessionInv(s) && BatchDone(s) && k < |s.pool.items|
    ensures k in s.pool.finished
  {
    assert s.pool.items[k].Some?;
    SettledFinished(s.pool);
  }

  lemma FinishedBelow(s: Session, k: int)
    requires SessionInv(s) && k >= |s.pool.items|
    ensures k !in s.pool.finished
  {
    assert k >= s.pool.index;
    assert k !in s.pool.started;
  }

  lemma StoredBeforeSign(s: Session, i: nat)
    requires SessionInv(s) && BatchDone(s) && i < |s.missing|
    ensures HasPart(s.completed, s.missing[i]) <==> i < s.offset
  {
    var low := s.offset - |s.pool.items|;
    assert StoredOk(s, i);
    if low <= i < s.offset { BatchFinished(s, i - low); }
    if i >= s.offset { FinishedBelow(s, i - low); }
  }

  lemma CompletedAtSign(s: Session)
    requires SessionInv(s) && BatchDone(s)
    ensures CompletedOk(AfterSign(s))
  {
    var t := AfterSign(s);
    var items := Batch(s.missing[s.offset..BatchEnd(s)]);
    NothingFinishedAtLaunch(items, Workers(items, CONCURRENCY));
    forall i | 0 <= i < |t.missing| ensures StoredOk(t, i) {
      StoredBeforeSign(s, i);
    }
  }

  lemma InvSign(s: Session)
    requires SessionInv(s) && BatchDone(s) && s.offset < |s.missing|
    ensures SessionInv(AfterSign(s))
  {
    var items := Batch(s.missing[s.offset..BatchEnd(s)]);
    InvLaunched(items, Workers(items, CONCURRENCY));
    CompletedAtSign(s);
    SamePlan(s, AfterSign(s));
  }

  lemma {:induction false} NothingFinishedAtLaunch<T>(items: seq<Option<T>>, n: nat)
    ensures Launched(items, n).finished == {}
  {
    if n > 0 { NothingFinishedAtLaunch(items, n - 1); }
  }

  /** The part a worker uploads is one of the current batch, and not stored yet. */
  lemma UploadsMissing(s: Session, w: nat, number: int)
    requires SessionInv(s) && Uploads(s, w, number)
    ensures var k := s.pool.busy[w].value; var i := s.offset - |s.pool.items| + k;
            i < |s.missing| && s.missing[i] == number && !HasPart(s.completed, number) && k !in s.pool.finished
  {
    AwaitedIsUnfinished(s.pool, w);
    NumberOfItem(s, s.pool.busy[w].value, number);
  }

  /** An item of the batch that no worker finished is a missing part that is not stored. */
  lemma NumberOfItem(s: Session, k: nat, number: int)
    requires CompletedOk(s) && k < |s.pool.items| && s.pool.items[k] == Some(number) && k !in s.pool.finished
    ensures var i := s.offset - |s.pool.items| + k; i < |s.missing| && s.missing[i] == number
    ensures !HasPart(s.completed, number)
  {
    BatchItem(s, k);
    assert StoredOk(s, s.offset - |s.pool.items| + k);
  }

  lemma AwaitedIsUnfinished<T>(p: State<T>, w: nat)
    requires OwnersOk(p) && Awaits(p, w)
    ensures p.busy[w].value !in p.finished
  {
    assert p.busy[w].value in p.owner;
  }

  lemma BatchItem(s: Session, k: nat)
    requires CompletedOk(s) && k < |s.pool.items|
    ensures s.offset - |s.pool.items| + k < |s.missing|
    ensures s.pool.items[k] == Some(s.missing[s.offset - |s.pool.items| + k])
  {
  }

  /** Steps that store nothing keep what is known of the stored parts. */
  lemma CompletedKept(s: Session, t: Session)
    requires CompletedOk(s) && t.layout == s.layout && t.resumed == s.resumed && t.completed == s.completed
    requires t.missing == s.missing && t.offset == s.offset
    requires t.pool.items == s.pool.items && t.pool.finished == s.pool.finished
    ensures CompletedOk(t)
  {
    forall i | 0 <= i < |t.missing| ensures StoredOk(t, i) { assert StoredOk(s, i); }
  }

  lemma InFlightPut(s: Session, c: Count)
    requires InFlightOk(s) && CountOk(s.layout, c) && !HasPart(s.completed, c.number)
    ensures InFlightOk(s.(inFlight := PutCount(s.inFlight, c)))
  {
    var r := PutCount(s.inFlight, c);
    PutCountKeeps(s.inFlight, c);
    forall i | 0 <= i < |r| ensures CountOk(s.layout, r[i]) && !HasPart(s.completed, r[i].number) {
      assert r[i] in r;
      if r[i] != c {
        var j :| 0 <= j < |s.inFlight| && s.inFlight[j] == r[i];
      }
    }
  }

  lemma InvProgress(s: Session, w: nat, number: int, loaded: int)
    requires SessionInv(s) && Uploads(s, w, number) && 0 <= loaded <= ExpectedPartSize(s.layout, number)
    ensures SessionInv(AfterProgress(s, number, loaded))
  {
    var t := AfterProgress(s, number, loaded);
    UploadsMissing(s, w, number);
    InFlightPut(s, Count(number, loaded));
    CompletedKept(s, t);
    SamePlan(s, t);
  }

  lemma FinishedAfter<T>(p: State<T>, w: nat)
    requires Awaits(p, w)
    ensures AfterTask(p, w, true).finished == p.finished + {p.busy[w].value}
    ensures AfterTask(p, w, true).items == p.items && |AfterTask(p, w, true).busy| == |p.busy|
  {
  }

  lemma GoodAppended(l: Layout, parts: seq<Part>, p: Part)
    requires GoodParts(l, parts) && GoodPart(l, p) && !HasPart(parts, p.number)
    ensures GoodParts(l, parts + [p])
  {
    var t := parts + [p];
    forall i, j | 0 <= i < j < |t| ensures t[i].number != t[j].number {
      assert parts[i].number != p.number;
    }
  }

  lemma MissingOnce(s: Session, i: nat, j: nat)
    requires MissingOk(s) && i < |s.missing| && j < |s.missing|
    ensures s.missing[i] == s.missing[j] <==> i == j
  {
  }

  /** `t` is `s` after the batch's part `k` was stored as `p`. */
  ghost predicate Grown(s: Session, t: Session, k: nat, p: Part) {
    && k < |s.pool.items| <= s.offset <= |s.missing| && s.missing[s.offset - |s.pool.items| + k] == p.number
    && GoodPart(s.layout, p) && !HasPart(s.completed, p.number)
    && t.completed == s.completed + [p] && t.missing == s.missing && t.offset == s.offset
    && t.layout == s.layout && t.resumed == s.resumed
    && t.pool.items == s.pool.items && t.pool.finished == s.pool.finished + {k}
  }

  lemma StoredAfter(s: Session, t: Session, k: nat, p: Part, i: nat)
    requires MissingOk(s) && Grown(s, t, k, p) && i < |s.missing| && StoredOk(s, i)
    ensures StoredOk(t, i)
  {
    HasAppended(s.completed, p, s.missing[i]);
    MissingOnce(s, i, s.offset - |s.pool.items| + k);
  }

  lemma CompletedGrows(s: Session, t: Session, k: nat, p: Part)
    requires MissingOk(s) && CompletedOk(s) && Grown(s, t, k, p)
    ensures CompletedOk(t)
  {
    GoodAppended(s.layout, s.completed, p);
    forall i | 0 <= i < |t.missing| ensures StoredOk(t, i) {
      assert StoredOk(s, i);
      StoredAfter(s, t, k, p, i);
    }
  }

  lemma CompletedIs(s: Session, w: nat, number: int, etag: string)
    requires SessionInv(s) && Uploads(s, w, number)
    ensures AfterUploaded(s, w, number, etag).completed == s.completed + [Stored(s.layout, number, etag)]
  {
    UploadsMissing(s, w, number);
    PutNew(s.completed, Stored(s.layout, number, etag));
  }

  /** What finishing the part of worker `w` leaves of the batch. */
  lemma BatchAfter(s: Session, w: nat, number: int, etag: string)
    requires SessionInv(s) && Uploads(s, w, number)
    ensures Grown(s, AfterUploaded(s, w, number, etag), s.pool.busy[w].value, Stored(s.layout, number, etag))
  {
    UploadsMissing(s, w, number);
    CompletedIs(s, w, number, etag);
    FinishedAfter(s.pool, w);
  }

  lemma CompletedAfter(s: Session, w: nat, number: int, etag: string)
    requires SessionInv(s) && Uploads(s, w, number)
    ensures AfterUploaded(s, w, number, etag).completed == s.completed + [Stored(s.layout, number, etag)]
    ensures CompletedOk(AfterUploaded(s, w, number, etag))
  {
    BatchAfter(s, w, number, etag);
    CompletedGrows(s, AfterUploaded(s, w, number, etag), s.pool.busy[w].value, Stored(s.layout, number, etag));
  }

  lemma InFlightAfter(s: Session, w: nat, number: int, etag: string)
    requires SessionInv(s) && Uploads(s, w, number)
    requires AfterUploaded(s, w, number, etag).completed == s.completed + [Stored(s.layout, number, etag)]
    ensures InFlightOk(AfterUploaded(s, w, number, etag))
  {
    var t, p := AfterUploaded(s, w, number, etag), Stored(s.layout, number, etag);
    DeleteCountKeeps(s.inFlight, number);
    forall i | 0 <= i < |t.inFlight|
      ensures CountOk(t.layout, t.inFlight[i]) && !HasPart(t.completed, t.inFlight[i].number)
    {
      assert t.inFlight[i] in t.inFlight;
      HasAppended(s.completed, p, t.inFlight[i].number);
    }
  }

  lemma InvUploaded(s: Session, w: nat, number: int, etag: string)
    requires SessionInv(s) && Uploads(s, w, number)
    ensures SessionInv(AfterUploaded(s, w, number, etag))
  {
    var t := AfterUploaded(s, w, number, etag);
    InvTask(s.pool, w, true);
    CompletedAfter(s, w, number, etag);
    InFlightAfter(s, w, number, etag);
    FinishedAfter(s.pool, w);
    SamePlan(s, t);
  }

  lemma SamePlan(s: Session, t: Session)
    requires MissingOk(s) && t.layout == s.layout && t.missing == s.missing && t.resumed == s.resumed
    ensures MissingOk(t)
  {
  }

  lemma FailedAfter<T>(p: State<T>, w: nat)
    ensures var t := AfterTask(p, w, false); t.finished == p.finished && t.items == p.items && |t.busy| == |p.busy|
  {
  }

  lemma InvFailed(s: Session, w: nat)
    requires SessionInv(s)
    ensures SessionInv(AfterFailed(s, w))
  {
    var t := AfterFailed(s, w);
    InvTask(s.pool, w, false);
    FailedAfter(s.pool, w);
    CompletedKept(s, t);
    SamePlan(s, t);
    InFlightKept(s, t);
  }

  lemma InFlightKept(s: Session, t: Session)
    requires InFlightOk(s) && t.layout == s.layout && t.inFlight == s.inFlight && t.completed == s.completed
    ensures InFlightOk(t)
  {
  }

  // ---- What follows for a session ----

  /** No part of the checkpoint is uploaded again, and no two workers upload the same part. */
  lemma NothingIsResent(s: Session, v: nat, w: nat, number: int)
    requires SessionInv(s) && Uploads(s, w, number)
    ensures !HasPart(s.resumed, number) && !HasPart(s.completed, number)
    ensures Uploads(s, v, number) ==> v == w
  {
    UploadsMissing(s, w, number);
    if Uploads(s, v, number) {
      UploadsMissing(s, v, number);
      assert s.pool.busy[v].value == s.pool.busy[w].value;
    }
  }

  function Counts(parts: seq<Part>): seq<Count> {
    if parts == [] then []
    else [Count(parts[0].number, if parts[0].byteSize.Some? then parts[0].byteSize.value else 0)] + Counts(parts[1..])
  }

  lemma {:induction false} CountsOf(parts: seq<Part>)
    ensures |Counts(parts)| == |parts| && SumCounts(Counts(parts)) == SumParts(parts)
    ensures forall i :: 0 <= i < |parts| ==>
      Counts(parts)[i] == Count(parts[i].number, if parts[i].byteSize.Some? then parts[i].byteSize.value else 0)
  {
    if parts != [] { CountsOf(parts[1..]); }
  }

  lemma {:induction false} SumConcat(a: seq<Count>, b: seq<Count>)
    ensures SumCounts(a + b) == SumCounts(a) + SumCounts(b)
  {
    if a == [] {
      assert a + b == b;
    } else {
      assert (a + b)[1..] == a[1..] + b;
      SumConcat(a[1..], b);
    }
  }

  ghost predicate DistinctCounts(counts: seq<Count>) {
    forall i, j :: 0 <= i < j < |counts| ==> counts[i].number != counts[j].number
  }

  function Without(counts: seq<Count>, i: nat): seq<Count>
    requires i < |counts|
  {
    counts[..i] + counts[i + 1..]
  }

  lemma WithoutAt(counts: seq<Count>, i: nat, j: nat)
    requires i < |counts| && j < |counts| - 1
    ensures Without(counts, i)[j] == if j < i then counts[j] else counts[j + 1]
  {
  }

  lemma WithoutMembers(counts: seq<Count>, i: nat, x: Count)
    requires i < |counts| && DistinctCounts(counts)
    ensures x in Without(counts, i) <==> x in counts && x.number != counts[i].number
  {
    if x in Without(counts, i) {
      var j :| 0 <= j < |counts| - 1 && Without(counts, i)[j] == x;
      WithoutAt(counts, i, j);
    }
    if x in counts && x.number != counts[i].number {
      var j :| 0 <= j < |counts| && counts[j] == x;
      WithoutAt(counts, i, if j < i then j else j - 1);
    }
  }

  lemma RemoveCount(counts: seq<Count>, i: nat) returns (rest: seq<Count>)
    requires i < |counts| && DistinctCounts(counts)
    ensures SumCounts(counts) == counts[i].bytes + SumCounts(rest)
    ensures DistinctCounts(rest) && |rest| == |counts| - 1
    ensures forall x :: x in rest <==> x in counts && x.number != counts[i].number
  {
    var a, b := counts[..i], counts[i + 1..];
    rest := Without(counts, i);
    assert counts == a + ([counts[i]] + b);
    SumConcat(a, [counts[i]] + b);
    SumConcat(a, b);
    assert ([counts[i]] + b)[1..] == b;
    forall x ensures x in rest <==> x in counts && x.number != counts[i].number {
      WithoutMembers(counts, i, x);
    }
    forall j, k | 0 <= j < k < |rest| ensures rest[j].number != rest[k].number {
      WithoutAt(counts, i, j);
      WithoutAt(counts, i, k);
    }
  }

  /** Byte counts of distinct parts among 1..n stay below the sizes of parts 1..n. */
  lemma {:induction false} CountsAreBounded(l: Layout, counts: seq<Count>, n: nat)
    requires ValidLayout(l) && n <= l.totalParts && DistinctCounts(counts)
    requires forall x :: x in counts ==> CountOk(l, x) && x.number <= n
    ensures SumCounts(counts) <= SumOfSizes(l, n)
    decreases n
  {
    if n == 0 {
      assert forall i :: 0 <= i < |counts| ==> counts[i] in counts;
    } else {
      SizesInRange(l, n);
      if i :| 0 <= i < |counts| && counts[i].number == n {
        assert counts[i] in counts;
        var rest := RemoveCount(counts, i);
        CountsAreBounded(l, rest, n - 1);
      } else {
        CountsAreBounded(l, counts, n - 1);
      }
    }
  }

  /** Stored bytes and bytes under way never exceed the file. */
  lemma TransferredIsBounded(s: Session)
    requires SessionInv(s)
    ensures SumParts(s.completed) + SumCounts(s.inFlight) <= s.layout.byteSize
  {
    var stored := Counts(s.completed);
    var all := stored + s.inFlight;
    CountsOf(s.completed);
    SumConcat(stored, s.inFlight);
    forall x | x in all ensures CountOk(s.layout, x) && x.number <= s.layout.totalParts {
      var i :| 0 <= i < |all| && all[i] == x;
      if i < |stored| { SizesInRange(s.layout, s.completed[i].number); }
    }
    forall i, j | 0 <= i < j < |all| ensures all[i].number != all[j].number {
      if i < |stored| <= j {
        assert !HasPart(s.completed, s.inFlight[j - |stored|].number);
        assert s.completed[i].number != s.inFlight[j - |stored|].number;
      }
    }
    CountsAreBounded(s.layout, all, s.layout.totalParts);
    SizesSumToFile(s.layout);
  }

  lemma HeadIn(counts: seq<Count>)
    ensures counts != [] ==> counts[0] in counts
  {
  }

  /** Full counts of all of the parts 1..n add up to their sizes. */
  lemma {:induction false} CountsCover(l: Layout, counts: seq<Count>, n: nat)
    requires n <= l.totalParts && DistinctCounts(counts)
    requires forall x :: x in counts ==> 1 <= x.number <= n && x.bytes == ExpectedPartSize(l, x.number)
    requires forall k :: 1 <= k <= n ==> Count(k, ExpectedPartSize(l, k)) in counts
    ensures |counts| == n && SumCounts(counts) == SumOfSizes(l, n)
    decreases n
  {
    if n == 0 {
      HeadIn(counts);
    } else {
      var c := Count(n, ExpectedPartSize(l, n));
      var i :| 0 <= i < |counts| && counts[i] == c;
      var rest := RemoveCount(counts, i);
      CountsCover(l, rest, n - 1);
    }
  }

  lemma AllStored(s: Session, n: int)
    requires SessionInv(s) && BatchDone(s) && s.offset == |s.missing| && 1 <= n <= s.layout.totalParts
    ensures HasPart(s.completed, n)
  {
    if HasPart(s.resumed, n) {
      var i :| 0 <= i < |s.resumed| && s.resumed[i].number == n;
      assert s.completed[i].number == n;
    } else {
      var i :| 0 <= i < |s.missing| && s.missing[i] == n;
      StoredBeforeSign(s, i);
    }
  }

  lemma AllPartsStored(s: Session)
    requires SessionInv(s) && BatchDone(s) && s.offset == |s.missing|
    ensures |s.completed| == s.layout.totalParts && SumParts(s.completed) == s.layout.byteSize
  {
    var counts := Counts(s.completed);
    CountsOf(s.completed);
    forall k | 1 <= k <= s.layout.totalParts ensures Count(k, ExpectedPartSize(s.layout, k)) in counts {
      AllStored(s, k);
      var i :| 0 <= i < |s.completed| && s.completed[i].number == k;
      assert GoodPart(s.layout, s.completed[i]);
      assert counts[i] == Count(k, ExpectedPartSize(s.layout, k));
    }
    forall x | x in counts
      ensures 1 <= x.number <= s.layout.totalParts && x.bytes == ExpectedPartSize(s.layout, x.number)
    {
      var i :| 0 <= i < |counts| && counts[i] == x;
      assert GoodPart(s.layout, s.completed[i]);
    }
    CountsCover(s.layout, counts, s.layout.totalParts);
    SizesSumToFile(s.layout);
  }

  /**
   * Once every batch is done, the stored parts carry the whole file, and the sorted manifest is part 1,
   * part 2, and so on, which the API accepts.
   */
  lemma FinalManifestAccepted(s: Session)
    requires SessionInv(s) && BatchDone(s) && s.offset == |s.missing|
    ensures SumParts(s.completed) == s.layout.byteSize
    ensures CompleteManifest(s.layout, Sort(s.completed, NumberLe))
  {
    AllPartsStored(s);
    forall p | p in s.completed ensures 1 <= p.number <= s.layout.totalParts && PartFits(s.layout, p, p.number) {
      var i :| 0 <= i < |s.completed| && s.completed[i] == p;
      assert GoodPart(s.layout, s.completed[i]);
    }
    SortedManifestAccepted(s.layout, s.completed);
  }
}
