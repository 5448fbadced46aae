/** The checkpoint across pauses and retries: several sessions of one upload over one stored record. */
module Checkpoints {
  import opened Wrappers
  import opened Tiling
  import opened WorkerPool
  import opened MovieUpload

  /** Sessions in the order they were opened. A session whose run was rejected may still have uploads under way. */
  datatype World = World(layout: Layout, stored: seq<Part>, sessions: seq<Session>)

  datatype Step =
    | Open
    | Sign(i: nat)
    | Progress(i: nat, w: nat, number: int, loaded: int)
    | Uploaded(i: nat, w: nat, number: int, etag: string, saved: bool)
    | Failed(i: nat, w: nat)

  ghost predicate SessionEnabled(s: Session, step: Step) {
    match step
    case Open => false
    case Sign(_) => BatchDone(s) && s.offset < |s.missing|
    case Progress(_, w, number, loaded) => Uploads(s, w, number) && 0 <= loaded <= ExpectedPartSize(s.layout, number)
    case Uploaded(_, w, number, _, _) => Uploads(s, w, number)
    case Failed(_, w) => Awaits(s.pool, w)
  }

  ghost function SessionAfter(s: Session, step: Step): Session
    requires SessionInv(s) && SessionEnabled(s, step)
  {
    match step
    case Sign(_) => AfterSign(s)
    case Progress(_, w, number, loaded) => AfterProgress(s, number, loaded)
    case Uploaded(_, w, number, etag, _) => AfterUploaded(s, w, number, etag)
    case Failed(_, w) => AfterFailed(s, w)
  }

  predicate Saves(step: Step) {
    step.Uploaded? && step.saved
  }

  ghost predicate Enabled(v: World, step: Step) {
    step.Open? || (step.i < |v.sessions| && SessionEnabled(v.sessions[step.i], step))
  }

  /**
   * Finishing a part saves the session's own list of completed parts over the stored record; a save that storage
   * refuses leaves the record as it was.
   */
  ghost function Apply(v: World, step: Step): World
    requires WorldInv(v) && Enabled(v, step)
  {
    if step.Open? then v.(sessions := v.sessions + [Resume(v.layout, v.stored)])
    else
      var s := SessionAfter(v.sessions[step.i], step);
      v.(sessions := v.sessions[step.i := s], stored := if Saves(step) then s.completed else v.stored)
  }

  ghost predicate WorldInv(v: World) {
    && ValidLayout(v.layout) && GoodParts(v.layout, v.stored)
    && forall i :: 0 <= i < |v.sessions| ==> v.sessions[i].layout == v.layout && SessionInv(v.sessions[i])
  }

  /** One step of one session: it stays sound, and gains the uploaded part, which it did not have. */
  lemma SessionStep(s: Session, step: Step)
    requires SessionInv(s) && SessionEnabled(s, step)
    ensures SessionInv(SessionAfter(s, step)) && SessionAfter(s, step).layout == s.layout
    ensures SessionAfter(s, step).completed
         == if step.Uploaded? then s.completed + [Stored(s.layout, step.number, step.etag)] else s.completed
    ensures step.Uploaded? ==> !HasPart(s.completed, step.number)
  {
    match step
    case Sign(i) => InvSign(s);
    case Progress(i, w, number, loaded) => InvProgress(s, w, number, loaded);
    case Uploaded(i, w, number, etag, saved) =>
      InvUploaded(s, w, number, etag);
      CompletedAfter(s, w, number, etag);
      UploadsMissing(s, w, number);
    case Failed(i, w) => InvFailed(s, w);
  }

  lemma SessionReplaced(v: World, i: nat, s: Session, stored: seq<Part>)
    requires WorldInv(v) && i < |v.sessions| && SessionInv(s) && s.layout == v.layout
    requires stored == v.stored || stored == s.completed
    ensures WorldInv(v.(sessions := v.sessions[i := s], stored := stored))
  {
  }

  lemma SessionOpened(v: World, s: Session)
    requires WorldInv(v) && SessionInv(s) && s.layout == v.layout
    ensures WorldInv(v.(sessions := v.sessions + [s]))
  {
  }

  /** Every session stays sound and the record stays a checkpoint of this file, leftover uploads included. */
  lemma InvStep(v: World, step: Step)
    requires WorldInv(v) && Enabled(v, step)
    ensures WorldInv(Apply(v, step))
  {
    if step.Open? {
      InvResume(v.layout, v.stored);
      SessionOpened(v, Resume(v.layout, v.stored));
    } else {
      SessionStep(v.sessions[step.i], step);
      var s := SessionAfter(v.sessions[step.i], step);
      SessionReplaced(v, step.i, s, if Saves(step) then s.completed else v.stored);
    }
  }

  /** A run: each step enabled when it is taken. */
  ghost predicate IsRun(v: World, steps: seq<Step>)
    requires WorldInv(v)
    decreases |steps|
  {
    steps == [] || (Enabled(v, steps[0]) && (InvStep(v, steps[0]); IsRun(Apply(v, steps[0]), steps[1..])))
  }

  ghost function Run(v: World, steps: seq<Step>): (r: World)
    requires WorldInv(v) && IsRun(v, steps)
    ensures WorldInv(r)
    decreases |steps|
  {
    if steps == [] then v else InvStep(v, steps[0]); Run(Apply(v, steps[0]), steps[1..])
  }

  // ---- One session at a time ----

  /** The newest session is the only one that still finishes parts, as when a paused run is aborted first. */
  ghost predicate NewestOnly(v: World, steps: seq<Step>)
    requires WorldInv(v) && IsRun(v, steps)
    decreases |steps|
  {
    steps == [] || ((steps[0].Uploaded? ==> steps[0].i == |v.sessions| - 1)
                    && (InvStep(v, steps[0]); NewestOnly(Apply(v, steps[0]), steps[1..])))
  }

  /** The record is what the newest session completed up to its last save. */
  ghost predicate Synced(v: World) {
    v.sessions != [] ==> v.stored <= v.sessions[|v.sessions| - 1].completed
  }

  lemma SyncedOpen(v: World)
    requires WorldInv(v)
    ensures Synced(Apply(v, Open)) && Apply(v, Open).stored == v.stored
  {
    EntriesOfDistinct(v.stored);
    assert Apply(v, Open).sessions[|v.sessions|] == Resume(v.layout, v.stored);
  }

  lemma SyncedReplaced(v: World, i: nat, t: Session)
    requires Synced(v) && i < |v.sessions| && v.sessions[i].completed <= t.completed
    ensures Synced(v.(sessions := v.sessions[i := t]))
  {
    var last := |v.sessions| - 1;
    assert v.sessions[last].completed <= v.sessions[i := t][last].completed;
  }

  lemma OthersKeepCompleted(s: Session, step: Step)
    requires SessionInv(s) && SessionEnabled(s, step) && !step.Uploaded?
    ensures SessionAfter(s, step).completed == s.completed
  {
  }

  lemma SyncedOther(v: World, step: Step)
    requires WorldInv(v) && Enabled(v, step) && Synced(v) && !step.Open? && !step.Uploaded?
    ensures Synced(Apply(v, step)) && Apply(v, step).stored == v.stored
  {
    OthersKeepCompleted(v.sessions[step.i], step);
    SyncedReplaced(v, step.i, SessionAfter(v.sessions[step.i], step));
    assert Apply(v, step) == v.(sessions := v.sessions[step.i := SessionAfter(v.sessions[step.i], step)]);
  }

  /** A save by the newest session: the record is its list of completed parts. */
  lemma SyncedSave(v: World, i: nat, t: Session)
    requires i == |v.sessions| - 1
    ensures Synced(v.(sessions := v.sessions[i := t], stored := t.completed))
  {
  }

  lemma NotYetRecorded(a: seq<Part>, b: seq<Part>, number: int)
    requires a <= b && !HasPart(b, number)
    ensures !HasPart(a, number)
  {
    if HasPart(a, number) { HasInLonger(a, b, number); }
  }

  lemma Prefixes(a: seq<Part>, b: seq<Part>, p: Part)
    requires a <= b
    ensures a <= b + [p] && b <= b + [p]
  {
  }

  lemma SyncedUpload(v: World, step: Step)
    requires WorldInv(v) && Enabled(v, step) && Synced(v) && step.Uploaded? && step.i == |v.sessions| - 1
    ensures Synced(Apply(v, step)) && v.stored <= Apply(v, step).stored
    ensures Apply(v, step).stored
         == if step.saved
            then v.sessions[step.i].completed + [Stored(v.sessions[step.i].layout, step.number, step.etag)]
            else v.stored
    ensures !HasPart(v.stored, step.number)
  {
    var s, t := v.sessions[step.i], SessionAfter(v.sessions[step.i], step);
    CompletedIs(s, step.w, step.number, step.etag);
    UploadsMissing(s, step.w, step.number);
    NotYetRecorded(v.stored, s.completed, step.number);
    Prefixes(v.stored, s.completed, Stored(s.layout, step.number, step.etag));
    if step.saved {
      SyncedSave(v, step.i, t);
      assert Apply(v, step) == v.(sessions := v.sessions[step.i := t], stored := t.completed);
    } else {
      SyncedReplaced(v, step.i, t);
      assert Apply(v, step) == v.(sessions := v.sessions[step.i := t]);
    }
  }

  lemma SyncedStep(v: World, step: Step)
    requires WorldInv(v) && Enabled(v, step) && Synced(v) && (step.Uploaded? ==> step.i == |v.sessions| - 1)
    ensures Synced(Apply(v, step)) && v.stored <= Apply(v, step).stored
    ensures step.Uploaded? ==> !HasPart(v.stored, step.number)
    ensures Saves(step) ==> HasPart(Apply(v, step).stored, step.number)
  {
    if step.Uploaded? {
      SyncedUpload(v, step);
      var s := v.sessions[step.i];
      HasAppended(s.completed, Stored(s.layout, step.number, step.etag), step.number);
    } else if step.Open? {
      SyncedOpen(v);
    } else {
      SyncedOther(v, step);
    }
  }

  /** Across any sequence of pauses and resumes the record only grows. */
  lemma {:induction false} RecordGrows(v: World, steps: seq<Step>)
    requires WorldInv(v) && IsRun(v, steps) && Synced(v) && NewestOnly(v, steps)
    ensures v.stored <= Run(v, steps).stored && Synced(Run(v, steps))
    decreases |steps|
  {
    if steps != [] {
      InvStep(v, steps[0]);
      SyncedStep(v, steps[0]);
      RecordGrows(Apply(v, steps[0]), steps[1..]);
    }
  }

  lemma HasInLonger(a: seq<Part>, b: seq<Part>, number: int)
    requires a <= b && HasPart(a, number)
    ensures HasPart(b, number)
  {
    var i :| 0 <= i < |a| && a[i].number == number;
    assert b[i].number == number;
  }

  lemma NoneUploads(steps: seq<Step>, number: int)
    requires steps != [] && (steps[0].Uploaded? ==> steps[0].number != number)
    requires forall k :: 0 <= k < |steps[1..]| && steps[1..][k].Uploaded? ==> steps[1..][k].number != number
    ensures forall k :: 0 <= k < |steps| && steps[k].Uploaded? ==> steps[k].number != number
  {
    forall k | 0 <= k < |steps| && steps[k].Uploaded? ensures steps[k].number != number {
      if k > 0 { assert steps[1..][k - 1] == steps[k]; }
    }
  }

  /** A part once recorded is never uploaded again, in whichever session. */
  lemma {:induction false} RecordedPartsAreNotResent(v: World, steps: seq<Step>, number: int)
    requires WorldInv(v) && IsRun(v, steps) && Synced(v) && NewestOnly(v, steps) && HasPart(v.stored, number)
    ensures forall k :: 0 <= k < |steps| && steps[k].Uploaded? ==> steps[k].number != number
    decreases |steps|
  {
    if steps != [] {
      var t := Apply(v, steps[0]);
      InvStep(v, steps[0]);
      SyncedStep(v, steps[0]);
      HasInLonger(v.stored, t.stored, number);
      RecordedPartsAreNotResent(t, steps[1..], number);
      NoneUploads(steps, number);
    }
  }

  /** Nor is it under way at the end of the run: the newest session never so much as starts a recorded part. */
  lemma RecordedPartsAreNotStarted(v: World, steps: seq<Step>, number: int, w: nat)
    requires WorldInv(v) && IsRun(v, steps) && Synced(v) && NewestOnly(v, steps) && HasPart(v.stored, number)
    requires Run(v, steps).sessions != []
    ensures var sessions := Run(v, steps).sessions; !Uploads(sessions[|sessions| - 1], w, number)
  {
    RecordGrows(v, steps);
    var later := Run(v, steps);
    var newest := later.sessions[|later.sessions| - 1];
    HasInLonger(v.stored, later.stored, number);
    HasInLonger(later.stored, newest.completed, number);
    if Uploads(newest, w, number) { NothingIsResent(newest, w, w, number); }
  }

  /** A session holds on to what it resumed with. */
  lemma ResumedKept(v: World, step: Step, i: nat)
    requires WorldInv(v) && Enabled(v, step) && i < |v.sessions|
    ensures i < |Apply(v, step).sessions| && Apply(v, step).sessions[i].resumed == v.sessions[i].resumed
  {
  }

  /** Whatever else runs, a session never so much as starts a part that it resumed with. */
  lemma {:induction false} ResumedPartsAreNotStarted(v: World, steps: seq<Step>, i: nat, number: int, w: nat)
    requires WorldInv(v) && IsRun(v, steps) && i < |v.sessions| && HasPart(v.sessions[i].resumed, number)
    ensures i < |Run(v, steps).sessions| && !Uploads(Run(v, steps).sessions[i], w, number)
    decreases |steps|
  {
    if steps == [] {
      if Uploads(v.sessions[i], w, number) { NothingIsResent(v.sessions[i], w, w, number); }
    } else {
      InvStep(v, steps[0]);
      ResumedKept(v, steps[0], i);
      ResumedPartsAreNotStarted(Apply(v, steps[0]), steps[1..], i, number, w);
    }
  }

  /** Leftover sessions or not: a session opened while a part is recorded never starts it. */
  lemma RecordedAtOpening(v: World, steps: seq<Step>, number: int, w: nat)
    requires WorldInv(v) && IsRun(v, [Open] + steps) && HasPart(v.stored, number)
    ensures |v.sessions| < |Run(v, [Open] + steps).sessions|
    ensures !Uploads(Run(v, [Open] + steps).sessions[|v.sessions|], w, number)
  {
    InvStep(v, Open);
    EntriesOfDistinct(v.stored);
    assert ([Open] + steps)[1..] == steps && ([Open] + steps)[0] == Open;
    ResumedPartsAreNotStarted(Apply(v, Open), steps, |v.sessions|, number, w);
  }

  // ---- A leftover session ----

  /** Every recorded part is still recorded. */
  ghost predicate Keeps(before: seq<Part>, after: seq<Part>) {
    forall n :: HasPart(before, n) ==> HasPart(after, n)
  }

  /** The session knows every recorded part, or is recording it now. */
  ghost predicate KnowsRecord(v: World, step: Step)
    requires step.Uploaded? && step.i < |v.sessions|
  {
    forall n :: HasPart(v.stored, n) ==> HasPart(v.sessions[step.i].completed, n) || n == step.number
  }

  /** Exactly when a save loses nothing. */
  lemma SaveKeepsRecord(v: World, step: Step)
    requires WorldInv(v) && Enabled(v, step) && Saves(step)
    ensures Keeps(v.stored, Apply(v, step).stored) <==> KnowsRecord(v, step)
  {
    var s := v.sessions[step.i];
    CompletedAfter(s, step.w, step.number, step.etag);
    forall n ensures HasPart(Apply(v, step).stored, n) <==> HasPart(s.completed, n) || n == step.number {
      HasAppended(s.completed, Stored(s.layout, step.number, step.etag), n);
    }
  }

  /** No step of the run loses a recorded part. */
  ghost predicate KeptThroughout(v: World, steps: seq<Step>)
    requires WorldInv(v) && IsRun(v, steps)
    decreases |steps|
  {
    steps == [] || (Keeps(v.stored, Apply(v, steps[0]).stored)
                    && (InvStep(v, steps[0]); KeptThroughout(Apply(v, steps[0]), steps[1..])))
  }

  /** Whenever a session saves, it knows the record of that moment. */
  ghost predicate SaversKnow(v: World, steps: seq<Step>)
    requires WorldInv(v) && IsRun(v, steps)
    decreases |steps|
  {
    steps == [] || ((Saves(steps[0]) ==> KnowsRecord(v, steps[0]))
                    && (InvStep(v, steps[0]); SaversKnow(Apply(v, steps[0]), steps[1..])))
  }

  lemma StepKeeps(v: World, step: Step)
    requires WorldInv(v) && Enabled(v, step)
    ensures Keeps(v.stored, Apply(v, step).stored) <==> (Saves(step) ==> KnowsRecord(v, step))
  {
    if Saves(step) { SaveKeepsRecord(v, step); }
  }

  /** Whatever sessions are left over: the record is kept all along exactly if every saving session knew it. */
  lemma {:induction false} RecordKeptExactly(v: World, steps: seq<Step>)
    requires WorldInv(v) && IsRun(v, steps)
    ensures KeptThroughout(v, steps) <==> SaversKnow(v, steps)
    decreases |steps|
  {
    if steps != [] {
      InvStep(v, steps[0]);
      StepKeeps(v, steps[0]);
      RecordKeptExactly(Apply(v, steps[0]), steps[1..]);
    }
  }

  /** In particular, what is recorded at the start of such a run is recorded at its end. */
  lemma {:induction false} KeptToTheEnd(v: World, steps: seq<Step>, n: int)
    requires WorldInv(v) && IsRun(v, steps) && KeptThroughout(v, steps) && HasPart(v.stored, n)
    ensures HasPart(Run(v, steps).stored, n)
    decreases |steps|
  {
    if steps != [] {
      InvStep(v, steps[0]);
      KeptToTheEnd(Apply(v, steps[0]), steps[1..], n);
    }
  }

  // ---- Which schedules keep the record ----

  function Opens(past: seq<Step>): nat
    decreases |past|
  {
    if past == [] then 0 else Opens(past[..|past| - 1]) + if past[|past| - 1].Open? then 1 else 0
  }

  /** Session `i` has finished part `n`. */
  predicate FinishedBy(past: seq<Step>, i: nat, n: int)
    decreases |past|
  {
    past != [] &&
    var last := past[|past| - 1];
    FinishedBy(past[..|past| - 1], i, n) || (last.Uploaded? && last.i == i && last.number == n)
  }

  /** Since session `i` was opened a session that has finished part `n` has saved its list. */
  predicate SavedSince(past: seq<Step>, i: nat, n: int)
    decreases |past|
  {
    past != [] &&
    var before, last := past[..|past| - 1], past[|past| - 1];
    SavedSince(before, i, n) || (Saves(last) && i < Opens(before) && FinishedBy(past, last.i, n))
  }

  /** The session has completed every part that was finished and saved since it was opened, or is recording it now. */
  ghost predicate KnowsSaved(v: World, past: seq<Step>, step: Step)
    requires step.Uploaded? && step.i < |v.sessions|
  {
    forall n :: SavedSince(past, step.i, n) ==> HasPart(v.sessions[step.i].completed, n) || n == step.number
  }

  /** Whenever a session saves, it knows what was finished and saved since it was opened. */
  ghost predicate SaversKeptUp(v: World, past: seq<Step>, steps: seq<Step>)
    requires WorldInv(v) && IsRun(v, steps)
    decreases |steps|
  {
    steps == [] || ((Saves(steps[0]) ==> KnowsSaved(v, past, steps[0]))
                    && (InvStep(v, steps[0]); SaversKeptUp(Apply(v, steps[0]), past + [steps[0]], steps[1..])))
  }

  /**
   * Session `i` has completed what it resumed with and finished; the record is what it resumed with and what came
   * since.
   */
  ghost predicate SessionHistory(v: World, past: seq<Step>, i: nat)
    requires i < |v.sessions|
  {
    && (forall n :: HasPart(v.sessions[i].completed, n) <==>
      HasPart(v.sessions[i].resumed, n) || FinishedBy(past, i, n))
    && (forall n :: HasPart(v.stored, n) <==> HasPart(v.sessions[i].resumed, n) || SavedSince(past, i, n))
  }

  ghost predicate History(v: World, past: seq<Step>) {
    && Opens(past) == |v.sessions|
    && (forall i: nat, n :: FinishedBy(past, i, n) ==> i < |v.sessions|)
    && (forall i :: 0 <= i < |v.sessions| ==> SessionHistory(v, past, i))
  }

  lemma PastThen(past: seq<Step>, step: Step)
    ensures Opens(past + [step]) == Opens(past) + if step.Open? then 1 else 0
    ensures forall i: nat, n :: FinishedBy(past + [step], i, n) <==>
              FinishedBy(past, i, n) || (step.Uploaded? && step.i == i && step.number == n)
    ensures forall i: nat, n :: SavedSince(past + [step], i, n) <==>
              SavedSince(past, i, n) || (Saves(step) && i < Opens(past) && FinishedBy(past + [step], step.i, n))
  {
    assert (past + [step])[..|past|] == past;
  }

  lemma {:induction false} SavedSinceOpened(past: seq<Step>, i: nat, n: int)
    requires SavedSince(past, i, n)
    ensures i < Opens(past)
    decreases |past|
  {
    var before, last := past[..|past| - 1], past[|past| - 1];
    if SavedSince(before, i, n) { SavedSinceOpened(before, i, n); }
  }

  /** What the schedule tells is what the record shows. */
  lemma KnowsSavedExactly(v: World, past: seq<Step>, step: Step)
    requires step.Uploaded? && step.i < |v.sessions| && SessionHistory(v, past, step.i)
    ensures KnowsSaved(v, past, step) <==> KnowsRecord(v, step)
  {
  }

  lemma HistoryOpen(v: World, past: seq<Step>)
    requires WorldInv(v) && History(v, past)
    ensures History(Apply(v, Open), past + [Open])
  {
    var t, i := Apply(v, Open), |v.sessions|;
    PastThen(past, Open);
    EntriesOfDistinct(v.stored);
    assert t.sessions[i] == Resume(v.layout, v.stored) && t.stored == v.stored;
    forall n ensures !SavedSince(past, i, n) { if SavedSince(past, i, n) { SavedSinceOpened(past, i, n); } }
    forall k | 0 <= k < |t.sessions| ensures SessionHistory(t, past + [Open], k) {
      if k < i { assert SessionHistory(v, past, k) && t.sessions[k] == v.sessions[k]; }
    }
  }

  /** What a step of session `step.i` does to its lists. */
  ghost predicate SessionMoved(s: Session, t: Session, step: Step) {
    && t.resumed == s.resumed
    && forall n :: HasPart(t.completed, n) <==> HasPart(s.completed, n) || (step.Uploaded? && n == step.number)
  }

  lemma StepMoves(s: Session, step: Step)
    requires SessionInv(s) && SessionEnabled(s, step)
    ensures SessionMoved(s, SessionAfter(s, step), step)
  {
    SessionStep(s, step);
    if step.Uploaded? {
      forall n ensures HasPart(SessionAfter(s, step).completed, n) <==> HasPart(s.completed, n) || n == step.number {
        HasAppended(s.completed, Stored(s.layout, step.number, step.etag), n);
      }
    }
  }

  /** `t` is `v` after a step of one session that keeps the record. */
  ghost predicate MovedTo(v: World, step: Step, t: World) {
    && !step.Open? && step.i < |v.sessions| == |t.sessions|
    && (forall i :: 0 <= i < |v.sessions| && i != step.i ==> t.sessions[i] == v.sessions[i])
    && SessionMoved(v.sessions[step.i], t.sessions[step.i], step)
    && Keeps(v.stored, t.stored) && t.stored == if Saves(step) then t.sessions[step.i].completed else v.stored
  }

  lemma HistoryOfSession(v: World, past: seq<Step>, step: Step, t: World, i: nat)
    requires MovedTo(v, step, t) && i < |v.sessions| && Opens(past) == |v.sessions|
    requires SessionHistory(v, past, i) && SessionHistory(v, past, step.i)
    ensures SessionHistory(t, past + [step], i)
  {
    PastThen(past, step);
  }

  lemma HistoryMoved(v: World, past: seq<Step>, step: Step, t: World)
    requires MovedTo(v, step, t) && History(v, past)
    ensures History(t, past + [step])
  {
    PastThen(past, step);
    assert SessionHistory(v, past, step.i);
    forall i | 0 <= i < |t.sessions| ensures SessionHistory(t, past + [step], i) {
      assert SessionHistory(v, past, i);
      HistoryOfSession(v, past, step, t, i);
    }
  }

  lemma StepMovesTo(v: World, step: Step)
    requires WorldInv(v) && Enabled(v, step) && !step.Open? && Keeps(v.stored, Apply(v, step).stored)
    ensures MovedTo(v, step, Apply(v, step))
  {
    StepMoves(v.sessions[step.i], step);
  }

  lemma {:induction false} KeptFrom(v: World, past: seq<Step>, steps: seq<Step>)
    requires WorldInv(v) && IsRun(v, steps) && History(v, past)
    ensures KeptThroughout(v, steps) <==> SaversKeptUp(v, past, steps)
    decreases |steps|
  {
    if steps != [] {
      var step := steps[0];
      InvStep(v, step);
      StepKeeps(v, step);
      if Saves(step) {
        assert SessionHistory(v, past, step.i);
        KnowsSavedExactly(v, past, step);
      }
      if Keeps(v.stored, Apply(v, step).stored) {
        if step.Open? {
          HistoryOpen(v, past);
        } else {
          StepMovesTo(v, step);
          HistoryMoved(v, past, step, Apply(v, step));
        }
        KeptFrom(Apply(v, step), past + [step], steps[1..]);
      }
    }
  }

  /**
   * From the first visit on, whatever sessions are left over: no step loses a recorded part exactly if, whenever a
   * session saves, each part that was finished and saved since it was opened is one it completed, or is recording.
   */
  lemma KeptBySchedule(v: World, steps: seq<Step>)
    requires WorldInv(v) && v.sessions == [] && IsRun(v, steps)
    ensures KeptThroughout(v, steps) <==> SaversKeptUp(v, [], steps)
  {
    KeptFrom(v, [], steps);
  }

  lemma RunFirst(v: World, first: Step, rest: seq<Step>)
    requires WorldInv(v) && Enabled(v, first) && WorldInv(Apply(v, first)) && IsRun(Apply(v, first), rest)
    ensures IsRun(v, [first] + rest) && Run(v, [first] + rest) == Run(Apply(v, first), rest)
  {
    assert ([first] + rest)[1..] == rest;
  }

  lemma {:induction false} RunThen(v: World, steps: seq<Step>, step: Step)
    requires WorldInv(v) && IsRun(v, steps) && Enabled(Run(v, steps), step)
    ensures IsRun(v, steps + [step]) && Run(v, steps + [step]) == Apply(Run(v, steps), step)
    decreases |steps|
  {
    if steps == [] {
      InvStep(v, step);
      RunFirst(v, step, []);
      assert [] + [step] == [step] + [];
    } else {
      InvStep(v, steps[0]);
      RunThen(Apply(v, steps[0]), steps[1..], step);
      RunFirst(v, steps[0], steps[1..] + [step]);
      assert steps + [step] == [steps[0]] + (steps[1..] + [step]);
    }
  }

  // A run that was rejected without being aborted leaves workers behind. Retrying before they end lets one of
  // them overwrite what the new session recorded: two one-byte parts, part 1 fails, the user retries.

  const TWO_PARTS := Layout(2, 1, 2)

  /** Parts 1 and 2 signed and under way. */
  function Signed(): Session {
    AfterSign(Resume(TWO_PARTS, []))
  }

  lemma TwoLaunched(items: seq<Option<int>>)
    requires items == [Some(1), Some(2)]
    ensures Launched(items, 2).busy == [Some(0), Some(1)] && Launched(items, 2).index == 2
  {
    assert Launched(items, 1) == Launch(Launched(items, 0));
    assert Launched(items, 1).busy == [Some(0)] && Launched(items, 1).index == 1;
    assert Launched(items, 2) == Launch(Launched(items, 1));
  }

  lemma BothUpload()
    ensures Resume(TWO_PARTS, []).missing == [1, 2]
    ensures Signed().completed == [] && Signed().pool.busy == [Some(0), Some(1)] && Signed().pool.index == 2
    ensures Signed().pool.items == [Some(1), Some(2)]
  {
    assert MissingUpTo([], 0) == [] && MissingUpTo([], 1) == [1];
    assert Resume(TWO_PARTS, []).missing == [1, 2];
    var items := Batch([1, 2]);
    assert [1, 2][0..2] == [1, 2] && items == [Some(1), Some(2)];
    TwoLaunched(items);
  }

  lemma SignedInv()
    ensures ValidLayout(TWO_PARTS) && SessionInv(Resume(TWO_PARTS, [])) && SessionInv(Signed())
    ensures SessionEnabled(Resume(TWO_PARTS, []), Sign(0)) && SessionEnabled(Resume(TWO_PARTS, []), Sign(1))
  {
    BothUpload();
    InvResume(TWO_PARTS, []);
    InvSign(Resume(TWO_PARTS, []));
  }

  /** Some run from the first visit leads to `v`. */
  ghost predicate Reachable(layout: Layout, v: World) {
    var first := World(layout, [], []);
    WorldInv(first) && exists steps :: IsRun(first, steps) && Run(first, steps) == v
  }

  lemma ReachableThen(layout: Layout, v: World, step: Step)
    requires Reachable(layout, v) && Enabled(v, step)
    ensures WorldInv(v) && Reachable(layout, Apply(v, step))
  {
    var first := World(layout, [], []);
    var steps :| IsRun(first, steps) && Run(first, steps) == v;
    RunThen(first, steps, step);
    assert IsRun(first, steps + [step]) && Run(first, steps + [step]) == Apply(v, step);
  }

  /** Another visit, up to its first batch. */
  lemma ReachSigned(layout: Layout, others: seq<Session>)
    requires Reachable(layout, World(layout, [], others))
    requires SessionEnabled(Resume(layout, []), Sign(|others|))
    ensures Reachable(layout, World(layout, [], others + [AfterSign(Resume(layout, []))]))
  {
    var v, s := World(layout, [], others), Resume(layout, []);
    ReachableThen(layout, v, Open);
    assert Apply(v, Open) == World(layout, [], others + [s]);
    ReachableThen(layout, World(layout, [], others + [s]), Sign(|others|));
    assert (others + [s])[|others| := AfterSign(s)] == others + [AfterSign(s)];
  }

  lemma ReachFailed(layout: Layout, s: Session)
    requires Reachable(layout, World(layout, [], [s])) && Awaits(s.pool, 0)
    ensures Reachable(layout, World(layout, [], [AfterFailed(s, 0)]))
  {
    ReachableThen(layout, World(layout, [], [s]), Failed(0, 0));
    assert [s][0 := AfterFailed(s, 0)] == [AfterFailed(s, 0)];
  }

  /** A first run is rejected by the failure of worker 0, and a second one is started. */
  lemma ReachRetried(layout: Layout, s: Session)
    requires ValidLayout(layout) && s == AfterSign(Resume(layout, [])) && Awaits(s.pool, 0)
    requires SessionEnabled(Resume(layout, []), Sign(0)) && SessionEnabled(Resume(layout, []), Sign(1))
    ensures Reachable(layout, World(layout, [], [AfterFailed(s, 0), s]))
  {
    var first := World(layout, [], []);
    assert IsRun(first, []) && Run(first, []) == first;
    ReachSigned(layout, []);
    assert [] + [s] == [s];
    ReachFailed(layout, s);
    ReachSigned(layout, [AfterFailed(s, 0)]);
    assert [AfterFailed(s, 0)] + [s] == [AfterFailed(s, 0), s];
  }

  lemma SignedUploads()
    ensures Uploads(Signed(), 0, 1) && Uploads(AfterFailed(Signed(), 0), 1, 2)
    ensures Signed().completed == [] && AfterFailed(Signed(), 0).completed == []
  {
    BothUpload();
  }

  /** A session that had completed nothing stores exactly the part it finished. */
  lemma OnlyPartStored(v: World, step: Step)
    requires WorldInv(v) && Enabled(v, step) && Saves(step) && v.sessions[step.i].completed == []
    ensures Apply(v, step).stored == [Stored(v.layout, step.number, step.etag)]
  {
    SessionStep(v.sessions[step.i], step);
  }

  lemma OthersKept(v: World, step: Step, i: nat)
    requires WorldInv(v) && Enabled(v, step) && !step.Open? && i < |v.sessions| && i != step.i
    ensures |Apply(v, step).sessions| == |v.sessions| && Apply(v, step).sessions[i] == v.sessions[i]
  {
  }

  /** The new session records part 1. */
  lemma PartOneRecorded(left: Session, s: Session) returns (v: World)
    requires Reachable(TWO_PARTS, World(TWO_PARTS, [], [left, s]))
    requires Uploads(s, 0, 1) && s.completed == []
    ensures Reachable(TWO_PARTS, v) && WorldInv(v) && |v.sessions| == 2 && v.sessions[0] == left && HasPart(v.stored, 1)
  {
    var before, step := World(TWO_PARTS, [], [left, s]), Uploaded(1, 0, 1, "a", true);
    assert SessionEnabled(before.sessions[1], step);
    ReachableThen(TWO_PARTS, before, step);
    OnlyPartStored(before, step);
    OthersKept(before, step, 0);
    InvStep(before, step);
    v := Apply(before, step);
    assert v.stored[0].number == 1;
  }

  /**
   * The retry records part 1, the leftover worker then records part 2, and part 1 is gone: that the record grows
   * needs the condition above.
   */
  lemma LeftoverShrinksRecord() returns (v: World, late: Step)
    ensures Reachable(TWO_PARTS, v) && WorldInv(v) && Enabled(v, late)
    ensures HasPart(v.stored, 1) && !HasPart(Apply(v, late).stored, 1)
  {
    SignedInv();
    SignedUploads();
    ReachRetried(TWO_PARTS, Signed());
    v := PartOneRecorded(AfterFailed(Signed(), 0), Signed());
    late := Uploaded(0, 1, 2, "b", true);
    LateUploadOverwrites(v, late);
  }

  lemma LateUploadOverwrites(v: World, late: Step)
    requires WorldInv(v) && v.sessions != [] && late == Uploaded(0, 1, 2, "b", true)
    requires Uploads(v.sessions[0], 1, 2) && v.sessions[0].completed == []
    ensures Enabled(v, late) && !HasPart(Apply(v, late).stored, 1)
  {
    assert SessionEnabled(v.sessions[0], late);
    OnlyPartStored(v, late);
  }
}
