/** Generations over the editorial state: snapshots, the commit, and everything that runs beside it. */
module TranslationWorker {
  import opened Backoff
  import opened Editorial
  import opened GenerationLease
  import opened Sorting
  import opened Wrappers

  /** `scenes` lists each scene's dialogues; the other two are the selections a commit compares. */
  datatype Context = Context(scenes: map<nat, seq<nat>>, sceneSelected: map<nat, nat>, glossary: map<nat, seq<nat>>)

  datatype State = State(texts: Texts, queue: Queue, context: Context)

  // ---- Requesting a generation ----

  function GlossaryOf(c: Context, track: nat): seq<nat> {
    if track in c.glossary then c.glossary[track] else []
  }

  predicate Requestable(s: State, track: nat, scene: nat) {
    && scene in s.context.sceneSelected && scene in s.context.scenes
    && 1 <= |s.context.scenes[scene]| <= 200
    && (forall d :: d in s.context.scenes[scene] ==> d in s.texts.sources)
    && |GlossaryOf(s.context, track)| <= 200
  }

  function Seen(e: Texts, track: nat, dialogue: nat): SnapshotDialogue
    requires dialogue in e.sources
  {
    var key := Key(track, dialogue);
    var selection := SelectionOf(e, key);
    SnapshotDialogue(dialogue, e.sources[dialogue].selected,
                     if key in e.translations then Some(e.translations[key].id) else None,
                     if selection.Some? then Some(selection.value.selected) else None,
                     if selection.Some? then Some(selection.value.counter) else None)
  }

  function SeenAll(e: Texts, track: nat, dialogues: seq<nat>): seq<SnapshotDialogue>
    requires forall d :: d in dialogues ==> d in e.sources
  {
    seq(|dialogues|, i requires 0 <= i < |dialogues| => assert dialogues[i] in dialogues; Seen(e, track, dialogues[i]))
  }

  function TakeSnapshot(s: State, track: nat, scene: nat): Snapshot
    requires Requestable(s, track, scene)
  {
    Snapshot(track, scene, s.context.sceneSelected[scene], SeenAll(s.texts, track, s.context.scenes[scene]),
             GlossaryOf(s.context, track))
  }

  // ---- Committing a result ----

  predicate NatLe(a: nat, b: nat) { a <= b }

  /** The scene, every source and the glossary are those of the snapshot. */
  predicate SelectionsCurrent(s: State, snapshot: Snapshot) {
    && snapshot.scene in s.context.sceneSelected && s.context.sceneSelected[snapshot.scene] == snapshot.sceneRevision
    && (forall d :: d in snapshot.dialogues ==>
      d.dialogue in s.texts.sources && s.texts.sources[d.dialogue].selected == d.source)
    && Sort(GlossaryOf(s.context, snapshot.track), NatLe) == Sort(snapshot.glossary, NatLe)
  }

  /** The translation is the one the snapshot saw, with the selection it saw, or still absent. */
  predicate TargetCurrent(e: Texts, track: nat, d: SnapshotDialogue) {
    var key := Key(track, d.dialogue);
    if d.targetId.None? then key !in e.translations
    else
      && key in e.translations && e.translations[key].selection.Some?
      && e.translations[key].id == d.targetId.value
      && Some(e.translations[key].selection.value.selected) == d.targetRevision
      && Some(e.translations[key].selection.value.counter) == d.targetCounter
  }

  function Commit(e: Texts, track: nat, g: nat, d: SnapshotDialogue, text: string): Texts {
    var key := Key(track, d.dialogue);
    var id := if key in e.translations then e.translations[key].id else Drawn(|e.targetLog|);
    e.(targetLog := e.targetLog + [TargetRevision(key, text, d.source, Some(g))],
       translations := e.translations[key :=
         Translation(id, Some(Selection(Draft, Counter(SelectionOf(e, key)) + 1, |e.targetLog|)))])
  }

  function ResultText(result: map<nat, string>, dialogue: nat): string {
    if dialogue in result then result[dialogue] else ""
  }

  /** The commits of dialogues `0` to `n - 1`. */
  function CommitUpTo(e: Texts, track: nat, g: nat, dialogues: seq<SnapshotDialogue>, result: map<nat, string>,
                      n: nat): Texts
    requires n <= |dialogues|
  {
    if n == 0 then e
    else Commit(CommitUpTo(e, track, g, dialogues, result, n - 1), track, g, dialogues[n - 1],
                ResultText(result, dialogues[n - 1].dialogue))
  }

  predicate Committable(s: State, g: nat, token: nat, execution: nat, now: int, result: map<nat, string>) {
    && Leased(s.queue, g, token, execution, now)
    && var snapshot := s.queue.generations[g].snapshot;
       && SelectionsCurrent(s, snapshot)
       && forall d :: d in snapshot.dialogues ==> d.dialogue in result && TargetCurrent(s.texts, snapshot.track, d)
  }

  function AfterComplete(s: State, g: nat, token: nat, execution: nat, now: int, result: map<nat, string>): State {
    if !Committable(s, g, token, execution, now, result) then s
    else
      var snapshot := s.queue.generations[g].snapshot;
      s.(texts := CommitUpTo(s.texts, snapshot.track, g, snapshot.dialogues, result, |snapshot.dialogues|),
         queue := AfterSuccess(s.queue, g))
  }

  /** Everything that may happen, in any order and by anyone. */
  datatype Step =
    | Editing(edit: Edit)
    | Working(work: Work)
    | SelectScene(scene: nat, revision: nat)
    | SelectGlossary(track: nat, revisions: seq<nat>)
    | Request(track: nat, scene: nat, maxAttempts: nat, now: int)
    | Complete(g: nat, token: nat, execution: nat, now: int, result: map<nat, string>)

  function Apply(s: State, step: Step): State {
    match step
    case Editing(edit) => s.(texts := AfterEdit(s.texts, edit))
    case Working(work) => s.(queue := AfterWork(s.queue, work))
    case SelectScene(scene, revision) =>
      s.(context := s.context.(sceneSelected := s.context.sceneSelected[scene := revision]))
    case SelectGlossary(track, revisions) =>
      s.(context := s.context.(glossary := s.context.glossary[track := revisions]))
    case Request(track, scene, maxAttempts, now) =>
      if Requestable(s, track, scene) && maxAttempts >= 1
      then s.(queue := AfterRequest(s.queue, TakeSnapshot(s, track, scene), maxAttempts, now)) else s
    case Complete(g, token, execution, now, result) => AfterComplete(s, g, token, execution, now, result)
  }

  function Run(s: State, steps: seq<Step>): State
    decreases |steps|
  {
    if steps == [] then s else Apply(Run(s, steps[..|steps| - 1]), steps[|steps| - 1])
  }

  // ---- What every run keeps ----

  datatype Pair = Pair(key: Key, source: nat)

  function PairOf(r: TargetRevision, g: nat): seq<Pair> {
    if r.generation == Some(g) then [Pair(r.key, r.source)] else []
  }

  /** The revisions a generation committed, in order. */
  function Committed(log: seq<TargetRevision>, g: nat): seq<Pair> {
    if log == [] then []
    else
      var last := log[|log| - 1];
      Committed(log[..|log| - 1], g) + PairOf(last, g)
  }

  /** One revision for each dialogue of the snapshot, against the source it saw. */
  function Due(snapshot: Snapshot): seq<Pair> {
    seq(|snapshot.dialogues|, i requires 0 <= i < |snapshot.dialogues| =>
      Pair(Key(snapshot.track, snapshot.dialogues[i].dialogue), snapshot.dialogues[i].source))
  }

  ghost predicate DistinctDialogues(dialogues: seq<SnapshotDialogue>) {
    forall i, j :: 0 <= i < j < |dialogues| ==> dialogues[i].dialogue != dialogues[j].dialogue
  }

  /** A generation committed all of its snapshot if it succeeded, and nothing otherwise. */
  ghost predicate GenerationOk(s: State, g: nat)
    requires g < |s.queue.generations|
  {
    var row := s.queue.generations[g];
    && row.snapshot.dialogues != [] && DistinctDialogues(row.snapshot.dialogues)
    && Committed(s.texts.targetLog, g) == if row.status == Succeeded then Due(row.snapshot) else []
  }

  ghost predicate Inv(s: State) {
    && TextsInv(s.texts)
    && QueueInv(s.queue)
    && (forall scene :: scene in s.context.scenes ==> Distinct(s.context.scenes[scene]))
    && (forall g :: 0 <= g < |s.queue.generations| ==> GenerationOk(s, g))
    && (forall i :: 0 <= i < |s.texts.targetLog| ==> GenerationKnown(s, i))
  }

  ghost predicate GenerationKnown(s: State, i: nat)
    requires i < |s.texts.targetLog|
  {
    s.texts.targetLog[i].generation.Some? ==> s.texts.targetLog[i].generation.value < |s.queue.generations|
  }

  lemma CommittedOne(log: seq<TargetRevision>, r: TargetRevision, g: nat)
    ensures Committed(log + [r], g) == Committed(log, g) + PairOf(r, g)
  {
    assert (log + [r])[..|log|] == log;
  }

  lemma {:induction false} NothingCommitted(log: seq<TargetRevision>, g: nat)
    requires forall i :: 0 <= i < |log| ==> log[i].generation != Some(g)
    ensures Committed(log, g) == []
  {
    if log != [] { NothingCommitted(log[..|log| - 1], g); }
  }

  /** Edits append at most one revision, written by hand. */
  lemma EditAppends(e: Texts, edit: Edit)
    ensures AfterEdit(e, edit).targetLog == e.targetLog
         || exists r :: AppendsByHand(e.targetLog, AfterEdit(e, edit).targetLog, r)
  {
    if edit.UpdateTarget? && TargetUpdates(e, edit.key, edit.text, edit.expected) {
      var r := TargetRevision(edit.key, edit.text, e.sources[edit.key.dialogue].selected, None);
      assert AppendsByHand(e.targetLog, AfterEdit(e, edit).targetLog, r);
    }
  }

  ghost predicate AppendsByHand(log: seq<TargetRevision>, after: seq<TargetRevision>, r: TargetRevision) {
    after == log + [r] && r.generation.None?
  }

  lemma ByHandCommitsNothing(log: seq<TargetRevision>, after: seq<TargetRevision>, g: nat)
    requires after == log || exists r :: AppendsByHand(log, after, r)
    ensures Committed(after, g) == Committed(log, g)
  {
    if after != log {
      var r :| AppendsByHand(log, after, r);
      CommittedOne(log, r, g);
    }
  }

  lemma InvEditing(s: State, edit: Edit)
    requires Inv(s)
    ensures Inv(Apply(s, Editing(edit)))
  {
    var t := Apply(s, Editing(edit));
    InvEdit(s.texts, edit);
    EditAppends(s.texts, edit);
    forall g | 0 <= g < |t.queue.generations| ensures GenerationOk(t, g) {
      assert GenerationOk(s, g);
      ByHandCommitsNothing(s.texts.targetLog, t.texts.targetLog, g);
    }
    forall i | 0 <= i < |t.texts.targetLog|
      ensures GenerationKnown(t, i)
    {
      if i < |s.texts.targetLog| { assert GenerationKnown(s, i); }
    }
  }

  lemma InvWorking(s: State, work: Work)
    requires Inv(s)
    ensures Inv(Apply(s, Working(work)))
  {
    var t := Apply(s, Working(work));
    InvWork(s.queue, work);
    forall g | 0 <= g < |t.queue.generations| ensures GenerationOk(t, g) {
      WorkMovesRow(s.queue, work, g);
      assert GenerationOk(s, g);
    }
    if s.queue.generations != [] { WorkMovesRow(s.queue, work, 0); }
    forall i | 0 <= i < |t.texts.targetLog| ensures GenerationKnown(t, i) { assert GenerationKnown(s, i); }
  }

  /** A new generation, whatever distinct dialogues it saw, has committed nothing. */
  lemma GenerationAdded(s: State, q: Queue, row: Generation)
    requires Inv(s) && QueueInv(q) && q.generations == s.queue.generations + [row]
    requires row.snapshot.dialogues != [] && DistinctDialogues(row.snapshot.dialogues) && row.status == Queued
    ensures Inv(s.(queue := q))
  {
    var t, n := s.(queue := q), |s.queue.generations|;
    forall i | 0 <= i < |t.texts.targetLog|
      ensures GenerationKnown(t, i) && t.texts.targetLog[i].generation != Some(n)
    {
      assert GenerationKnown(s, i);
    }
    NothingCommitted(t.texts.targetLog, n);
    forall g | 0 <= g < |t.queue.generations| ensures GenerationOk(t, g) {
      if g < n { assert GenerationOk(s, g); }
    }
  }

  lemma InvRequested(s: State, track: nat, scene: nat, maxAttempts: nat, now: int)
    requires Inv(s)
    ensures Inv(Apply(s, Request(track, scene, maxAttempts, now)))
  {
    if Requestable(s, track, scene) && maxAttempts >= 1 {
      var snapshot := TakeSnapshot(s, track, scene);
      InvRequest(s.queue, snapshot, maxAttempts, now);
      GenerationAdded(s, AfterRequest(s.queue, snapshot, maxAttempts, now),
                      Generation(snapshot, Queued, 0, maxAttempts, None, None, None));
    }
  }

  // ---- The commit ----

  lemma CommitKeepsTexts(e: Texts, track: nat, g: nat, d: SnapshotDialogue, text: string)
    requires TextsInv(e) && d.dialogue in e.sources && e.sources[d.dialogue].selected == d.source
    ensures TextsInv(Commit(e, track, g, d, text))
  {
    var f, key := Commit(e, track, g, d, text), Key(track, d.dialogue);
    assert SourceOk(e, d.dialogue);
    assert RevisionOk(f, |e.targetLog|);
    TargetChanged(e, f, key);
  }

  lemma {:induction false} CommitsKeepTexts(e: Texts, track: nat, g: nat, dialogues: seq<SnapshotDialogue>,
                                            result: map<nat, string>, n: nat)
    requires TextsInv(e) && n <= |dialogues|
    requires forall d :: d in dialogues ==> d.dialogue in e.sources && e.sources[d.dialogue].selected == d.source
    ensures var f := CommitUpTo(e, track, g, dialogues, result, n);
            TextsInv(f) && f.sources == e.sources && f.sourceLog == e.sourceLog
  {
    if n > 0 {
      CommitsKeepTexts(e, track, g, dialogues, result, n - 1);
      assert dialogues[n - 1] in dialogues;
      CommitKeepsTexts(CommitUpTo(e, track, g, dialogues, result, n - 1), track, g, dialogues[n - 1],
                       ResultText(result, dialogues[n - 1].dialogue));
    }
  }

  /** The revisions written for dialogues `0` to `n - 1`. */
  function NewRevisions(track: nat, g: nat, dialogues: seq<SnapshotDialogue>, result: map<nat, string>,
                        n: nat): (r: seq<TargetRevision>)
    requires n <= |dialogues|
    ensures |r| == n && forall i :: 0 <= i < n ==> r[i].generation == Some(g)
  {
    if n == 0 then []
    else
      var d := dialogues[n - 1];
      NewRevisions(track, g, dialogues, result, n - 1)
      + [TargetRevision(Key(track, d.dialogue), ResultText(result, d.dialogue), d.source, Some(g))]
  }

  lemma Regroup<T>(a: seq<T>, b: seq<T>, c: seq<T>)
    ensures a + b + c == a + (b + c)
  {
  }

  lemma {:induction false} CommitsLog(e: Texts, track: nat, g: nat, dialogues: seq<SnapshotDialogue>,
                                      result: map<nat, string>, n: nat)
    requires n <= |dialogues|
    ensures CommitUpTo(e, track, g, dialogues, result, n).targetLog == e.targetLog
      + NewRevisions(track, g, dialogues, result, n)
  {
    if n > 0 {
      var d := dialogues[n - 1];
      CommitsLog(e, track, g, dialogues, result, n - 1);
      Regroup(e.targetLog, NewRevisions(track, g, dialogues, result, n - 1),
              [TargetRevision(Key(track, d.dialogue), ResultText(result, d.dialogue), d.source, Some(g))]);
    }
  }

  lemma DuePrefix(snapshot: Snapshot, n: nat)
    requires 0 < n <= |snapshot.dialogues|
    ensures var d := snapshot.dialogues[n - 1];
            Due(snapshot)[..n] == Due(snapshot)[..n - 1] + [Pair(Key(snapshot.track, d.dialogue), d.source)]
  {
  }

  lemma {:induction false} CommittedConcat(log: seq<TargetRevision>, more: seq<TargetRevision>, g: nat)
    ensures Committed(log + more, g) == Committed(log, g) + Committed(more, g)
    decreases |more|
  {
    if more == [] {
      assert log + more == log;
    } else {
      var front, last := more[..|more| - 1], more[|more| - 1];
      assert more == front + [last];
      Regroup(log, front, [last]);
      CommittedConcat(log, front, g);
      CommittedOne(log + front, last, g);
      CommittedOne(front, last, g);
      Regroup(Committed(log, g), Committed(front, g), PairOf(last, g));
    }
  }

  lemma NextCommitted(snapshot: Snapshot, g: nat, result: map<nat, string>, n: nat, h: nat)
    requires 0 < n <= |snapshot.dialogues|
    ensures var d := snapshot.dialogues[n - 1];
            Committed(NewRevisions(snapshot.track, g, snapshot.dialogues, result, n), h)
            == Committed(NewRevisions(snapshot.track, g, snapshot.dialogues, result, n - 1), h)
               + if h == g then [Pair(Key(snapshot.track, d.dialogue), d.source)] else []
  {
    var d := snapshot.dialogues[n - 1];
    CommittedOne(NewRevisions(snapshot.track, g, snapshot.dialogues, result, n - 1),
                 TargetRevision(Key(snapshot.track, d.dialogue), ResultText(result, d.dialogue), d.source, Some(g)), h);
  }

  /** What generation `h` is due of the first `n` dialogues that generation `g` commits. */
  function DueOf(snapshot: Snapshot, n: nat, g: nat, h: nat): seq<Pair>
    requires n <= |snapshot.dialogues|
  {
    if h == g then Due(snapshot)[..n] else []
  }

  lemma NextDue(snapshot: Snapshot, n: nat, g: nat, h: nat)
    requires 0 < n <= |snapshot.dialogues|
    ensures var d := snapshot.dialogues[n - 1];
            DueOf(snapshot, n, g, h)
            == DueOf(snapshot, n - 1, g, h) + if h == g then [Pair(Key(snapshot.track, d.dialogue), d.source)] else []
  {
    DuePrefix(snapshot, n);
  }

  lemma {:induction false} NewRevisionsDue(snapshot: Snapshot, g: nat, result: map<nat, string>, n: nat, h: nat)
    requires n <= |snapshot.dialogues|
    ensures Committed(NewRevisions(snapshot.track, g, snapshot.dialogues, result, n), h) == DueOf(snapshot, n, g, h)
  {
    if n > 0 {
      NewRevisionsDue(snapshot, g, result, n - 1, h);
      NextCommitted(snapshot, g, result, n, h);
      NextDue(snapshot, n, g, h);
    }
  }

  lemma NewCommitted(snapshot: Snapshot, g: nat, result: map<nat, string>, h: nat)
    ensures Committed(NewRevisions(snapshot.track, g, snapshot.dialogues, result, |snapshot.dialogues|), h)
         == if h == g then Due(snapshot) else []
  {
    NewRevisionsDue(snapshot, g, result, |snapshot.dialogues|, h);
    assert Due(snapshot)[..|snapshot.dialogues|] == Due(snapshot);
  }

  lemma ExtendedBy(a: seq<Pair>, b: seq<Pair>)
    ensures (a == [] ==> a + b == b) && (b == [] ==> a + b == a)
  {
  }

  lemma AllCommitted(e: Texts, snapshot: Snapshot, g: nat, result: map<nat, string>, h: nat)
    requires h == g ==> Committed(e.targetLog, g) == []
    ensures Committed(CommitUpTo(e, snapshot.track, g, snapshot.dialogues, result, |snapshot.dialogues|).targetLog, h)
         == if h == g then Due(snapshot) else Committed(e.targetLog, h)
  {
    var more := NewRevisions(snapshot.track, g, snapshot.dialogues, result, |snapshot.dialogues|);
    CommitsLog(e, snapshot.track, g, snapshot.dialogues, result, |snapshot.dialogues|);
    CommittedConcat(e.targetLog, more, h);
    NewCommitted(snapshot, g, result, h);
    ExtendedBy(Committed(e.targetLog, h), Committed(more, h));
  }

  lemma CompleteKeepsGeneration(s: State, g: nat, token: nat, execution: nat, now: int, result: map<nat, string>,
                                h: nat)
    requires Inv(s) && Committable(s, g, token, execution, now, result) && h < |s.queue.generations|
    ensures GenerationOk(AfterComplete(s, g, token, execution, now, result), h)
  {
    assert GenerationOk(s, h) && GenerationOk(s, g);
    AllCommitted(s.texts, s.queue.generations[g].snapshot, g, result, h);
  }

  lemma CompleteKeepsLog(s: State, g: nat, token: nat, execution: nat, now: int, result: map<nat, string>, i: nat)
    requires Inv(s) && Committable(s, g, token, execution, now, result)
    requires i < |AfterComplete(s, g, token, execution, now, result).texts.targetLog|
    ensures GenerationKnown(AfterComplete(s, g, token, execution, now, result), i)
  {
    var snapshot := s.queue.generations[g].snapshot;
    var t := AfterComplete(s, g, token, execution, now, result);
    CommitsLog(s.texts, snapshot.track, g, snapshot.dialogues, result, |snapshot.dialogues|);
    if i < |s.texts.targetLog| {
      assert GenerationKnown(s, i);
    } else {
      assert t.texts.targetLog[i] == NewRevisions(snapshot.track, g, snapshot.dialogues, result,
                                                  |snapshot.dialogues|)[i - |s.texts.targetLog|];
    }
  }

  lemma InvComplete(s: State, g: nat, token: nat, execution: nat, now: int, result: map<nat, string>)
    requires Inv(s)
    ensures Inv(AfterComplete(s, g, token, execution, now, result))
  {
    if Committable(s, g, token, execution, now, result) {
      var t := AfterComplete(s, g, token, execution, now, result);
      var snapshot := s.queue.generations[g].snapshot;
      CommitsKeepTexts(s.texts, snapshot.track, g, snapshot.dialogues, result, |snapshot.dialogues|);
      InvSuccess(s.queue, g);
      forall h | 0 <= h < |t.queue.generations| ensures GenerationOk(t, h) {
        CompleteKeepsGeneration(s, g, token, execution, now, result, h);
      }
      forall i | 0 <= i < |t.texts.targetLog| ensures GenerationKnown(t, i) {
        CompleteKeepsLog(s, g, token, execution, now, result, i);
      }
    }
  }

  lemma {:induction false} CommitsDeliver(e: Texts, track: nat, g: nat, dialogues: seq<SnapshotDialogue>,
                                          result: map<nat, string>, n: nat, j: nat)
    requires j < n <= |dialogues| && DistinctDialogues(dialogues)
    ensures var f, d := CommitUpTo(e, track, g, dialogues, result, n), dialogues[j];
            && SelectionOf(f, Key(track, d.dialogue)).Some?
            && SelectionOf(f, Key(track, d.dialogue)).value.state == Draft
            && SelectionOf(f, Key(track, d.dialogue)).value.selected == |e.targetLog| + j
  {
    CommitsLog(e, track, g, dialogues, result, n - 1);
    if j < n - 1 {
      CommitsDeliver(e, track, g, dialogues, result, n - 1, j);
      assert Key(track, dialogues[n - 1].dialogue) != Key(track, dialogues[j].dialogue);
    }
  }

  lemma {:induction false} NewRevisionAt(track: nat, g: nat, dialogues: seq<SnapshotDialogue>,
                                         result: map<nat, string>, n: nat, j: nat)
    requires j < n <= |dialogues|
    ensures NewRevisions(track, g, dialogues, result, n)[j]
         == TargetRevision(Key(track, dialogues[j].dialogue), ResultText(result, dialogues[j].dialogue),
                           dialogues[j].source, Some(g))
  {
    if j < n - 1 { NewRevisionAt(track, g, dialogues, result, n - 1, j); }
  }

  /** `key` has this revision selected, as a draft against the active source. */
  ghost predicate Delivered(e: Texts, key: Key, revision: TargetRevision) {
    && SelectionOf(e, key).Some? && SelectionOf(e, key).value.state == Draft && Fresh(e, key, SelectionOf(e, key).value)
    && e.targetLog[SelectionOf(e, key).value.selected] == revision
  }

  lemma TextsDelivered(e: Texts, track: nat, g: nat, dialogues: seq<SnapshotDialogue>, result: map<nat, string>, j: nat)
    requires j < |dialogues| && DistinctDialogues(dialogues) && dialogues[j].dialogue in result
    requires dialogues[j].dialogue in e.sources && e.sources[dialogues[j].dialogue].selected == dialogues[j].source
    ensures var d, key := dialogues[j], Key(track, dialogues[j].dialogue);
            Delivered(CommitUpTo(e, track, g, dialogues, result, |dialogues|), key,
                      TargetRevision(key, result[d.dialogue], d.source, Some(g)))
  {
    CommitsDeliver(e, track, g, dialogues, result, |dialogues|, j);
    CommitsLog(e, track, g, dialogues, result, |dialogues|);
    NewRevisionAt(track, g, dialogues, result, |dialogues|, j);
    CommitsKeepSources(e, track, g, dialogues, result, |dialogues|);
  }

  lemma {:induction false} CommitsKeepSources(e: Texts, track: nat, g: nat, dialogues: seq<SnapshotDialogue>,
                                              result: map<nat, string>, n: nat)
    requires n <= |dialogues|
    ensures CommitUpTo(e, track, g, dialogues, result, n).sources == e.sources
  {
    if n > 0 { CommitsKeepSources(e, track, g, dialogues, result, n - 1); }
  }

  /**
   * After a commit each dialogue of the snapshot has the generated text selected, as a draft against the active
   * source.
   */
  lemma CommitTakesEffect(s: State, g: nat, token: nat, execution: nat, now: int, result: map<nat, string>,
                          d: SnapshotDialogue)
    requires Inv(s) && Committable(s, g, token, execution, now, result)
      && d in s.queue.generations[g].snapshot.dialogues
    ensures var key := Key(s.queue.generations[g].snapshot.track, d.dialogue);
            Delivered(AfterComplete(s, g, token, execution, now, result).texts, key,
                      TargetRevision(key, result[d.dialogue], d.source, Some(g)))
  {
    var snapshot := s.queue.generations[g].snapshot;
    var j :| 0 <= j < |snapshot.dialogues| && snapshot.dialogues[j] == d;
    assert GenerationOk(s, g);
    TextsDelivered(s.texts, snapshot.track, g, snapshot.dialogues, result, j);
  }

  lemma InvContext(s: State, context: Context)
    requires Inv(s) && context.scenes == s.context.scenes
    ensures Inv(s.(context := context))
  {
    var t := s.(context := context);
    forall g | 0 <= g < |t.queue.generations| ensures GenerationOk(t, g) { assert GenerationOk(s, g); }
    forall i | 0 <= i < |t.texts.targetLog| ensures GenerationKnown(t, i) { assert GenerationKnown(s, i); }
  }

  lemma InvStep(s: State, step: Step)
    requires Inv(s)
    ensures Inv(Apply(s, step))
  {
    match step
    case Editing(edit) => InvEditing(s, edit);
    case Working(work) => InvWorking(s, work);
    case SelectScene(scene, revision) =>
      InvContext(s, s.context.(sceneSelected := s.context.sceneSelected[scene := revision]));
    case SelectGlossary(track, revisions) =>
      InvContext(s, s.context.(glossary := s.context.glossary[track := revisions]));
    case Request(track, scene, maxAttempts, now) => InvRequested(s, track, scene, maxAttempts, now);
    case Complete(g, token, execution, now, result) => InvComplete(s, g, token, execution, now, result);
  }

  lemma {:induction false} InvRun(s: State, steps: seq<Step>)
    requires Inv(s)
    ensures Inv(Run(s, steps))
    decreases |steps|
  {
    if steps != [] {
      InvRun(s, steps[..|steps| - 1]);
      InvStep(Run(s, steps[..|steps| - 1]), steps[|steps| - 1]);
    }
  }

  /** A workspace as localization finds it: source revisions selected, nothing translated or requested. */
  lemma InvInitial(s: State)
    requires forall dialogue :: dialogue in s.texts.sources ==> SourceOk(s.texts, dialogue)
    requires s.texts.targetLog == [] && s.texts.translations == map[] && s.queue.generations == []
      && s.queue.events == []
    requires forall scene :: scene in s.context.scenes ==> Distinct(s.context.scenes[scene])
    ensures Inv(s)
  {
  }

  // ---- Exactly once ----

  lemma RunThen(s: State, steps: seq<Step>, step: Step)
    ensures Run(s, steps + [step]) == Apply(Run(s, steps), step)
  {
    assert (steps + [step])[..|steps|] == steps;
  }

  lemma {:induction false} RunConcat(s: State, a: seq<Step>, b: seq<Step>)
    ensures Run(s, a + b) == Run(Run(s, a), b)
    decreases |b|
  {
    if b == [] {
      assert a + b == a;
    } else {
      RunConcat(s, a, b[..|b| - 1]);
      RunThen(s, a + b[..|b| - 1], b[|b| - 1]);
      assert a + b == a + b[..|b| - 1] + [b[|b| - 1]];
    }
  }

  /** How one step may move a generation's row. */
  lemma StepMovesRow(s: State, step: Step, g: nat)
    requires Inv(s) && g < |s.queue.generations|
    ensures var t := Apply(s, step);
            && g < |t.queue.generations| && RowStep(s.queue.generations[g], t.queue.generations[g])
            && (t.queue.generations[g].status == Succeeded && s.queue.generations[g].status != Succeeded ==>
                  step.Complete? && step.g == g && Committable(s, g, step.token, step.execution, step.now, step.result))
            && (step.Complete? && step.g == g && Committable(s, g, step.token, step.execution, step.now, step.result)
                ==> s.queue.generations[g].status == Running && t.queue.generations[g].status == Succeeded)
  {
    if step.Working? { WorkMovesRow(s.queue, step.work, g); }
  }

  /** A generation that ended stays as it is, and commits nothing more. */
  lemma {:induction false} EndedIsFinal(s: State, steps: seq<Step>, g: nat)
    requires Inv(s) && g < |s.queue.generations| && Ended(s.queue.generations[g].status)
    ensures var t := Run(s, steps);
            && g < |t.queue.generations| && t.queue.generations[g] == s.queue.generations[g]
            && Committed(t.texts.targetLog, g) == Committed(s.texts.targetLog, g)
    decreases |steps|
  {
    InvRun(s, steps);
    if steps != [] {
      var before := steps[..|steps| - 1];
      EndedIsFinal(s, before, g);
      InvRun(s, before);
      StepMovesRow(Run(s, before), steps[|steps| - 1], g);
      assert GenerationOk(Run(s, steps), g) && GenerationOk(Run(s, before), g);
    }
  }

  /**
   * In every reachable state a generation has committed exactly one revision per dialogue of its snapshot, in
   * order and against the source it saw, if it succeeded, and none otherwise; so it has committed any exactly if
   * it succeeded.
   */
  lemma ExactlyOnce(s: State, steps: seq<Step>, g: nat)
    requires Inv(s) && g < |Run(s, steps).queue.generations|
    ensures var t := Run(s, steps);
            && Committed(t.texts.targetLog, g)
               == (if t.queue.generations[g].status == Succeeded then Due(t.queue.generations[g].snapshot) else [])
            && DistinctDialogues(t.queue.generations[g].snapshot.dialogues)
            && (Committed(t.texts.targetLog, g) != [] <==> t.queue.generations[g].status == Succeeded)
  {
    InvRun(s, steps);
    assert GenerationOk(Run(s, steps), g);
  }

  /** Which commits of a generation took effect. */
  function Commits(s: State, steps: seq<Step>, g: nat): nat
    decreases |steps|
  {
    if steps == [] then 0
    else
      var before, last := steps[..|steps| - 1], steps[|steps| - 1];
      Commits(s, before, g)
      + if last.Complete? && last.g == g
        && Committable(Run(s, before), g, last.token, last.execution, last.now, last.result) then 1 else 0
  }

  /** However many workers finish a generation, at most one commit takes effect, and only if it then succeeded. */
  lemma {:induction false} AtMostOneCommit(s: State, steps: seq<Step>, g: nat)
    requires Inv(s) && g < |s.queue.generations|
    ensures g < |Run(s, steps).queue.generations|
    ensures Commits(s, steps, g) ==
      if Run(s, steps).queue.generations[g].status == Succeeded && s.queue.generations[g].status != Succeeded then 1
      else 0
    decreases |steps|
  {
    if steps != [] {
      var before := steps[..|steps| - 1];
      AtMostOneCommit(s, before, g);
      InvRun(s, before);
      StepMovesRow(Run(s, before), steps[|steps| - 1], g);
      if s.queue.generations[g].status == Succeeded { EndedIsFinal(s, before, g); }
    }
  }

  // ---- Leases ----

  ghost predicate ActsUnder(step: Step, g: nat, token: nat) {
    || (step.Complete? && step.g == g && step.token == token)
    || (step.Working? && (step.work.Fail? || step.work.Heartbeat?) && step.work.g == g && step.work.token == token)
  }

  lemma SupersededStep(s: State, step: Step, g: nat, token: nat)
    requires Inv(s) && Superseded(s.queue, g, token)
    ensures Superseded(Apply(s, step).queue, g, token)
    ensures ActsUnder(step, g, token) ==> Apply(s, step) == s
  {
    if step.Working? { SupersededStays(s.queue, step.work, g, token); }
  }

  /** A worker whose lease was given up or taken over changes nothing: not by committing, failing or beating. */
  lemma {:induction false} SupersededIsInert(s: State, steps: seq<Step>, g: nat, token: nat, late: Step)
    requires Inv(s) && Superseded(s.queue, g, token) && ActsUnder(late, g, token)
    ensures Superseded(Run(s, steps).queue, g, token) && Apply(Run(s, steps), late) == Run(s, steps)
    decreases |steps|
  {
    InvRun(s, steps);
    if steps != [] {
      var before := steps[..|steps| - 1];
      InvRun(s, before);
      SupersededIsInert(s, before, g, token, late);
      SupersededStep(Run(s, before), steps[|steps| - 1], g, token);
    }
    SupersededStep(Run(s, steps), late, g, token);
  }

  /** A claim of generation `g` that gives out a lease. */
  function ExecutionOf(s: State, step: Step, g: nat): nat {
    if step.Working? && step.work.Claim? && step.work.g == g && Waiting(s.queue, g) then 1 else 0
  }

  function AttemptsOf(s: State, g: nat): nat {
    if g < |s.queue.generations| then s.queue.generations[g].attemptCount else 0
  }

  function Executions(s: State, steps: seq<Step>, g: nat): nat
    decreases |steps|
  {
    if steps == [] then 0
    else
      var before, last := steps[..|steps| - 1], steps[|steps| - 1];
      Executions(s, before, g) + ExecutionOf(Run(s, before), last, g)
  }

  lemma ExecutionStep(s: State, step: Step, g: nat)
    requires Inv(s) && g < |s.queue.generations|
    ensures g < |Apply(s, step).queue.generations|
    ensures Apply(s, step).queue.generations[g].maxAttempts == s.queue.generations[g].maxAttempts
    ensures AttemptsOf(Apply(s, step), g) == AttemptsOf(s, g) + ExecutionOf(s, step, g)
  {
    StepMovesRow(s, step, g);
    assert RowOk(s.queue.generations[g], s.queue.nextToken);
  }

  lemma AttemptsWithin(s: State, g: nat)
    requires Inv(s) && g < |s.queue.generations|
    ensures AttemptsOf(s, g) <= s.queue.generations[g].maxAttempts
  {
    assert RowOk(s.queue.generations[g], s.queue.nextToken);
  }

  /** A generation is executed once for each attempt it counts, and never more often than its limit. */
  lemma {:induction false} ExecutionsAreBounded(s: State, steps: seq<Step>, g: nat)
    requires Inv(s) && g < |s.queue.generations|
    ensures g < |Run(s, steps).queue.generations|
    ensures Run(s, steps).queue.generations[g].maxAttempts == s.queue.generations[g].maxAttempts
    ensures Executions(s, steps, g) == AttemptsOf(Run(s, steps), g) - AttemptsOf(s, g)
    ensures AttemptsOf(Run(s, steps), g) <= s.queue.generations[g].maxAttempts
    decreases |steps|
  {
    if steps != [] {
      var before := steps[..|steps| - 1];
      ExecutionsAreBounded(s, before, g);
      InvRun(s, before);
      ExecutionStep(Run(s, before), steps[|steps| - 1], g);
    }
    InvRun(s, steps);
    AttemptsWithin(Run(s, steps), g);
  }

  // ---- Runs are bounded ----

  /** A claim, a failure or a commit of generation `g` that takes effect. */
  predicate Advances(s: State, step: Step, g: nat) {
    match step
    case Working(work) => WorkAdvances(s.queue, work, g)
    case Complete(h, token, execution, now, result) => h == g && Committable(s, g, token, execution, now, result)
    case _ => false
  }

  function Advancing(s: State, steps: seq<Step>, g: nat): nat
    decreases |steps|
  {
    if steps == [] then 0
    else
      var before, last := steps[..|steps| - 1], steps[|steps| - 1];
      Advancing(s, before, g) + if Advances(Run(s, before), last, g) then 1 else 0
  }

  lemma StepUsesSteps(s: State, step: Step, g: nat)
    requires Inv(s) && g < |s.queue.generations|
    ensures g < |Apply(s, step).queue.generations|
    ensures var before, after := s.queue.generations[g], Apply(s, step).queue.generations[g];
            && after.maxAttempts == before.maxAttempts
            && StepsLeft(after) <= StepsLeft(before) - if Advances(s, step, g) then 1 else 0
  {
    StepMovesRow(s, step, g);
    StepsLeftOf(s.queue, g);
    if step.Working? { WorkUsesSteps(s.queue, step.work, g); }
  }

  /** Before its request there is nothing to claim, to fail or to commit. */
  lemma NotYetRequested(s: State, step: Step, g: nat)
    requires Inv(s) && g >= |s.queue.generations|
    ensures !Advances(s, step, g)
    ensures g < |Apply(s, step).queue.generations| ==> Apply(s, step).queue.generations[g].status == Queued
  {
  }

  /** Whatever the schedule, a generation is over after so many steps: a claim and an end for each attempt. */
  lemma {:induction false} RunsAreBounded(s: State, steps: seq<Step>, g: nat)
    requires Inv(s)
    ensures g < |s.queue.generations| ==> g < |Run(s, steps).queue.generations|
    ensures g < |Run(s, steps).queue.generations| ==>
              var row := Run(s, steps).queue.generations[g];
              && 0 <= StepsLeft(row)
              && Advancing(s, steps, g) + StepsLeft(row) <= 2 * row.maxAttempts
              && (g < |s.queue.generations| ==>
                Advancing(s, steps, g) + StepsLeft(row) <= StepsLeft(s.queue.generations[g]))
    ensures g >= |Run(s, steps).queue.generations| ==> Advancing(s, steps, g) == 0
    decreases |steps|
  {
    InvRun(s, steps);
    if g < |Run(s, steps).queue.generations| { StepsLeftOf(Run(s, steps).queue, g); }
    if steps != [] {
      var before, last := steps[..|steps| - 1], steps[|steps| - 1];
      RunsAreBounded(s, before, g);
      InvRun(s, before);
      if g < |Run(s, before).queue.generations| {
        StepUsesSteps(Run(s, before), last, g);
      } else {
        NotYetRequested(Run(s, before), last, g);
      }
    }
  }

  /** Workers of generation `g` that all stall, `rounds` steps of them, a moment apart. */
  function Stalling(q: Queue, g: nat, now: int, rounds: nat): (steps: seq<Step>)
    ensures |steps| == rounds
  {
    if rounds == 0 then []
    else Stalling(q, g, now, rounds - 1) + [Working(Stall(StalledQueue(q, g, now, rounds - 1), g, now + rounds - 1))]
  }

  lemma WorkingThen(s: State, steps: seq<Step>, work: Work, g: nat)
    ensures Run(s, steps + [Working(work)]).queue == AfterWork(Run(s, steps).queue, work)
    ensures Advancing(s, steps + [Working(work)], g)
         == Advancing(s, steps, g) + if WorkAdvances(Run(s, steps).queue, work, g) then 1 else 0
  {
    assert (steps + [Working(work)])[..|steps|] == steps;
  }

  lemma {:induction false} StallingRuns(s: State, g: nat, now: int, left: int, rounds: nat)
    requires QueueInv(s.queue) && StalledFor(s.queue, g, now, left, 0) && rounds <= left
    ensures Run(s, Stalling(s.queue, g, now, rounds)).queue == StalledQueue(s.queue, g, now, rounds)
    ensures Advancing(s, Stalling(s.queue, g, now, rounds), g) == rounds
  {
    if rounds > 0 {
      StallingRuns(s, g, now, left, rounds - 1);
      StalledQueueStalls(s.queue, g, now, left, rounds - 1);
      var q := StalledQueue(s.queue, g, now, rounds - 1);
      StallsOn(q, g, now, left, rounds - 1);
      WorkingThen(s, Stalling(s.queue, g, now, rounds - 1), Stall(q, g, now + rounds - 1), g);
    }
  }

  /**
   * The bounds are reached: from any state, workers that always stall drive an unfinished generation to FAILED with
   * every attempt that was left.
   */
  lemma StalledWorkersFailTheGeneration(s: State, g: nat, now: int)
    requires Inv(s) && Stalled(s.queue, g, now) && !Ended(s.queue.generations[g].status)
    ensures StepsLeft(s.queue.generations[g]) >= 0
    ensures var row := s.queue.generations[g]; var steps := Stalling(s.queue, g, now, StepsLeft(row));
            && g < |Run(s, steps).queue.generations| && Run(s, steps).queue.generations[g].status == Failed
            && Run(s, steps).queue.generations[g].attemptCount == row.maxAttempts
            && Advancing(s, steps, g) == StepsLeft(row)
            && Executions(s, steps, g) == row.maxAttempts - row.attemptCount
  {
    StepsLeftOf(s.queue, g);
    var left := StepsLeft(s.queue.generations[g]);
    StallingRuns(s, g, now, left, left);
    StalledQueueStalls(s.queue, g, now, left, left);
    StepsLeftOf(StalledQueue(s.queue, g, now, left), g);
    ExecutionsAreBounded(s, Stalling(s.queue, g, now, left), g);
  }

  function DelayOf(s: State, step: Step, g: nat): int {
    if step.Working? && g < |s.queue.generations| then StepDelay(s.queue, step.work, g) else 0
  }

  function RetriesOf(s: State, g: nat): nat {
    if g < |s.queue.generations| then RetryCount(s.queue.generations[g]) else 0
  }

  /** Only workers schedule retries. */
  lemma RetriesKept(s: State, step: Step, g: nat)
    requires Inv(s) && g < |s.queue.generations| && !step.Working?
    ensures g < |Apply(s, step).queue.generations| && RetriesOf(Apply(s, step), g) == RetriesOf(s, g)
  {
    StepMovesRow(s, step, g);
  }

  lemma DelayOfStep(s: State, step: Step, g: nat)
    requires Inv(s) && g < |s.queue.generations|
    ensures g < |Apply(s, step).queue.generations|
    ensures DelayOf(s, step, g) == 5000 * Power(RetriesOf(Apply(s, step), g)) - 5000 * Power(RetriesOf(s, g))
  {
    if step.Working? {
      DelayStep(s.queue, step.work, g);
    } else {
      RetriesKept(s, step, g);
    }
  }

  /** The delays scheduled before retries of generation `g`, added up. */
  function ScheduledBackoff(s: State, steps: seq<Step>, g: nat): int
    decreases |steps|
  {
    if steps == [] then 0
    else
      var before, last := steps[..|steps| - 1], steps[|steps| - 1];
      ScheduledBackoff(s, before, g) + DelayOf(Run(s, before), last, g)
  }

  /** Delays double: n retries wait 5000 * (2^n - 1) milliseconds in all. */
  lemma {:induction false} BackoffTotal(s: State, steps: seq<Step>, g: nat)
    requires Inv(s) && g < |s.queue.generations|
    ensures g < |Run(s, steps).queue.generations|
    ensures ScheduledBackoff(s, steps, g) == 5000 * Power(RetriesOf(Run(s, steps), g)) - 5000 * Power(RetriesOf(s, g))
    decreases |steps|
  {
    if steps != [] {
      var before := steps[..|steps| - 1];
      BackoffTotal(s, before, g);
      InvRun(s, before);
      DelayOfStep(Run(s, before), steps[|steps| - 1], g);
    }
  }

  lemma QueueInvRun(s: State, steps: seq<Step>)
    requires Inv(s)
    ensures QueueInv(Run(s, steps).queue)
  {
    InvRun(s, steps);
  }

  /** An attempt is no retry if it is the first. */
  function RetryLimit(row: Generation): nat {
    if row.maxAttempts == 0 then 0 else row.maxAttempts - 1
  }

  lemma RetriesAreBounded(s: State, steps: seq<Step>, g: nat)
    requires Inv(s) && g < |s.queue.generations|
    ensures 1 <= s.queue.generations[g].maxAttempts
    ensures RetriesOf(Run(s, steps), g) <= RetryLimit(s.queue.generations[g])
  {
    assert RowOk(s.queue.generations[g], s.queue.nextToken);
    ExecutionsAreBounded(s, steps, g);
    QueueInvRun(s, steps);
    assert RowOk(Run(s, steps).queue.generations[g], Run(s, steps).queue.nextToken);
  }

  lemma BackoffUpTo(s: State, steps: seq<Step>, g: nat, limit: nat)
    requires Inv(s) && g < |s.queue.generations| && s.queue.generations[g].attemptCount == 0
    requires RetriesOf(Run(s, steps), g) <= limit
    ensures ScheduledBackoff(s, steps, g) <= 5000 * (Power(limit) - 1)
  {
    BackoffTotal(s, steps, g);
    DelaysBelow(ScheduledBackoff(s, steps, g), RetriesOf(Run(s, steps), g), limit);
  }

  lemma BackoffIsBounded(s: State, steps: seq<Step>, g: nat)
    requires Inv(s) && g < |s.queue.generations| && s.queue.generations[g].attemptCount == 0
    ensures s.queue.generations[g].maxAttempts == RetryLimit(s.queue.generations[g]) + 1
    ensures ScheduledBackoff(s, steps, g) <= 5000 * (Power(RetryLimit(s.queue.generations[g])) - 1)
  {
    RetriesAreBounded(s, steps, g);
    BackoffUpTo(s, steps, g, RetryLimit(s.queue.generations[g]));
  }

  lemma DelaysBelow(total: int, retries: nat, limit: nat)
    requires total == 5000 * Power(retries) - 5000 * Power(0) && retries <= limit
    ensures total <= 5000 * (Power(limit) - 1)
  {
    PowerGrows(retries, limit);
  }

  // ---- No edit is lost ----

  ghost predicate CommitsTo(track: nat, dialogues: seq<SnapshotDialogue>, n: nat, key: Key)
    requires n <= |dialogues|
  {
    key.track == track && exists j :: 0 <= j < n && dialogues[j].dialogue == key.dialogue
  }

  /** A commit writes each of its dialogues once, and no other translation. */
  lemma {:induction false} CommitsCount(e: Texts, track: nat, g: nat, dialogues: seq<SnapshotDialogue>,
                                        result: map<nat, string>, n: nat, key: Key)
    requires n <= |dialogues| && DistinctDialogues(dialogues)
    ensures var f := CommitUpTo(e, track, g, dialogues, result, n);
            && f.sources == e.sources
            && (key in e.translations ==> key in f.translations && f.translations[key].id == e.translations[key].id)
            && if CommitsTo(track, dialogues, n, key)
               then Counter(SelectionOf(f, key)) == Counter(SelectionOf(e, key)) + 1
               else (key in f.translations <==> key in e.translations)
                    && (key in e.translations ==> f.translations[key] == e.translations[key])
  {
    if n > 0 {
      CommitsCount(e, track, g, dialogues, result, n - 1, key);
      if key == Key(track, dialogues[n - 1].dialogue) {
        assert !CommitsTo(track, dialogues, n - 1, key);
        assert CommitsTo(track, dialogues, n, key);
      } else {
        assert CommitsTo(track, dialogues, n, key) <==> CommitsTo(track, dialogues, n - 1, key);
      }
    }
  }

  lemma CompleteCounts(s: State, g: nat, token: nat, execution: nat, now: int, result: map<nat, string>, key: Key)
    requires Inv(s)
    ensures CountedByOne(s.texts, AfterComplete(s, g, token, execution, now, result).texts, key)
  {
    if Committable(s, g, token, execution, now, result) {
      var snapshot := s.queue.generations[g].snapshot;
      assert GenerationOk(s, g);
      CommitsCount(s.texts, snapshot.track, g, snapshot.dialogues, result, |snapshot.dialogues|, key);
    }
  }

  /**
   * Whatever the step, a translation's counter rises by exactly one when its selection changes, and stays otherwise.
   */
  lemma StepCounts(s: State, step: Step, key: Key)
    requires Inv(s)
    ensures CountedByOne(s.texts, Apply(s, step).texts, key)
  {
    match step
    case Editing(edit) => EditCounts(s.texts, edit, key);
    case Complete(g, token, execution, now, result) => CompleteCounts(s, g, token, execution, now, result, key);
    case _ => assert Apply(s, step).texts == s.texts;
  }

  lemma {:induction false} RunCounts(s: State, steps: seq<Step>, key: Key)
    requires Inv(s)
    ensures Counted(s.texts, Run(s, steps).texts, key)
    decreases |steps|
  {
    if steps != [] {
      var before := steps[..|steps| - 1];
      RunCounts(s, before, key);
      InvRun(s, before);
      StepCounts(Run(s, before), steps[|steps| - 1], key);
      CountedTransitive(s.texts, Run(s, before).texts, Run(s, steps).texts, key);
    }
  }

  lemma {:induction false} SnapshotKept(s: State, steps: seq<Step>, g: nat)
    requires Inv(s) && g < |s.queue.generations|
    ensures g < |Run(s, steps).queue.generations|
    ensures Run(s, steps).queue.generations[g].snapshot == s.queue.generations[g].snapshot
    decreases |steps|
  {
    if steps != [] {
      var before := steps[..|steps| - 1];
      SnapshotKept(s, before, g);
      InvRun(s, before);
      StepMovesRow(Run(s, before), steps[|steps| - 1], g);
    }
  }

  /** A state in which the selection counted at both ends is the one in between. */
  lemma Unchanged(e: Texts, mid: Texts, later: Texts, key: Key)
    requires Counted(e, mid, key) && Counted(mid, later, key)
    requires key in e.translations && key.dialogue in e.sources
      && Counter(SelectionOf(later, key)) == Counter(SelectionOf(e, key))
    ensures key in mid.translations && mid.translations[key] == e.translations[key]
    ensures key.dialogue in mid.sources && mid.sources[key.dialogue] == e.sources[key.dialogue]
  {
  }

  /** The dialogue's entry in the snapshot a request takes. */
  lemma SnapshotEntry(s: State, track: nat, scene: nat, dialogue: nat) returns (d: SnapshotDialogue)
    requires Requestable(s, track, scene) && dialogue in s.context.scenes[scene]
    ensures d in TakeSnapshot(s, track, scene).dialogues && d == Seen(s.texts, track, dialogue)
  {
    var i :| 0 <= i < |s.context.scenes[scene]| && s.context.scenes[scene][i] == dialogue;
    d := TakeSnapshot(s, track, scene).dialogues[i];
  }

  lemma CountsBetween(s: State, steps: seq<Step>, p: nat, key: Key)
    requires Inv(s) && p <= |steps|
    ensures Counted(s.texts, Run(s, steps[..p]).texts, key)
      && Counted(Run(s, steps[..p]).texts, Run(s, steps).texts, key)
  {
    InvRun(s, steps[..p]);
    RunCounts(s, steps[..p], key);
    RunCounts(Run(s, steps[..p]), steps[p..], key);
    assert steps[..p] + steps[p..] == steps;
    RunConcat(s, steps[..p], steps[p..]);
  }

  /** `first` is the state once generation `g` of `scene` has been requested in `s`. */
  ghost predicate RequestedAs(s: State, track: nat, scene: nat, first: State, g: nat) {
    && Inv(s) && Requestable(s, track, scene)
    && (exists maxAttempts, start :: maxAttempts >= 1 && first == Apply(s, Request(track, scene, maxAttempts, start)))
    && g == |s.queue.generations|
  }

  /** Generation `g`, requested in `s`, commits after `steps`. */
  ghost predicate CommitsAfter(s: State, track: nat, scene: nat, first: State, steps: seq<Step>, g: nat) {
    && RequestedAs(s, track, scene, first, g)
    && (exists token, execution, now, result :: Committable(Run(first, steps), g, token, execution, now, result))
  }

  lemma RequestTakesSnapshot(s: State, track: nat, scene: nat, first: State, g: nat)
    requires RequestedAs(s, track, scene, first, g)
    ensures Inv(first) && first.texts == s.texts && first.context == s.context
    ensures g < |first.queue.generations| && first.queue.generations[g].snapshot == TakeSnapshot(s, track, scene)
  {
    var maxAttempts, start :| maxAttempts >= 1 && first == Apply(s, Request(track, scene, maxAttempts, start));
    InvRequested(s, track, scene, maxAttempts, start);
  }

  /** What the commit found: the scene, the sources, the glossary and every translation of the snapshot. */
  lemma CommitFinds(s: State, track: nat, scene: nat, first: State, steps: seq<Step>, g: nat)
    requires CommitsAfter(s, track, scene, first, steps, g)
    ensures var later := Run(first, steps);
            && SelectionsCurrent(later, TakeSnapshot(s, track, scene))
            && forall d :: d in TakeSnapshot(s, track, scene).dialogues ==> TargetCurrent(later.texts, track, d)
  {
    RequestTakesSnapshot(s, track, scene, first, g);
    SnapshotKept(first, steps, g);
  }

  /** From `e` to `mid` nobody wrote the translation's selection or its source selection, or created the translation. */
  ghost predicate Untouched(e: Texts, mid: Texts, key: Key) {
    if key in e.translations then
      && key in mid.translations && mid.translations[key] == e.translations[key]
      && key.dialogue in e.sources && key.dialogue in mid.sources
         && mid.sources[key.dialogue] == e.sources[key.dialogue]
    else key !in mid.translations
  }

  lemma NoEditBetween(first: State, steps: seq<Step>, p: nat, key: Key)
    requires Inv(first) && p <= |steps| && key.dialogue in first.texts.sources
    requires TargetCurrent(Run(first, steps).texts, key.track, Seen(first.texts, key.track, key.dialogue))
    ensures Untouched(first.texts, Run(first, steps[..p]).texts, key)
  {
    CountsBetween(first, steps, p, key);
    if key in first.texts.translations {
      assert TranslationOk(first.texts, key);
      Unchanged(first.texts, Run(first, steps[..p]).texts, Run(first, steps).texts, key);
    }
  }

  /**
   * A commit takes effect only if, for each dialogue that had a translation when the generation was requested,
   * nobody wrote its selection or its source selection in between, and each other dialogue still had none.
   */
  lemma NoEditIsLost(s: State, track: nat, scene: nat, first: State, steps: seq<Step>, g: nat, p: nat, dialogue: nat)
    requires CommitsAfter(s, track, scene, first, steps, g) && p <= |steps| && dialogue in s.context.scenes[scene]
    ensures Untouched(s.texts, Run(first, steps[..p]).texts, Key(track, dialogue))
  {
    RequestTakesSnapshot(s, track, scene, first, g);
    CommitFinds(s, track, scene, first, steps, g);
    var d := SnapshotEntry(s, track, scene, dialogue);
    assert TargetCurrent(Run(first, steps).texts, track, d);
    NoEditBetween(first, steps, p, Key(track, dialogue));
  }

  lemma {:induction false} NatOrder()
    ensures TotalPreorder(NatLe)
  {
  }

  /**
   * A commit takes effect only while the scene, the sources and the glossary are those the generation was requested
   * with.
   */
  lemma CommitSeesRequest(s: State, track: nat, scene: nat, first: State, steps: seq<Step>, g: nat)
    requires CommitsAfter(s, track, scene, first, steps, g)
    ensures var later := Run(first, steps);
            && scene in later.context.sceneSelected
               && later.context.sceneSelected[scene] == s.context.sceneSelected[scene]
            && (forall d :: d in s.context.scenes[scene] ==>
                  d in later.texts.sources && later.texts.sources[d].selected == s.texts.sources[d].selected)
            && multiset(GlossaryOf(later.context, track)) == multiset(GlossaryOf(s.context, track))
  {
    var later := Run(first, steps);
    CommitFinds(s, track, scene, first, steps, g);
    forall dialogue | dialogue in s.context.scenes[scene]
      ensures dialogue in later.texts.sources
        && later.texts.sources[dialogue].selected == s.texts.sources[dialogue].selected
    {
      var d := SnapshotEntry(s, track, scene, dialogue);
    }
    SortedListsCompareContents(GlossaryOf(later.context, track), GlossaryOf(s.context, track));
  }

  /** Scene, sources, glossary and translations of a request are as they were, or as absent. */
  ghost predicate AsRequested(s: State, later: State, track: nat, scene: nat)
    requires Requestable(s, track, scene)
  {
    && scene in later.context.sceneSelected
    && later.context.sceneSelected[scene] == s.context.sceneSelected[scene]
    && multiset(GlossaryOf(later.context, track)) == multiset(GlossaryOf(s.context, track))
    && forall d :: d in s.context.scenes[scene] ==> DialogueAsRequested(s.texts, later.texts, track, d)
  }

  ghost predicate DialogueAsRequested(e: Texts, f: Texts, track: nat, dialogue: nat)
    requires dialogue in e.sources
  {
    var key := Key(track, dialogue);
    && dialogue in f.sources && f.sources[dialogue].selected == e.sources[dialogue].selected
    && if key in e.translations then key in f.translations && f.translations[key] == e.translations[key]
       else key !in f.translations
  }

  /** Of a request whose scene, texts and glossary are as they were, every comparison with the snapshot succeeds. */
  lemma SnapshotIsCurrent(s: State, later: State, track: nat, scene: nat)
    requires Inv(s) && Requestable(s, track, scene) && AsRequested(s, later, track, scene)
    ensures SelectionsCurrent(later, TakeSnapshot(s, track, scene))
    ensures forall d :: d in TakeSnapshot(s, track, scene).dialogues ==> TargetCurrent(later.texts, track, d)
  {
    SortedListsCompareContents(GlossaryOf(later.context, track), GlossaryOf(s.context, track));
    var dialogues := s.context.scenes[scene];
    forall d | d in TakeSnapshot(s, track, scene).dialogues
      ensures d.dialogue in later.texts.sources && later.texts.sources[d.dialogue].selected == d.source
      ensures TargetCurrent(later.texts, track, d)
    {
      var i :| 0 <= i < |dialogues| && d == Seen(s.texts, track, dialogues[i]);
      assert dialogues[i] in dialogues;
      assert DialogueAsRequested(s.texts, later.texts, track, dialogues[i]);
      if Key(track, dialogues[i]) in s.texts.translations { assert TranslationOk(s.texts, Key(track, dialogues[i])); }
    }
  }

  lemma CommitFindsAll(s: State, track: nat, scene: nat, first: State, steps: seq<Step>, g: nat)
    requires CommitsAfter(s, track, scene, first, steps, g)
    ensures AsRequested(s, Run(first, steps), track, scene)
  {
    CommitSeesRequest(s, track, scene, first, steps, g);
    assert steps[..|steps|] == steps;
    forall d | d in s.context.scenes[scene] ensures DialogueAsRequested(s.texts, Run(first, steps).texts, track, d) {
      NoEditIsLost(s, track, scene, first, steps, g, |steps|, d);
    }
  }

  /** The lease a worker needs to commit. */
  ghost predicate HoldsLease(row: Generation, token: nat, execution: nat, now: int) {
    && row.status == Running && row.token == Some(token) && row.execution == Some(execution)
    && row.until.Some? && now < row.until.value
  }

  lemma CommittableExactly(s: State, track: nat, scene: nat, first: State, steps: seq<Step>, g: nat,
                           token: nat, execution: nat, now: int, result: map<nat, string>)
    requires RequestedAs(s, track, scene, first, g)
    ensures g < |Run(first, steps).queue.generations|
    ensures Committable(Run(first, steps), g, token, execution, now, result) <==>
            && HoldsLease(Run(first, steps).queue.generations[g], token, execution, now)
            && AsRequested(s, Run(first, steps), track, scene)
            && forall d :: d in s.context.scenes[scene] ==> d in result
  {
    var later := Run(first, steps);
    RequestTakesSnapshot(s, track, scene, first, g);
    SnapshotKept(first, steps, g);
    if Committable(later, g, token, execution, now, result) {
      CommitFindsAll(s, track, scene, first, steps, g);
      forall dialogue | dialogue in s.context.scenes[scene] ensures dialogue in result {
        var d := SnapshotEntry(s, track, scene, dialogue);
      }
    }
    if AsRequested(s, later, track, scene) {
      SnapshotIsCurrent(s, later, track, scene);
      EntriesOfScene(s, track, scene);
    }
  }

  lemma EntriesOfScene(s: State, track: nat, scene: nat)
    requires Requestable(s, track, scene)
    ensures forall d :: d in TakeSnapshot(s, track, scene).dialogues ==> d.dialogue in s.context.scenes[scene]
  {
  }

  /**
   * A commit goes through exactly if its worker holds the lease, scene, sources, glossary and translations are those
   * of the request, in whatever editorial state they stand, and every dialogue has a result. Otherwise it changes
   * nothing.
   */
  lemma CommitsExactly(s: State, track: nat, scene: nat, first: State, steps: seq<Step>, g: nat,
                       token: nat, execution: nat, now: int, result: map<nat, string>)
    requires RequestedAs(s, track, scene, first, g)
    ensures g < |Run(first, steps).queue.generations|
    ensures var later, t := Run(first, steps), Apply(Run(first, steps), Complete(g, token, execution, now, result));
            if && HoldsLease(later.queue.generations[g], token, execution, now)
               && AsRequested(s, later, track, scene)
               && forall d :: d in s.context.scenes[scene] ==> d in result
            then g < |t.queue.generations| && t.queue.generations[g].status == Succeeded
            else t == later
  {
    CommittableExactly(s, track, scene, first, steps, g, token, execution, now, result);
  }

  /** What a request needs: a selected scene of 1 to 200 dialogues with sources, and at most 200 glossary terms. */
  lemma RequestsExactly(s: State, track: nat, scene: nat, maxAttempts: nat, now: int)
    ensures var t := Apply(s, Request(track, scene, maxAttempts, now));
            if && maxAttempts >= 1 && scene in s.context.sceneSelected && scene in s.context.scenes
               && 1 <= |s.context.scenes[scene]| <= 200
               && (forall d :: d in s.context.scenes[scene] ==> d in s.texts.sources)
               && (track in s.context.glossary ==> |s.context.glossary[track]| <= 200)
            then |t.queue.generations| == |s.queue.generations| + 1 && t == s.(queue := t.queue)
            else t == s
  {
  }

  /** The glossary comparison by sorted lists compares the lists up to order, and nothing less. */
  lemma SortedListsCompareContents(a: seq<nat>, b: seq<nat>)
    ensures Sort(a, NatLe) == Sort(b, NatLe) <==> multiset(a) == multiset(b)
  {
    NatOrder();
    if multiset(a) == multiset(b) { SortForgetsOrder(a, b, NatLe); }
    assert multiset(Sort(a, NatLe)) == multiset(a) && multiset(Sort(b, NatLe)) == multiset(b);
  }

  // ---- Review ----

  /** In every reachable state, what is in review or approved was written against the active source. */
  lemma ReviewIsFresh(s: State, steps: seq<Step>, key: Key)
    requires Inv(s)
    ensures var e := Run(s, steps).texts;
            SelectionOf(e, key).Some? && SelectionOf(e, key).value.state != Draft ==>
              Fresh(e, key, SelectionOf(e, key).value)
  {
    InvRun(s, steps);
    if key in Run(s, steps).texts.translations { assert ReviewOk(Run(s, steps).texts, key); }
  }

  /** Which texts and which state are selected for a key. */
  datatype Standing = Absent | Standing(state: EditorState, target: nat, source: nat)

  function StandingOf(s: State, key: Key): Standing {
    if SelectionOf(s.texts, key).Some? && key.dialogue in s.texts.sources
    then Standing(SelectionOf(s.texts, key).value.state, SelectionOf(s.texts, key).value.selected,
                  s.texts.sources[key.dialogue].selected)
    else Absent
  }

  predicate UnderReview(standing: Standing) {
    standing.Standing? && standing.state != Draft
  }

  predicate SendsToReview(s: State, step: Step, key: Key) {
    && step.Editing? && step.edit.SetState? && step.edit.key == key && step.edit.state == InReview
    && StateChanges(s.texts, key, InReview, step.edit.expected)
  }

  /** `t` is under review for `key` because it was, with the same texts, or because `step` sent it there. */
  ghost predicate ReviewKept(s: State, step: Step, t: State, key: Key) {
    UnderReview(StandingOf(t, key)) ==>
      var was, stands := StandingOf(s, key), StandingOf(t, key);
      && was.Standing? && was.target == stands.target && was.source == stands.source
      && (SendsToReview(s, step, key) || UnderReview(was))
  }

  lemma ReviewSetState(s: State, edit: Edit, key: Key)
    requires Inv(s) && edit.SetState?
    ensures ReviewKept(s, Editing(edit), s.(texts := AfterEdit(s.texts, edit)), key)
  {
    if key in s.texts.translations { assert TranslationOk(s.texts, key); }
  }

  /** Other edits leave a draft where they change what is selected. */
  lemma ReviewOtherEdit(s: State, edit: Edit, key: Key)
    requires Inv(s) && !edit.SetState?
    ensures ReviewKept(s, Editing(edit), s.(texts := AfterEdit(s.texts, edit)), key)
  {
    EditCounts(s.texts, edit, key);
    if key in s.texts.translations { assert TranslationOk(s.texts, key); }
  }

  lemma ReviewEdit(s: State, edit: Edit, key: Key)
    requires Inv(s)
    ensures ReviewKept(s, Editing(edit), s.(texts := AfterEdit(s.texts, edit)), key)
  {
    if edit.SetState? { ReviewSetState(s, edit, key); } else { ReviewOtherEdit(s, edit, key); }
  }

  /** A step after which a key is under review either sent it there, or found it there with the same texts. */
  lemma ReviewStep(s: State, step: Step, key: Key)
    requires Inv(s)
    ensures ReviewKept(s, step, Apply(s, step), key)
  {
    match step
    case Editing(edit) => ReviewEdit(s, edit, key);
    case Complete(g, token, execution, now, result) =>
      if Committable(s, g, token, execution, now, result) { CompleteDrafts(s, g, token, execution, now, result, key); }
    case _ => assert Apply(s, step).texts == s.texts;
  }

  /** A commit leaves what it writes as a draft. */
  lemma CompleteDrafts(s: State, g: nat, token: nat, execution: nat, now: int, result: map<nat, string>, key: Key)
    requires Inv(s) && Committable(s, g, token, execution, now, result)
    ensures var t := AfterComplete(s, g, token, execution, now, result);
            UnderReview(StandingOf(t, key)) ==> StandingOf(t, key) == StandingOf(s, key)
  {
    var snapshot := s.queue.generations[g].snapshot;
    CommitsDraft(s.texts, snapshot.track, g, snapshot.dialogues, result, |snapshot.dialogues|, key);
  }

  lemma {:induction false} CommitsDraft(e: Texts, track: nat, g: nat, dialogues: seq<SnapshotDialogue>,
                                        result: map<nat, string>, n: nat, key: Key)
    requires n <= |dialogues|
    ensures var f := CommitUpTo(e, track, g, dialogues, result, n);
            && f.sources == e.sources
            && (SelectionOf(f, key) == SelectionOf(e, key)
               || (SelectionOf(f, key).Some? && SelectionOf(f, key).value.state == Draft))
  {
    if n > 0 { CommitsDraft(e, track, g, dialogues, result, n - 1, key); }
  }

  ghost predicate SameTexts(a: Standing, b: Standing) {
    a.Standing? && b.Standing? && a.target == b.target && a.source == b.source
  }

  ghost predicate SentAt(s: State, steps: seq<Step>, key: Key, k: nat)
    requires k < |steps|
  {
    SendsToReview(Run(s, steps[..k]), steps[k], key)
  }

  /** Step `k` sent what stands now to review, and it has been under review with these texts ever since. */
  ghost predicate SentAndHeld(s: State, steps: seq<Step>, key: Key, k: nat)
    requires k < |steps|
  {
    && SentAt(s, steps, key, k)
    && (forall j :: k < j <= |steps| ==> UnderReview(StandingOf(Run(s, steps[..j]), key)))
    && (forall j :: k <= j <= |steps| ==>
      SameTexts(StandingOf(Run(s, steps[..j]), key), StandingOf(Run(s, steps), key)))
  }

  lemma SentNow(s: State, steps: seq<Step>, key: Key)
    requires steps != [] && SentAt(s, steps, key, |steps| - 1) && UnderReview(StandingOf(Run(s, steps), key))
    requires SameTexts(StandingOf(Run(s, steps[..|steps| - 1]), key), StandingOf(Run(s, steps), key))
    ensures SentAndHeld(s, steps, key, |steps| - 1)
  {
    assert steps[..|steps|] == steps;
  }

  lemma HeldLonger(s: State, steps: seq<Step>, key: Key, k: nat)
    requires k < |steps| - 1 && SentAndHeld(s, steps[..|steps| - 1], key, k)
      && UnderReview(StandingOf(Run(s, steps), key))
    requires SameTexts(StandingOf(Run(s, steps[..|steps| - 1]), key), StandingOf(Run(s, steps), key))
    ensures SentAndHeld(s, steps, key, k)
  {
    var before := steps[..|steps| - 1];
    assert steps[..|steps|] == steps && before[..k] == steps[..k];
    forall j | k <= j <= |steps|
      ensures k < j ==> UnderReview(StandingOf(Run(s, steps[..j]), key))
      ensures SameTexts(StandingOf(Run(s, steps[..j]), key), StandingOf(Run(s, steps), key))
    {
      if j < |steps| { assert before[..j] == steps[..j]; }
    }
  }

  lemma LastReview(s: State, steps: seq<Step>, key: Key)
    requires Inv(s) && steps != [] && UnderReview(StandingOf(Run(s, steps), key))
    ensures SameTexts(StandingOf(Run(s, steps[..|steps| - 1]), key), StandingOf(Run(s, steps), key))
    ensures SentAt(s, steps, key, |steps| - 1) || UnderReview(StandingOf(Run(s, steps[..|steps| - 1]), key))
  {
    InvRun(s, steps[..|steps| - 1]);
    ReviewStep(Run(s, steps[..|steps| - 1]), steps[|steps| - 1], key);
  }

  /**
   * What stands in review or approved is exactly the pair of target and source revision that was sent to review:
   * step `k` sent it, and it has been under review with these texts ever since.
   */
  lemma {:induction false} ReviewedPairWasSent(s: State, steps: seq<Step>, key: Key) returns (k: nat)
    requires Inv(s) && !UnderReview(StandingOf(s, key)) && UnderReview(StandingOf(Run(s, steps), key))
    ensures k < |steps| && SentAt(s, steps, key, k)
    ensures forall j :: k < j <= |steps| ==> UnderReview(StandingOf(Run(s, steps[..j]), key))
    ensures forall j :: k <= j <= |steps| ==>
      SameTexts(StandingOf(Run(s, steps[..j]), key), StandingOf(Run(s, steps), key))
    decreases |steps|
  {
    if steps == [] {
      assert false;
    }
    var n := |steps| - 1;
    LastReview(s, steps, key);
    if SentAt(s, steps, key, n) {
      k := n;
      SentNow(s, steps, key);
    } else {
      k := ReviewedPairWasSent(s, steps[..n], key);
      HeldLonger(s, steps, key, k);
    }
  }
}
