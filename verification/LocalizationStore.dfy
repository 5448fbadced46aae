/** The localization tables of one workspace, updated in place by the editors' and the worker's transactions. */
module LocalizationStore {
  import opened Editorial
  import opened GenerationLease
  import opened Sorting
  import opened TranslationWorker
  import opened Wrappers

  datatype Outcome = Done | NotFound | Conflict | BadRequest | Stale | ResultMissing | LeaseLost

  /** Dialogue `k` is the first that a commit cannot write: it has no result, or another translation than seen. */
  ghost predicate FirstObjection(e: Texts, track: nat, dialogues: seq<SnapshotDialogue>, result: map<nat, string>,
                                 k: nat, outcome: Outcome)
    requires k < |dialogues|
  {
    && (forall j :: 0 <= j < k ==> dialogues[j].dialogue in result && TargetCurrent(e, track, dialogues[j]))
    && if dialogues[k].dialogue !in result then outcome == ResultMissing
       else !TargetCurrent(e, track, dialogues[k]) && outcome == Stale
  }

  ghost predicate Objects(e: Texts, track: nat, dialogues: seq<SnapshotDialogue>, result: map<nat, string>,
                          outcome: Outcome) {
    exists k :: 0 <= k < |dialogues| && FirstObjection(e, track, dialogues, result, k, outcome)
  }

  /** Why a commit under its lease was refused. */
  ghost predicate Refused(s: State, g: nat, result: map<nat, string>, outcome: Outcome) {
    && g < |s.queue.generations|
    && var snapshot := s.queue.generations[g].snapshot;
       if !SelectionsCurrent(s, snapshot) then outcome == Stale
       else Objects(s.texts, snapshot.track, snapshot.dialogues, result, outcome)
  }

  class Store {
    var sourceLog: seq<SourceRevision>
    var sources: map<nat, SourceSelection>
    var targetLog: seq<TargetRevision>
    var translations: map<Key, Translation>
    var generations: seq<Generation>
    var events: seq<Event>
    var nextToken: nat
    const scenes: map<nat, seq<nat>>
    var sceneSelected: map<nat, nat>
    var glossary: map<nat, seq<nat>>

    function Contents(): State
      reads this
    {
      State(Texts(sourceLog, sources, targetLog, translations), Queue(generations, events, nextToken),
            Context(scenes, sceneSelected, glossary))
    }

    ghost predicate Valid()
      reads this
    {
      Inv(Contents())
    }

    constructor (scenes: map<nat, seq<nat>>, sourceLog: seq<SourceRevision>, sources: map<nat, SourceSelection>,
                 sceneSelected: map<nat, nat>, glossary: map<nat, seq<nat>>)
      requires forall scene :: scene in scenes ==> Distinct(scenes[scene])
      requires forall dialogue :: dialogue in sources ==> SourceOk(Texts(sourceLog, sources, [], map[]), dialogue)
      ensures Valid()
      ensures Contents() == State(Texts(sourceLog, sources, [], map[]), Queue([], [], 0),
                                  Context(scenes, sceneSelected, glossary))
    {
      this.scenes := scenes;
      this.sourceLog, this.sources := sourceLog, sources;
      this.sceneSelected, this.glossary := sceneSelected, glossary;
      targetLog, translations := [], map[];
      generations, events, nextToken := [], [], 0;
      new;
      InvInitial(Contents());
    }

    method UpdateSourceDialogue(dialogue: nat, text: string, expected: nat) returns (outcome: Outcome)
      requires Valid()
      modifies this
      ensures Contents() == Apply(old(Contents()), Editing(UpdateSource(dialogue, text, expected)))
      ensures Valid()
      ensures outcome == Done <==> old(SourceUpdates(Contents().texts, dialogue, text, expected))
      ensures outcome in {Done, BadRequest, NotFound, Conflict}
      ensures outcome == NotFound <==> text != "" && dialogue !in old(sources)
      ensures outcome == Conflict <==>
                text != "" && dialogue in old(sources) && old(sources)[dialogue].counter != expected
    {
      InvStep(Contents(), Editing(UpdateSource(dialogue, text, expected)));
      if text == "" { return BadRequest; }
      if dialogue !in sources { return NotFound; }
      if sources[dialogue].counter != expected { return Conflict; }
      assert SourceOk(Contents().texts, dialogue);
      if sourceLog[sources[dialogue].selected].text == text { return BadRequest; }
      var revision := |sourceLog|;
      sourceLog := sourceLog + [SourceRevision(dialogue, text)];
      sources := sources[dialogue := SourceSelection(expected + 1, revision)];
      ReopenTranslationsAfterSourceChange(dialogue);
      outcome := Done;
    }

    method SelectSourceRevision(dialogue: nat, revision: nat, expected: nat) returns (outcome: Outcome)
      requires Valid()
      modifies this
      ensures Contents() == Apply(old(Contents()), Editing(SelectSource(dialogue, revision, expected)))
      ensures Valid()
      ensures outcome == Done <==> old(SourceSelects(Contents().texts, dialogue, revision, expected))
      ensures outcome in {Done, BadRequest, NotFound, Conflict}
      ensures outcome == NotFound <==>
                dialogue !in old(sources) || revision >= |sourceLog| || sourceLog[revision].dialogue != dialogue
      ensures outcome == Conflict <==> outcome != NotFound && old(sources)[dialogue].counter != expected
    {
      InvStep(Contents(), Editing(SelectSource(dialogue, revision, expected)));
      if dialogue !in sources || revision >= |sourceLog| || sourceLog[revision].dialogue != dialogue {
        return NotFound;
      }
      if sources[dialogue].counter != expected { return Conflict; }
      if sources[dialogue].selected == revision { return BadRequest; }
      sources := sources[dialogue := SourceSelection(expected + 1, revision)];
      ReopenTranslationsAfterSourceChange(dialogue);
      outcome := Done;
    }

    /** One update of every selection of the dialogue's translations, on all tracks. */
    method ReopenTranslationsAfterSourceChange(dialogue: nat)
      modifies `translations
      ensures translations == Reopened(old(translations), dialogue)
    {
      translations := map key | key in translations ::
        if key.dialogue == dialogue && translations[key].selection.Some? then
          var selection := translations[key].selection.value;
          translations[key].(selection := Some(Selection(Draft, selection.counter + 1, selection.selected)))
        else translations[key];
    }

    method UpdateTranslation(key: Key, text: string, expected: nat) returns (outcome: Outcome)
      requires Valid()
      modifies this
      ensures Contents() == Apply(old(Contents()), Editing(UpdateTarget(key, text, expected)))
      ensures Valid()
      ensures outcome == Done <==> old(TargetUpdates(Contents().texts, key, text, expected))
      ensures outcome in {Done, BadRequest, NotFound, Conflict}
      ensures outcome == NotFound <==> text != "" && key.dialogue !in sources
      ensures outcome == Conflict <==>
                text != "" && key.dialogue in sources && old(Counter(SelectionOf(Contents().texts, key))) != expected
    {
      InvStep(Contents(), Editing(UpdateTarget(key, text, expected)));
      if key in translations { assert TranslationOk(Contents().texts, key); }
      outcome := WriteTranslation(key, text, expected);
    }

    method WriteTranslation(key: Key, text: string, expected: nat) returns (outcome: Outcome)
      requires key in translations && translations[key].selection.Some? ==>
                 translations[key].selection.value.selected < |targetLog|
      modifies `targetLog, `translations
      ensures Contents() == old(Contents()).(texts := AfterUpdateTarget(old(Contents()).texts, key, text, expected))
      ensures outcome == Done <==> old(TargetUpdates(Contents().texts, key, text, expected))
      ensures outcome in {Done, BadRequest, NotFound, Conflict}
      ensures outcome == NotFound <==> text != "" && key.dialogue !in sources
      ensures outcome == Conflict <==>
                text != "" && key.dialogue in sources && old(Counter(SelectionOf(Contents().texts, key))) != expected
    {
      if text == "" { return BadRequest; }
      if key.dialogue !in sources { return NotFound; }
      var selection := if key in translations then translations[key].selection else None;
      var current := if selection.Some? then selection.value.counter else 0;
      if current != expected { return Conflict; }
      if selection.Some? && targetLog[selection.value.selected].text == text { return BadRequest; }
      var id := if key in translations then translations[key].id else Derived(key);
      var counter := if expected == 0 then 1 else selection.value.counter + 1;
      translations := translations[key := Translation(id, Some(Selection(Draft, counter, |targetLog|)))];
      targetLog := targetLog + [TargetRevision(key, text, sources[key.dialogue].selected, None)];
      outcome := Done;
    }

    method UpdateTranslationState(key: Key, state: EditorState, expected: nat) returns (outcome: Outcome)
      requires Valid()
      modifies `translations
      ensures Contents() == Apply(old(Contents()), Editing(SetState(key, state, expected)))
      ensures Valid()
      ensures outcome == Done <==> old(StateChanges(Contents().texts, key, state, expected))
      ensures outcome in {Done, BadRequest, NotFound, Conflict}
      ensures outcome == NotFound <==> old(SelectionOf(Contents().texts, key)).None?
      ensures outcome == Conflict <==>
                && outcome != NotFound
                && var selection := old(SelectionOf(Contents().texts, key).value);
                   || selection.counter != expected
                   || (&& TransitionAllowed(selection.state, state) && state != Draft
                       && !old(Fresh(Contents().texts, key, SelectionOf(Contents().texts, key).value)))
    {
      InvStep(Contents(), Editing(SetState(key, state, expected)));
      if key in translations { assert TranslationOk(Contents().texts, key); }
      outcome := WriteState(key, state, expected);
    }

    method WriteState(key: Key, state: EditorState, expected: nat) returns (outcome: Outcome)
      requires key in translations && translations[key].selection.Some? ==>
                 translations[key].selection.value.selected < |targetLog|
      modifies `translations
      ensures Contents() == old(Contents()).(texts := AfterSetState(old(Contents()).texts, key, state, expected))
      ensures outcome == Done <==> old(StateChanges(Contents().texts, key, state, expected))
      ensures outcome in {Done, BadRequest, NotFound, Conflict}
      ensures outcome == NotFound <==> old(SelectionOf(Contents().texts, key)).None?
      ensures outcome == Conflict <==>
                && outcome != NotFound
                && var selection := old(SelectionOf(Contents().texts, key).value);
                   || selection.counter != expected
                   || (&& TransitionAllowed(selection.state, state) && state != Draft
                       && !old(Fresh(Contents().texts, key, SelectionOf(Contents().texts, key).value)))
    {
      if key !in translations || translations[key].selection.None? { return NotFound; }
      var selection := translations[key].selection.value;
      if selection.counter != expected { return Conflict; }
      if !TransitionAllowed(selection.state, state) { return BadRequest; }
      if state != Draft
         && (key.dialogue !in sources || targetLog[selection.selected].source != sources[key.dialogue].selected) {
        return Conflict;
      }
      Select(key, Selection(state, selection.counter + 1, selection.selected));
      outcome := Done;
    }

    method SelectTranslationRevision(key: Key, revision: nat, expected: nat) returns (outcome: Outcome)
      requires Valid()
      modifies `translations
      ensures Contents() == Apply(old(Contents()), Editing(SelectTarget(key, revision, expected)))
      ensures Valid()
      ensures outcome == Done <==> old(TargetSelects(Contents().texts, key, revision, expected))
      ensures outcome in {Done, BadRequest, NotFound, Conflict}
      ensures outcome == NotFound <==>
                || old(SelectionOf(Contents().texts, key)).None?
                || revision >= |targetLog| || targetLog[revision].key != key
      ensures outcome == Conflict <==>
                outcome != NotFound && old(Counter(SelectionOf(Contents().texts, key))) != expected
    {
      InvStep(Contents(), Editing(SelectTarget(key, revision, expected)));
      outcome := WriteSelection(key, revision, expected);
    }

    method WriteSelection(key: Key, revision: nat, expected: nat) returns (outcome: Outcome)
      modifies `translations
      ensures Contents() == old(Contents()).(texts := AfterSelectTarget(old(Contents()).texts, key, revision, expected))
      ensures outcome == Done <==> old(TargetSelects(Contents().texts, key, revision, expected))
      ensures outcome in {Done, BadRequest, NotFound, Conflict}
      ensures outcome == NotFound <==>
                || old(SelectionOf(Contents().texts, key)).None?
                || revision >= |targetLog| || targetLog[revision].key != key
      ensures outcome == Conflict <==>
                outcome != NotFound && old(Counter(SelectionOf(Contents().texts, key))) != expected
    {
      if key !in translations || translations[key].selection.None? { return NotFound; }
      if revision >= |targetLog| || targetLog[revision].key != key { return NotFound; }
      var selection := translations[key].selection.value;
      if selection.counter != expected { return Conflict; }
      if selection.selected == revision { return BadRequest; }
      Select(key, Selection(Draft, selection.counter + 1, revision));
      outcome := Done;
    }

    /** The update of one row of selections. */
    method Select(key: Key, selection: Selection)
      requires key in translations
      modifies `translations
      ensures translations == old(translations)[key := old(translations)[key].(selection := Some(selection))]
    {
      translations := translations[key := translations[key].(selection := Some(selection))];
    }

    /** Snapshots the scene and queues its translation. */
    method CreateGeneration(track: nat, scene: nat, maxAttempts: nat, now: int) returns (outcome: Outcome)
      requires Valid() && maxAttempts >= 1
      modifies this
      ensures Contents() == Apply(old(Contents()), Request(track, scene, maxAttempts, now))
      ensures Valid()
      ensures outcome == Done <==> old(Requestable(Contents(), track, scene))
      ensures outcome in {Done, NotFound, Conflict}
      ensures outcome == NotFound <==> scene !in sceneSelected || scene !in scenes
    {
      InvStep(Contents(), Request(track, scene, maxAttempts, now));
      if scene !in sceneSelected || scene !in scenes { return NotFound; }
      var dialogues := scenes[scene];
      if |dialogues| == 0 || |dialogues| > 200 { return Conflict; }
      var seen: seq<SnapshotDialogue> := [];
      var k := 0;
      while k < |dialogues|
        invariant 0 <= k <= |dialogues| && |seen| == k
        invariant forall i :: 0 <= i < k ==>
          dialogues[i] in sources && seen[i] == Seen(Contents().texts, track, dialogues[i])
      {
        if dialogues[k] !in sources {
          assert dialogues[k] in scenes[scene];
          return Conflict;
        }
        var key := Key(track, dialogues[k]);
        var id, selection := None, None;
        if key in translations {
          id, selection := Some(translations[key].id), translations[key].selection;
        }
        seen := seen + [SnapshotDialogue(dialogues[k], sources[dialogues[k]].selected, id,
                                         if selection.Some? then Some(selection.value.selected) else None,
                                         if selection.Some? then Some(selection.value.counter) else None)];
        k := k + 1;
      }
      var terms := if track in glossary then glossary[track] else [];
      if |terms| > 200 { return Conflict; }
      assert forall d :: d in dialogues ==> d in sources;
      assert seen == SeenAll(Contents().texts, track, dialogues);
      var g := |generations|;
      var snapshot := Snapshot(track, scene, sceneSelected[scene], seen, terms);
      generations := generations + [Generation(snapshot, Queued, 0, maxAttempts, None, None, None)];
      events := events + [Event(g, Requested, now, None)];
      outcome := Done;
    }

    method ClaimGeneration(g: nat, now: int, lease: nat) returns (held: Option<(nat, nat)>)
      requires Valid()
      modifies `generations, `nextToken
      ensures Contents() == Apply(old(Contents()), Working(Claim(g, now, lease)))
      ensures Valid()
      ensures held.Some? <==> old(Waiting(Contents().queue, g))
      ensures held.Some? && lease > 0 ==> Leased(Contents().queue, g, held.value.0, held.value.1, now)
      ensures held.Some? ==> held.value.0 >= old(nextToken)
    {
      InvStep(Contents(), Working(Claim(g, now, lease)));
      if g >= |generations| || generations[g].status != Queued { return None; }
      var row := generations[g];
      assert RowOk(row, nextToken);
      if row.attemptCount >= row.maxAttempts {
        // The service fails the generation here; a waiting generation always has an attempt left.
        assert false;
      }
      var token, execution := nextToken, nextToken + 1;
      nextToken := nextToken + 2;
      generations := generations[g := row.(status := Running, attemptCount := row.attemptCount + 1,
                                           token := Some(token), until := Some(now + lease),
                                           execution := Some(execution))];
      held := Some((token, execution));
    }

    /** The commit: under the lease, against the snapshot, all dialogues or none. */
    method CompleteGeneration(g: nat, token: nat, execution: nat, now: int, result: map<nat, string>)
        returns (outcome: Outcome)
      requires Valid()
      modifies `targetLog, `translations, `generations
      ensures Contents() == Apply(old(Contents()), Complete(g, token, execution, now, result))
      ensures Valid()
      ensures outcome == Done <==> old(Committable(Contents(), g, token, execution, now, result))
      ensures outcome == LeaseLost <==> !old(Leased(Contents().queue, g, token, execution, now))
      ensures outcome in {Done, LeaseLost} || Refused(old(Contents()), g, result, outcome)
    {
      InvStep(Contents(), Complete(g, token, execution, now, result));
      if g < |generations| { assert GenerationOk(Contents(), g); }
      outcome := CommitGeneration(g, token, execution, now, result);
    }

    method CommitGeneration(g: nat, token: nat, execution: nat, now: int, result: map<nat, string>)
        returns (outcome: Outcome)
      requires g < |generations| ==> DistinctDialogues(generations[g].snapshot.dialogues)
      modifies `targetLog, `translations, `generations
      ensures Contents() == AfterComplete(old(Contents()), g, token, execution, now, result)
      ensures outcome == Done <==> old(Committable(Contents(), g, token, execution, now, result))
      ensures outcome == LeaseLost <==> !old(Leased(Contents().queue, g, token, execution, now))
      ensures outcome in {Done, LeaseLost} || Refused(old(Contents()), g, result, outcome)
    {
      if !Leased(Contents().queue, g, token, execution, now) { return LeaseLost; }
      var snapshot := generations[g].snapshot;
      var current := AssertSelectionsCurrent(snapshot);
      if !current { return Stale; }
      var log, written;
      outcome, log, written := WriteResult(g, snapshot.track, snapshot.dialogues, result);
      if outcome != Done { return; }
      targetLog, translations := log, written;
      generations := generations[g := generations[g].(status := Succeeded, token := None, until := None)];
    }

    /** The rows of the commit, dialogue by dialogue; a transaction that finds a stale target writes none of them. */
    method WriteResult(g: nat, track: nat, dialogues: seq<SnapshotDialogue>, result: map<nat, string>)
        returns (outcome: Outcome, log: seq<TargetRevision>, written: map<Key, Translation>)
      requires DistinctDialogues(dialogues)
      ensures outcome in {Done, Stale, ResultMissing}
      ensures outcome == Done <==> forall d :: d in dialogues ==>
        d.dialogue in result && TargetCurrent(Contents().texts, track, d)
      ensures outcome != Done ==> Objects(Contents().texts, track, dialogues, result, outcome)
      ensures outcome == Done ==>
        Texts(sourceLog, sources, log, written)
          == CommitUpTo(Contents().texts, track, g, dialogues, result, |dialogues|)
    {
      ghost var e := Contents().texts;
      log, written := targetLog, translations;
      var k := 0;
      while k < |dialogues|
        invariant 0 <= k <= |dialogues|
        invariant Texts(sourceLog, sources, log, written) == CommitUpTo(e, track, g, dialogues, result, k)
        invariant forall j :: 0 <= j < k ==> dialogues[j].dialogue in result && TargetCurrent(e, track, dialogues[j])
      {
        var source := dialogues[k];
        assert source in dialogues;
        if source.dialogue !in result {
          assert FirstObjection(e, track, dialogues, result, k, ResultMissing);
          return ResultMissing, log, written;
        }
        var current := AssertTargetSelectionCurrent(track, source);
        if !current {
          assert FirstObjection(e, track, dialogues, result, k, Stale);
          return Stale, log, written;
        }
        CommitStep(e, track, g, dialogues, result, k);
        var key := Key(track, source.dialogue);
        if source.targetId.None? {
          written := written[key := Translation(Drawn(|log|), Some(Selection(Draft, 1, |log|)))];
        } else {
          written := written[key := written[key].(selection :=
            Some(Selection(Draft, source.targetCounter.value + 1, |log|)))];
        }
        log := log + [TargetRevision(key, result[source.dialogue], source.source, Some(g))];
        k := k + 1;
      }
      AllChecked(e, track, dialogues, result);
      outcome := Done;
    }

    method AssertTargetSelectionCurrent(track: nat, source: SnapshotDialogue) returns (current: bool)
      ensures current <==> TargetCurrent(Contents().texts, track, source)
    {
      var key := Key(track, source.dialogue);
      if source.targetId.None? { return key !in translations; }
      if key !in translations || translations[key].selection.None? { return false; }
      var selection := translations[key].selection.value;
      current := translations[key].id == source.targetId.value && Some(selection.selected) == source.targetRevision
                 && Some(selection.counter) == source.targetCounter;
    }

    /** Whether the scene, every source and the glossary are still those of the snapshot. */
    method AssertSelectionsCurrent(snapshot: Snapshot) returns (current: bool)
      ensures current <==> SelectionsCurrent(Contents(), snapshot)
    {
      if snapshot.scene !in sceneSelected || sceneSelected[snapshot.scene] != snapshot.sceneRevision { return false; }
      var k := 0;
      while k < |snapshot.dialogues|
        invariant 0 <= k <= |snapshot.dialogues|
        invariant forall j :: 0 <= j < k ==>
          var d := snapshot.dialogues[j]; d.dialogue in sources && sources[d.dialogue].selected == d.source
      {
        var d := snapshot.dialogues[k];
        if d.dialogue !in sources || sources[d.dialogue].selected != d.source {
          assert snapshot.dialogues[k] in snapshot.dialogues;
          return false;
        }
        k := k + 1;
      }
      var terms := if snapshot.track in glossary then glossary[snapshot.track] else [];
      current := Sort(terms, NatLe) == Sort(snapshot.glossary, NatLe);
    }

    method FailGeneration(g: nat, token: nat, retryable: bool, expiredBefore: Option<int>, now: int) returns (won: bool)
      requires Valid()
      modifies `generations, `events
      ensures Contents() == Apply(old(Contents()), Working(Fail(g, token, retryable, expiredBefore, now)))
      ensures Valid()
      ensures won <==> old(Failable(Contents().queue, g, token, expiredBefore, now))
    {
      InvStep(Contents(), Working(Fail(g, token, retryable, expiredBefore, now)));
      if g >= |generations| { return false; }
      var row := generations[g];
      if row.status != Running || row.token != Some(token) || row.until.None? { return false; }
      if expiredBefore.Some? && row.until.value >= expiredBefore.value { return false; }
      if expiredBefore.None? && row.until.value <= now { return false; }
      if retryable && row.attemptCount < row.maxAttempts {
        generations := generations[g := row.(status := Queued, token := None, until := None, execution := None)];
        events := events + [Event(g, Retry(row.attemptCount + 1), now + RetryDelay(row.attemptCount + 1), None)];
      } else {
        generations := generations[g := row.(status := Failed, token := None, until := None)];
      }
      won := true;
    }

    method Heartbeat(g: nat, token: nat, now: int, lease: nat) returns (held: bool)
      requires Valid()
      modifies `generations
      ensures Contents() == Apply(old(Contents()), Working(GenerationLease.Heartbeat(g, token, now, lease)))
      ensures Valid()
      ensures held <==> old(Holds(Contents().queue, g, token))
    {
      InvStep(Contents(), Working(GenerationLease.Heartbeat(g, token, now, lease)));
      held := g < |generations| && generations[g].status == Running && generations[g].token == Some(token);
      if held { generations := generations[g := generations[g].(until := Some(now + lease))]; }
    }

    method RedeliverEvent(e: nat, now: int, staleBefore: int)
      requires Valid()
      modifies `events
      ensures Contents() == Apply(old(Contents()), Working(Replay(e, now, staleBefore)))
      ensures Valid()
    {
      InvStep(Contents(), Working(Replay(e, now, staleBefore)));
      if Replayable(Contents().queue, e, staleBefore) {
        events := events[e := events[e].(published := None, availableAt := now)];
      }
    }

    method FailExpired(g: nat, now: int)
      requires Valid()
      modifies `generations, `events
      ensures Contents() == old(Contents()).(queue := AfterExpiry(old(Contents()).queue, g, now))
      ensures Valid()
    {
      if Expired(Contents().queue, g, now) {
        var won := FailGeneration(g, generations[g].token.value, true, Some(now), now);
      }
    }

    /**
     * One recovery pass over what its two queries found: redeliver the stale events of waiting generations, then
     * fail the generations whose lease ran out, each in a transaction of its own.
     */
    method RecoverExpiredGenerations(stale: seq<nat>, expired: seq<nat>, now: int, staleBefore: int)
      requires Valid()
      modifies `generations, `events
      ensures Contents() == old(Contents().(queue := Recovered(Contents().queue, stale, expired, now, staleBefore)))
      ensures Valid()
    {
      ghost var s := Contents();
      var k := 0;
      while k < |stale|
        invariant 0 <= k <= |stale| && Valid()
        invariant Contents() == s.(queue := ReplayUpTo(s.queue, stale, k, now, staleBefore))
      {
        RedeliverEvent(stale[k], now, staleBefore);
        k := k + 1;
      }
      ghost var q := Contents().queue;
      k := 0;
      while k < |expired|
        invariant 0 <= k <= |expired| && Valid()
        invariant Contents() == s.(queue := FailUpTo(q, expired, k, now))
      {
        FailExpired(expired[k], now);
        k := k + 1;
      }
    }
  }

  /** The write for dialogue `k`: its translation is still what the transaction read, as the dialogues are distinct. */
  lemma CommitStep(e: Texts, track: nat, g: nat, dialogues: seq<SnapshotDialogue>, result: map<nat, string>, k: nat)
    requires k < |dialogues| && DistinctDialogues(dialogues) && TargetCurrent(e, track, dialogues[k])
    ensures var f, d := CommitUpTo(e, track, g, dialogues, result, k), dialogues[k];
            var key := Key(track, d.dialogue);
            && (d.targetId.Some? ==> key in f.translations && d.targetCounter.Some?)
            && CommitUpTo(e, track, g, dialogues, result, k + 1)
               == f.(targetLog := f.targetLog
                       + [TargetRevision(key, ResultText(result, d.dialogue), d.source, Some(g))],
                     translations := f.translations[key :=
                       if d.targetId.None?
                       then Translation(Drawn(|f.targetLog|), Some(Selection(Draft, 1, |f.targetLog|)))
                       else f.translations[key]
                              .(selection := Some(Selection(Draft, d.targetCounter.value + 1, |f.targetLog|)))])
  {
    var key := Key(track, dialogues[k].dialogue);
    CommitsCount(e, track, g, dialogues, result, k, key);
    assert !CommitsTo(track, dialogues, k, key);
  }

  lemma AllChecked(e: Texts, track: nat, dialogues: seq<SnapshotDialogue>, result: map<nat, string>)
    requires forall j :: 0 <= j < |dialogues| ==>
      dialogues[j].dialogue in result && TargetCurrent(e, track, dialogues[j])
    ensures forall d :: d in dialogues ==> d.dialogue in result && TargetCurrent(e, track, d)
  {
  }
}
