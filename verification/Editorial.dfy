/** Revisions and counted selections of source dialogues and their translations. */
module Editorial {
  import opened Wrappers

  /** A dialogue as translated on one track. */
  datatype Key = Key(track: nat, dialogue: nat)

  datatype EditorState = Draft | InReview | Approved

  datatype SourceRevision = SourceRevision(dialogue: nat, text: string)

  /** `source` is the source revision it was written against; `generation` is absent for edits by hand. */
  datatype TargetRevision = TargetRevision(key: Key, text: string, source: nat, generation: Option<nat>)

  datatype SourceSelection = SourceSelection(counter: nat, selected: nat)

  datatype Selection = Selection(state: EditorState, counter: nat, selected: nat)

  /** Edits derive the id from track and dialogue; the worker draws a new one. */
  datatype TranslationId = Derived(key: Key) | Drawn(n: nat)

  datatype Translation = Translation(id: TranslationId, selection: Option<Selection>)

  /** Revisions are never changed or removed, so a revision is known by its position in its log. */
  datatype Texts = Texts(sourceLog: seq<SourceRevision>, sources: map<nat, SourceSelection>,
                         targetLog: seq<TargetRevision>, translations: map<Key, Translation>)

  // ---- Operations ----

  function SelectionOf(e: Texts, key: Key): Option<Selection> {
    if key in e.translations then e.translations[key].selection else None
  }

  function SourceText(e: Texts, revision: nat): string {
    if revision < |e.sourceLog| then e.sourceLog[revision].text else ""
  }

  function TargetText(e: Texts, revision: nat): string {
    if revision < |e.targetLog| then e.targetLog[revision].text else ""
  }

  function Reopen(t: Translation): Translation {
    if t.selection.None? then t
    else t.(selection := Some(t.selection.value.(state := Draft, counter := t.selection.value.counter + 1)))
  }

  /** A source change sends every translation of the dialogue, on every track, back to draft. */
  function Reopened(translations: map<Key, Translation>, dialogue: nat): map<Key, Translation> {
    map key | key in translations :: if key.dialogue == dialogue then Reopen(translations[key]) else translations[key]
  }

  predicate SourceUpdates(e: Texts, dialogue: nat, text: string, expected: nat) {
    && text != "" && dialogue in e.sources && e.sources[dialogue].counter == expected
    && SourceText(e, e.sources[dialogue].selected) != text
  }

  function AfterUpdateSource(e: Texts, dialogue: nat, text: string, expected: nat): Texts {
    if !SourceUpdates(e, dialogue, text, expected) then e
    else e.(sourceLog := e.sourceLog + [SourceRevision(dialogue, text)],
            sources := e.sources[dialogue := SourceSelection(expected + 1, |e.sourceLog|)],
            translations := Reopened(e.translations, dialogue))
  }

  predicate SourceSelects(e: Texts, dialogue: nat, revision: nat, expected: nat) {
    && dialogue in e.sources && revision < |e.sourceLog| && e.sourceLog[revision].dialogue == dialogue
    && e.sources[dialogue].counter == expected && e.sources[dialogue].selected != revision
  }

  function AfterSelectSource(e: Texts, dialogue: nat, revision: nat, expected: nat): Texts {
    if !SourceSelects(e, dialogue, revision, expected) then e
    else e.(sources := e.sources[dialogue := SourceSelection(expected + 1, revision)],
            translations := Reopened(e.translations, dialogue))
  }

  function Counter(selection: Option<Selection>): nat {
    if selection.Some? then selection.value.counter else 0
  }

  predicate TargetUpdates(e: Texts, key: Key, text: string, expected: nat) {
    && text != "" && key.dialogue in e.sources && Counter(SelectionOf(e, key)) == expected
    && (SelectionOf(e, key).Some? ==> TargetText(e, SelectionOf(e, key).value.selected) != text)
  }

  function IdOf(e: Texts, key: Key): TranslationId {
    if key in e.translations then e.translations[key].id else Derived(key)
  }

  function AfterUpdateTarget(e: Texts, key: Key, text: string, expected: nat): Texts {
    if !TargetUpdates(e, key, text, expected) then e
    else e.(targetLog := e.targetLog + [TargetRevision(key, text, e.sources[key.dialogue].selected, None)],
            translations := e.translations[key :=
              Translation(IdOf(e, key), Some(Selection(Draft, expected + 1, |e.targetLog|)))])
  }

  predicate TransitionAllowed(current: EditorState, requested: EditorState) {
    || (current == Draft && requested == InReview)
    || (current == InReview && requested in {Draft, Approved})
    || (current == Approved && requested == Draft)
  }

  /** The selected revision was written against the source revision that is selected now. */
  predicate Fresh(e: Texts, key: Key, selection: Selection) {
    && selection.selected < |e.targetLog| && key.dialogue in e.sources
    && e.targetLog[selection.selected].source == e.sources[key.dialogue].selected
  }

  predicate StateChanges(e: Texts, key: Key, state: EditorState, expected: nat) {
    && SelectionOf(e, key).Some?
    && var selection := SelectionOf(e, key).value;
       selection.counter == expected && TransitionAllowed(selection.state, state)
         && (state != Draft ==> Fresh(e, key, selection))
  }

  function AfterSetState(e: Texts, key: Key, state: EditorState, expected: nat): Texts {
    if !StateChanges(e, key, state, expected) then e
    else
      var selection := SelectionOf(e, key).value;
      e.(translations := e.translations[key :=
        e.translations[key].(selection := Some(Selection(state, expected + 1, selection.selected)))])
  }

  predicate TargetSelects(e: Texts, key: Key, revision: nat, expected: nat) {
    && SelectionOf(e, key).Some? && revision < |e.targetLog| && e.targetLog[revision].key == key
    && SelectionOf(e, key).value.counter == expected && SelectionOf(e, key).value.selected != revision
  }

  function AfterSelectTarget(e: Texts, key: Key, revision: nat, expected: nat): Texts {
    if !TargetSelects(e, key, revision, expected) then e
    else e.(translations := e.translations[key :=
      e.translations[key].(selection := Some(Selection(Draft, expected + 1, revision)))])
  }

  /** Requests of editors; each is one serializable transaction. */
  datatype Edit =
    | UpdateSource(dialogue: nat, text: string, expected: nat)
    | SelectSource(dialogue: nat, revision: nat, expected: nat)
    | UpdateTarget(key: Key, text: string, expected: nat)
    | SetState(key: Key, state: EditorState, expected: nat)
    | SelectTarget(key: Key, revision: nat, expected: nat)

  function AfterEdit(e: Texts, edit: Edit): Texts {
    match edit
    case UpdateSource(dialogue, text, expected) => AfterUpdateSource(e, dialogue, text, expected)
    case SelectSource(dialogue, revision, expected) => AfterSelectSource(e, dialogue, revision, expected)
    case UpdateTarget(key, text, expected) => AfterUpdateTarget(e, key, text, expected)
    case SetState(key, state, expected) => AfterSetState(e, key, state, expected)
    case SelectTarget(key, revision, expected) => AfterSelectTarget(e, key, revision, expected)
  }

  // ---- What every operation keeps ----

  ghost predicate SourceOk(e: Texts, dialogue: nat)
    requires dialogue in e.sources
  {
    var s := e.sources[dialogue];
    s.selected < |e.sourceLog| && e.sourceLog[s.selected].dialogue == dialogue && s.counter >= 1
  }

  ghost predicate RevisionOk(e: Texts, i: nat)
    requires i < |e.targetLog|
  {
    var r := e.targetLog[i];
    r.key in e.translations && r.source < |e.sourceLog| && e.sourceLog[r.source].dialogue == r.key.dialogue
  }

  /** A translation always has a selection, of one of its own revisions. */
  ghost predicate TranslationOk(e: Texts, key: Key)
    requires key in e.translations
  {
    var t := e.translations[key];
    && key.dialogue in e.sources
    && t.selection.Some?
    && t.selection.value.selected < |e.targetLog|
    && e.targetLog[t.selection.value.selected].key == key
    && t.selection.value.counter >= 1
  }

  /** In review or approved: written against the active source. */
  ghost predicate ReviewOk(e: Texts, key: Key)
    requires key in e.translations
  {
    var s := e.translations[key].selection;
    s.Some? && s.value.state != Draft ==> Fresh(e, key, s.value)
  }

  ghost predicate TextsInv(e: Texts) {
    && (forall dialogue :: dialogue in e.sources ==> SourceOk(e, dialogue))
    && (forall i :: 0 <= i < |e.targetLog| ==> RevisionOk(e, i))
    && (forall key :: key in e.translations ==> TranslationOk(e, key))
    && (forall key :: key in e.translations ==> ReviewOk(e, key))
  }

  lemma InvUpdateSource(e: Texts, dialogue: nat, text: string, expected: nat)
    requires TextsInv(e)
    ensures TextsInv(AfterUpdateSource(e, dialogue, text, expected))
  {
    var f := AfterUpdateSource(e, dialogue, text, expected);
    if f != e { SourceChanged(e, f, dialogue); }
  }

  lemma InvSelectSource(e: Texts, dialogue: nat, revision: nat, expected: nat)
    requires TextsInv(e)
    ensures TextsInv(AfterSelectSource(e, dialogue, revision, expected))
  {
    var f := AfterSelectSource(e, dialogue, revision, expected);
    if f != e { SourceChanged(e, f, dialogue); }
  }

  /** A new source selection, with every translation of the dialogue reopened. */
  lemma SourceChanged(e: Texts, f: Texts, dialogue: nat)
    requires TextsInv(e) && dialogue in e.sources && dialogue in f.sources
    requires e.sourceLog <= f.sourceLog && f.sources == e.sources[dialogue := f.sources[dialogue]]
    requires f.targetLog == e.targetLog && f.translations == Reopened(e.translations, dialogue)
    requires SourceOk(f, dialogue)
    ensures TextsInv(f)
  {
    forall d | d in f.sources ensures SourceOk(f, d) { if d != dialogue { assert SourceOk(e, d); } }
    forall i | 0 <= i < |f.targetLog| ensures RevisionOk(f, i) { assert RevisionOk(e, i); }
    forall key | key in f.translations ensures TranslationOk(f, key) && ReviewOk(f, key) {
      assert TranslationOk(e, key) && ReviewOk(e, key);
    }
  }

  /** A translation's selection replaced, with at most one revision of its own appended. */
  lemma TargetChanged(e: Texts, f: Texts, key: Key)
    requires TextsInv(e) && key.dialogue in e.sources && key in f.translations
    requires f.sourceLog == e.sourceLog && f.sources == e.sources && e.targetLog <= f.targetLog
    requires |f.targetLog| <= |e.targetLog| + 1
    requires |f.targetLog| > |e.targetLog| ==> f.targetLog[|e.targetLog|].key == key && RevisionOk(f, |e.targetLog|)
    requires f.translations == e.translations[key := f.translations[key]]
    requires TranslationOk(f, key) && ReviewOk(f, key)
    ensures TextsInv(f)
  {
    forall d | d in f.sources ensures SourceOk(f, d) { assert SourceOk(e, d); }
    forall i | 0 <= i < |f.targetLog| ensures RevisionOk(f, i) { if i < |e.targetLog| { assert RevisionOk(e, i); } }
    forall k | k in f.translations ensures TranslationOk(f, k) && ReviewOk(f, k) {
      if k != key { assert TranslationOk(e, k) && ReviewOk(e, k); }
    }
  }

  lemma InvUpdateTarget(e: Texts, key: Key, text: string, expected: nat)
    requires TextsInv(e)
    ensures TextsInv(AfterUpdateTarget(e, key, text, expected))
  {
    var f := AfterUpdateTarget(e, key, text, expected);
    if f != e {
      assert SourceOk(e, key.dialogue);
      assert RevisionOk(f, |e.targetLog|);
      TargetChanged(e, f, key);
    }
  }

  lemma InvSetState(e: Texts, key: Key, state: EditorState, expected: nat)
    requires TextsInv(e)
    ensures TextsInv(AfterSetState(e, key, state, expected))
  {
    var f := AfterSetState(e, key, state, expected);
    if f != e {
      assert TranslationOk(e, key) && ReviewOk(e, key);
      TargetChanged(e, f, key);
    }
  }

  lemma InvSelectTarget(e: Texts, key: Key, revision: nat, expected: nat)
    requires TextsInv(e)
    ensures TextsInv(AfterSelectTarget(e, key, revision, expected))
  {
    var f := AfterSelectTarget(e, key, revision, expected);
    if f != e {
      assert TranslationOk(e, key);
      TargetChanged(e, f, key);
    }
  }

  lemma InvEdit(e: Texts, edit: Edit)
    requires TextsInv(e)
    ensures TextsInv(AfterEdit(e, edit))
  {
    match edit
    case UpdateSource(dialogue, text, expected) => InvUpdateSource(e, dialogue, text, expected);
    case SelectSource(dialogue, revision, expected) => InvSelectSource(e, dialogue, revision, expected);
    case UpdateTarget(key, text, expected) => InvUpdateTarget(e, key, text, expected);
    case SetState(key, state, expected) => InvSetState(e, key, state, expected);
    case SelectTarget(key, revision, expected) => InvSelectTarget(e, key, revision, expected);
  }

  // ---- What an accepted edit leaves ----

  /** Everything but dialogue `d` and its translations is as before. */
  ghost predicate OtherDialoguesKept(e: Texts, f: Texts, d: nat) {
    && (forall x :: x in e.sources && x != d ==> x in f.sources && f.sources[x] == e.sources[x])
    && (forall key :: key in e.translations && key.dialogue != d ==>
      key in f.translations && f.translations[key] == e.translations[key])
  }

  /** Everything but the translation `key` is as before, the sources included. */
  ghost predicate OtherTranslationsKept(e: Texts, f: Texts, key: Key) {
    && f.sources == e.sources && f.translations.Keys == e.translations.Keys + {key}
    && forall other :: other != key && other in e.translations ==> f.translations[other] == e.translations[other]
  }

  /** The new text is the active source, every translation keeps its text and goes back to draft. */
  lemma SourceEditTakesEffect(e: Texts, dialogue: nat, text: string, expected: nat)
    requires TextsInv(e) && SourceUpdates(e, dialogue, text, expected)
    ensures var f := AfterUpdateSource(e, dialogue, text, expected);
            && dialogue in f.sources && f.sources[dialogue].counter == e.sources[dialogue].counter + 1
            && SourceText(f, f.sources[dialogue].selected) == text
               && text != SourceText(e, e.sources[dialogue].selected)
            && OtherDialoguesKept(e, f, dialogue) && f.targetLog == e.targetLog
            && forall key :: key in e.translations && key.dialogue == dialogue ==>
                 && SelectionOf(f, key).Some? && SelectionOf(f, key).value.state == Draft
                    && !Fresh(f, key, SelectionOf(f, key).value)
                 && SelectionOf(f, key).value.selected == SelectionOf(e, key).value.selected
  {
    forall key | key in e.translations && key.dialogue == dialogue
      ensures SelectionOf(e, key).Some? && e.targetLog[SelectionOf(e, key).value.selected].source < |e.sourceLog|
    {
      assert TranslationOk(e, key) && RevisionOk(e, SelectionOf(e, key).value.selected);
    }
  }

  /** The new text is selected, as a draft against the active source. */
  lemma TargetEditTakesEffect(e: Texts, key: Key, text: string, expected: nat)
    requires TextsInv(e) && TargetUpdates(e, key, text, expected)
    ensures var f := AfterUpdateTarget(e, key, text, expected);
            && SelectionOf(f, key).Some? && SelectionOf(f, key).value.state == Draft
            && SelectionOf(f, key).value.counter == Counter(SelectionOf(e, key)) + 1
            && TargetText(f, SelectionOf(f, key).value.selected) == text && Fresh(f, key, SelectionOf(f, key).value)
            && f.translations[key].id == (if key in e.translations then e.translations[key].id else Derived(key))
            && OtherTranslationsKept(e, f, key) && f.sourceLog == e.sourceLog && |f.targetLog| == |e.targetLog| + 1
  {
  }

  /** The revision asked for is the active source, every translation keeps its text and goes back to draft. */
  lemma SourceSelectionTakesEffect(e: Texts, dialogue: nat, revision: nat, expected: nat)
    requires TextsInv(e) && SourceSelects(e, dialogue, revision, expected)
    ensures var f := AfterEdit(e, SelectSource(dialogue, revision, expected));
            && dialogue in f.sources && f.sources[dialogue].selected == revision != e.sources[dialogue].selected
            && f.sources[dialogue].counter == e.sources[dialogue].counter + 1
            && OtherDialoguesKept(e, f, dialogue) && f.sourceLog == e.sourceLog && f.targetLog == e.targetLog
            && forall key :: key in e.translations && key.dialogue == dialogue ==>
                 && SelectionOf(f, key).Some? && SelectionOf(f, key).value.state == Draft
                 && SelectionOf(f, key).value.selected == SelectionOf(e, key).value.selected
  {
    forall key | key in e.translations && key.dialogue == dialogue ensures SelectionOf(e, key).Some? {
      assert TranslationOk(e, key);
    }
  }

  /** The revision asked for is selected, as a draft. */
  lemma TargetSelectionTakesEffect(e: Texts, key: Key, revision: nat, expected: nat)
    requires TextsInv(e) && TargetSelects(e, key, revision, expected)
    ensures var f := AfterEdit(e, SelectTarget(key, revision, expected));
            && SelectionOf(f, key) == Some(Selection(Draft, SelectionOf(e, key).value.counter + 1, revision))
            && SelectionOf(e, key).value.selected != revision && f.translations[key].id == e.translations[key].id
            && OtherTranslationsKept(e, f, key) && f.sourceLog == e.sourceLog && f.targetLog == e.targetLog
  {
  }

  /** The translation stands in the state asked for, with the text it had. */
  lemma StateChangeTakesEffect(e: Texts, key: Key, state: EditorState, expected: nat)
    requires TextsInv(e) && StateChanges(e, key, state, expected)
    ensures var f := AfterEdit(e, SetState(key, state, expected));
            && SelectionOf(f, key)
               == Some(Selection(state, SelectionOf(e, key).value.counter + 1, SelectionOf(e, key).value.selected))
            && SelectionOf(e, key).value.state != state && f.translations[key].id == e.translations[key].id
            && OtherTranslationsKept(e, f, key) && f.sourceLog == e.sourceLog && f.targetLog == e.targetLog
  {
  }

  /** A review comes between draft and approval, and after it only another draft: every other change is allowed. */
  lemma ReviewsAreNotSkipped(current: EditorState, requested: EditorState)
    ensures TransitionAllowed(current, requested) <==>
            && current != requested
            && !(current == Draft && requested == Approved) && !(current == Approved && requested == InReview)
  {
  }

  /**
   * When a request is granted: the counter is the one the editor saw, it would change something, and what is sent to
   * review or approved was written against the active source. Otherwise nothing changes.
   */
  lemma GrantedExactly(e: Texts, edit: Edit)
    requires TextsInv(e)
    ensures AfterEdit(e, edit) != e <==>
            match edit
            case UpdateSource(dialogue, text, expected) =>
              && text != "" && dialogue in e.sources && e.sources[dialogue].counter == expected
              && e.sourceLog[e.sources[dialogue].selected].text != text
            case SelectSource(dialogue, revision, expected) =>
              && dialogue in e.sources && e.sources[dialogue].counter == expected
              && e.sources[dialogue].selected != revision
              && revision < |e.sourceLog| && e.sourceLog[revision].dialogue == dialogue
            case UpdateTarget(key, text, expected) =>
              && text != "" && key.dialogue in e.sources
              && if SelectionOf(e, key).None? then expected == 0
                 else SelectionOf(e, key).value.counter == expected
                      && e.targetLog[SelectionOf(e, key).value.selected].text != text
            case SetState(key, state, expected) =>
              && SelectionOf(e, key).Some? && SelectionOf(e, key).value.counter == expected
              && TransitionAllowed(SelectionOf(e, key).value.state, state)
              && (state != Draft ==>
                    e.targetLog[SelectionOf(e, key).value.selected].source == e.sources[key.dialogue].selected)
            case SelectTarget(key, revision, expected) =>
              && SelectionOf(e, key).Some? && SelectionOf(e, key).value.counter == expected
              && SelectionOf(e, key).value.selected != revision
              && revision < |e.targetLog| && e.targetLog[revision].key == key
  {
    match edit
    case UpdateSource(dialogue, text, expected) => if dialogue in e.sources { assert SourceOk(e, dialogue); }
    case SelectSource(dialogue, revision, expected) => if dialogue in e.sources { assert SourceOk(e, dialogue); }
    case UpdateTarget(key, text, expected) => if key in e.translations { assert TranslationOk(e, key); }
    case SetState(key, state, expected) => if key in e.translations { assert TranslationOk(e, key); }
    case SelectTarget(key, revision, expected) => if key in e.translations { assert TranslationOk(e, key); }
  }

  // ---- Counters ----

  /**
   * `f` is `e` after some writes to one translation: the translation keeps its id, and its selection is the old
   * one or has a higher counter; a source selection changes only together with the translation's counter.
   */
  ghost predicate Counted(e: Texts, f: Texts, key: Key) {
    key in e.translations ==>
      && key in f.translations && f.translations[key].id == e.translations[key].id
      && Counter(SelectionOf(e, key)) <= Counter(SelectionOf(f, key))
      && (Counter(SelectionOf(e, key)) == Counter(SelectionOf(f, key)) ==>
            && SelectionOf(e, key) == SelectionOf(f, key)
            && (key.dialogue in e.sources ==>
              key.dialogue in f.sources && f.sources[key.dialogue] == e.sources[key.dialogue]))
  }

  /** One step writes a selection at most once: the counter rises by exactly one when anything about it changes. */
  ghost predicate CountedByOne(e: Texts, f: Texts, key: Key) {
    Counted(e, f, key) && Counter(SelectionOf(f, key)) <= Counter(SelectionOf(e, key)) + 1
  }

  lemma EditCounts(e: Texts, edit: Edit, key: Key)
    requires TextsInv(e)
    ensures CountedByOne(e, AfterEdit(e, edit), key)
    ensures e.sourceLog <= AfterEdit(e, edit).sourceLog && e.targetLog <= AfterEdit(e, edit).targetLog
  {
    if key in e.translations { assert TranslationOk(e, key); }
  }

  lemma CountedTransitive(e: Texts, f: Texts, g: Texts, key: Key)
    requires Counted(e, f, key) && Counted(f, g, key)
    ensures Counted(e, g, key)
  {
  }
}
