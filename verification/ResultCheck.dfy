/** Acceptance of a translation executor's result against the command it answers. */
module ResultCheck {
  import opened Sorting

  datatype CommandedDialogue = CommandedDialogue(dialogueId: string, sourceRevisionId: string)

  datatype Translation = Translation(dialogueId: string, sourceRevisionId: string, targetText: string)

  datatype Verdict = Accepted | CardinalityMismatch | DialogueMismatch | DialogueMissing

  function Ids(command: seq<CommandedDialogue>): (ids: seq<string>)
    ensures |ids| == |command| && forall i :: 0 <= i < |command| ==> ids[i] == command[i].dialogueId
  {
    seq(|command|, i requires 0 <= i < |command| => command[i].dialogueId)
  }

  /** The commanded pair a translation answers. */
  function Pairs(translations: seq<Translation>): (pairs: seq<CommandedDialogue>)
    ensures |pairs| == |translations|
    ensures forall i :: 0 <= i < |pairs| ==>
      pairs[i] == CommandedDialogue(translations[i].dialogueId, translations[i].sourceRevisionId)
  {
    seq(|translations|, i requires 0 <= i < |translations| =>
      CommandedDialogue(translations[i].dialogueId, translations[i].sourceRevisionId))
  }

  /** A map built from entries in order; a later entry replaces an earlier one with its key. */
  function Expected(command: seq<CommandedDialogue>): map<string, string> {
    if command == [] then map[]
    else
      var last := command[|command| - 1];
      Expected(command[..|command| - 1])[last.dialogueId := last.sourceRevisionId]
  }

  lemma DistinctExtended(ids: seq<string>, last: string)
    ensures Distinct(ids + [last]) <==> Distinct(ids) && last !in ids
  {
    var longer, n := ids + [last], |ids|;
    if Distinct(longer) {
      forall i, j | 0 <= i < j < n ensures ids[i] != ids[j] { assert longer[i] != longer[j]; }
      forall i | 0 <= i < n ensures ids[i] != last { assert longer[i] != longer[n]; }
    }
    if Distinct(ids) && last !in ids {
      forall i, j | 0 <= i < j < |longer| ensures longer[i] != longer[j] {
        if j == n { assert ids[i] in ids; }
      }
    }
  }

  lemma {:induction false} ExpectedKeys(command: seq<CommandedDialogue>)
    ensures forall id :: id in Expected(command) <==> id in Ids(command)
    ensures |Expected(command)| <= |command|
    ensures |Expected(command)| == |command| <==> Distinct(Ids(command))
  {
    if command != [] {
      var n := |command| - 1;
      var before, last := command[..n], command[n].dialogueId;
      ExpectedKeys(before);
      assert Ids(command) == Ids(before) + [last];
      DistinctExtended(Ids(before), last);
    }
  }

  lemma {:induction false} ExpectedEntry(command: seq<CommandedDialogue>, i: nat)
    requires Distinct(Ids(command)) && i < |command|
    ensures command[i].dialogueId in Expected(command)
      && Expected(command)[command[i].dialogueId] == command[i].sourceRevisionId
  {
    var n := |command| - 1;
    if i < n {
      forall j, k | 0 <= j < k < n
        ensures Ids(command[..n])[j] != Ids(command[..n])[k]
      {
        assert Ids(command)[j] != Ids(command)[k];
      }
      ExpectedEntry(command[..n], i);
      assert Ids(command)[i] != Ids(command)[n];
    }
  }

  lemma {:induction false} EntryCommanded(command: seq<CommandedDialogue>, id: string)
    requires id in Expected(command)
    ensures CommandedDialogue(id, Expected(command)[id]) in command
  {
    var n := |command| - 1;
    if id != command[n].dialogueId { EntryCommanded(command[..n], id); }
  }

  /** The entries left after `k` translations were matched: nothing matched twice, nothing else removed. */
  ghost predicate Matched(expected: map<string, string>, rest: map<string, string>, pairs: seq<CommandedDialogue>) {
    && Distinct(Ids(pairs))
    && |rest| == |expected| - |pairs|
    && (forall p :: p in pairs ==>
          p.dialogueId in expected && expected[p.dialogueId] == p.sourceRevisionId && p.sourceRevisionId != "")
    && (forall id :: id in rest <==> id in expected && id !in Ids(pairs))
    && (forall id :: id in rest ==> rest[id] == expected[id])
  }

  lemma MatchOne(expected: map<string, string>, rest: map<string, string>, pairs: seq<CommandedDialogue>,
                 p: CommandedDialogue)
    requires Matched(expected, rest, pairs)
    requires p.dialogueId in rest && rest[p.dialogueId] == p.sourceRevisionId && p.sourceRevisionId != ""
    ensures Matched(expected, rest - {p.dialogueId}, pairs + [p])
  {
    assert Ids(pairs + [p]) == Ids(pairs) + [p.dialogueId];
    forall i | 0 <= i < |pairs| ensures Ids(pairs)[i] != p.dialogueId { assert Ids(pairs)[i] in Ids(pairs); }
    var after := rest - {p.dialogueId};
    assert after.Keys == rest.Keys - {p.dialogueId};
    assert |after| == |after.Keys| && |rest| == |rest.Keys|;
  }

  ghost predicate AnswersExactly(translations: seq<Translation>, command: seq<CommandedDialogue>) {
    Answers(Pairs(translations), command)
  }

  ghost predicate Answers(pairs: seq<CommandedDialogue>, command: seq<CommandedDialogue>) {
    && multiset(pairs) == multiset(command)
    && Distinct(Ids(command))
    && forall c :: c in command ==> c.sourceRevisionId != ""
  }

  lemma DifferentLengths(pairs: seq<CommandedDialogue>, command: seq<CommandedDialogue>)
    requires |pairs| != |command|
    ensures !Answers(pairs, command)
  {
    if multiset(pairs) == multiset(command) { SameElements(pairs, command); }
  }

  /** A translation whose dialogue is known and already matched repeats an earlier pair. */
  lemma MatchedBefore(all: map<string, string>, rest: map<string, string>, pairs: seq<CommandedDialogue>,
                      p: CommandedDialogue)
      returns (i: nat)
    requires Matched(all, rest, pairs) && p.dialogueId in all && p.dialogueId !in rest
    ensures i < |pairs| && pairs[i].dialogueId == p.dialogueId
  {
    i :| 0 <= i < |pairs| && Ids(pairs)[i] == p.dialogueId;
  }

  lemma MismatchRejects(all: map<string, string>, rest: map<string, string>, pairs: seq<CommandedDialogue>, k: nat,
                        command: seq<CommandedDialogue>)
    requires k < |pairs| == |command| && all == Expected(command) && Matched(all, rest, pairs[..k])
    requires var p := pairs[k];
             p.dialogueId !in rest || rest[p.dialogueId] == "" || rest[p.dialogueId] != p.sourceRevisionId
    ensures !Answers(pairs, command)
  {
    if Answers(pairs, command) {
      var p := pairs[k];
      CommandedEntry(all, pairs, k, command);
      assert p.dialogueId !in rest;
      var i := MatchedBefore(all, rest, pairs[..k], p);
      RepeatRejects(pairs, command, i, k);
    }
  }

  lemma CommandedEntry(all: map<string, string>, pairs: seq<CommandedDialogue>, k: nat, command: seq<CommandedDialogue>)
    requires k < |pairs| && all == Expected(command) && Answers(pairs, command)
    ensures pairs[k].dialogueId in all && all[pairs[k].dialogueId] == pairs[k].sourceRevisionId
      && pairs[k].sourceRevisionId != ""
  {
    SameElements(pairs, command);
    assert pairs[k] in command;
    var c :| 0 <= c < |command| && command[c] == pairs[k];
    ExpectedEntry(command, c);
  }

  lemma RepeatRejects(pairs: seq<CommandedDialogue>, command: seq<CommandedDialogue>, i: nat, k: nat)
    requires i < k < |pairs| && pairs[i].dialogueId == pairs[k].dialogueId
    ensures !Answers(pairs, command)
  {
    if Answers(pairs, command) {
      SameIdSamePair(pairs, command, i, k);
      RepeatedCounts(pairs, i, k);
      DistinctIdsDistinct(command);
      DistinctCounts(command, pairs[k]);
    }
  }

  lemma SameIdSamePair(pairs: seq<CommandedDialogue>, command: seq<CommandedDialogue>, i: nat, j: nat)
    requires Answers(pairs, command) && i < |pairs| && j < |pairs| && pairs[i].dialogueId == pairs[j].dialogueId
    ensures pairs[i] == pairs[j]
  {
    SameElements(pairs, command);
    assert pairs[i] in command && pairs[j] in command;
    var a :| 0 <= a < |command| && command[a] == pairs[i];
    var b :| 0 <= b < |command| && command[b] == pairs[j];
    assert Ids(command)[a] == Ids(command)[b];
  }

  lemma DistinctIdsDistinct(command: seq<CommandedDialogue>)
    requires Distinct(Ids(command))
    ensures Distinct(command)
  {
    forall i, j | 0 <= i < j < |command| ensures command[i] != command[j] { assert Ids(command)[i] != Ids(command)[j]; }
  }

  lemma MatchedAll(all: map<string, string>, rest: map<string, string>, pairs: seq<CommandedDialogue>,
                   command: seq<CommandedDialogue>)
    requires |pairs| == |command| && all == Expected(command) && Matched(all, rest, pairs) && |rest| == 0
    ensures Answers(pairs, command)
  {
    ExpectedKeys(command);
    assert rest == map[];
    forall p ensures p in pairs <==> p in command {
      if p in command {
        var c :| 0 <= c < |command| && command[c] == p;
        ExpectedEntry(command, c);
        assert p.dialogueId in Ids(pairs);
        var i :| 0 <= i < |pairs| && Ids(pairs)[i] == p.dialogueId;
        assert pairs[i] in pairs;
      }
      if p in pairs { EntryCommanded(command, p.dialogueId); }
    }
    DistinctIdsDistinct(pairs);
    DistinctIdsDistinct(command);
    DistinctSameSet(pairs, command);
  }

  /** An accepted result answers every commanded dialogue, with the commanded revision, and only once. */
  lemma AcceptedAnswersOnce(translations: seq<Translation>, command: seq<CommandedDialogue>, c: CommandedDialogue)
    requires AnswersExactly(translations, command) && c in command
    ensures exists i ::
              && 0 <= i < |translations| && translations[i].dialogueId == c.dialogueId
              && translations[i].sourceRevisionId == c.sourceRevisionId
    ensures forall i, j :: 0 <= i < j < |translations| ==> translations[i].dialogueId != translations[j].dialogueId
  {
    var pairs := Pairs(translations);
    SameElements(pairs, command);
    assert c in pairs;
    var i :| 0 <= i < |pairs| && pairs[i] == c;
    assert translations[i].dialogueId == c.dialogueId;
    DistinctIdsDistinct(command);
    DistinctOfPermutation(command, pairs);
    forall i, j | 0 <= i < j < |translations| && translations[i].dialogueId == translations[j].dialogueId
      ensures pairs[i] == pairs[j]
    {
      SameIdSamePair(pairs, command, i, j);
    }
  }

  ghost predicate MatchedUpTo(all: map<string, string>, rest: map<string, string>, translations: seq<Translation>,
                              k: nat)
    requires k <= |translations|
  {
    Matched(all, rest, Pairs(translations)[..k])
  }

  /** The command has an entry left for this dialogue, with this source revision, which is not empty. */
  predicate Fits(rest: map<string, string>, t: Translation) {
    t.dialogueId in rest && rest[t.dialogueId] != "" && rest[t.dialogueId] == t.sourceRevisionId
  }

  /** The map without the entry a translation answered. */
  function Answered(rest: map<string, string>, t: Translation): map<string, string> {
    rest - {t.dialogueId}
  }

  lemma WrongCount(translations: seq<Translation>, command: seq<CommandedDialogue>)
    requires |translations| != |command|
    ensures !AnswersExactly(translations, command)
  {
    DifferentLengths(Pairs(translations), command);
  }

  lemma MatchStart(all: map<string, string>, translations: seq<Translation>)
    ensures MatchedUpTo(all, all, translations, 0)
  {
    assert Pairs(translations)[..0] == [];
  }

  lemma MatchFails(all: map<string, string>, rest: map<string, string>, translations: seq<Translation>, k: nat,
                   command: seq<CommandedDialogue>)
    requires k < |translations| == |command| && all == Expected(command) && MatchedUpTo(all, rest, translations, k)
    requires !Fits(rest, translations[k])
    ensures !AnswersExactly(translations, command)
  {
    MismatchRejects(all, rest, Pairs(translations), k, command);
  }

  lemma MatchEnd(all: map<string, string>, rest: map<string, string>, translations: seq<Translation>,
                 command: seq<CommandedDialogue>)
    requires |translations| == |command| && all == Expected(command)
      && MatchedUpTo(all, rest, translations, |translations|)
    ensures |rest| == 0 && AnswersExactly(translations, command)
  {
    var pairs := Pairs(translations);
    assert pairs[..|pairs|] == pairs;
    ExpectedKeys(command);
    MatchedAll(all, rest, pairs, command);
  }

  /** What is left of the map after the first `k` translations. */
  function Left(all: map<string, string>, translations: seq<Translation>, k: nat): map<string, string>
    requires k <= |translations|
  {
    if k == 0 then all else Answered(Left(all, translations, k - 1), translations[k - 1])
  }

  predicate FitUpTo(all: map<string, string>, translations: seq<Translation>, k: nat)
    requires k <= |translations|
  {
    k == 0 || (FitUpTo(all, translations, k - 1) && Fits(Left(all, translations, k - 1), translations[k - 1]))
  }

  lemma LeftNext(all: map<string, string>, translations: seq<Translation>, k: nat)
    requires 0 < k <= |translations| && FitUpTo(all, translations, k)
    ensures FitUpTo(all, translations, k - 1) && Fits(Left(all, translations, k - 1), translations[k - 1])
    ensures Left(all, translations, k) == Answered(Left(all, translations, k - 1), translations[k - 1])
  {
  }

  lemma MatchNext(all: map<string, string>, rest: map<string, string>, next: map<string, string>,
                  translations: seq<Translation>, k: nat)
    requires 0 < k <= |translations| && MatchedUpTo(all, rest, translations, k - 1) && Fits(rest, translations[k - 1])
    requires next == Answered(rest, translations[k - 1])
    ensures MatchedUpTo(all, next, translations, k)
  {
    var pairs := Pairs(translations);
    var before, p := pairs[..k - 1], pairs[k - 1];
    MatchOne(all, rest, before, p);
    assert pairs[..k] == before + [p] && next == rest - {p.dialogueId};
  }

  lemma {:induction false} FitMatched(all: map<string, string>, translations: seq<Translation>, k: nat)
    requires k <= |translations| && FitUpTo(all, translations, k)
    ensures MatchedUpTo(all, Left(all, translations, k), translations, k)
  {
    if k == 0 {
      MatchStart(all, translations);
    } else {
      LeftNext(all, translations, k);
      FitMatched(all, translations, k - 1);
      MatchNext(all, Left(all, translations, k - 1), Left(all, translations, k), translations, k);
    }
  }

  lemma LoopFails(translations: seq<Translation>, command: seq<CommandedDialogue>, k: nat)
    requires k < |translations| == |command| && FitUpTo(Expected(command), translations, k)
    requires !Fits(Left(Expected(command), translations, k), translations[k])
    ensures !AnswersExactly(translations, command)
  {
    FitMatched(Expected(command), translations, k);
    MatchFails(Expected(command), Left(Expected(command), translations, k), translations, k, command);
  }

  lemma LoopEnds(translations: seq<Translation>, command: seq<CommandedDialogue>)
    requires |translations| == |command| && FitUpTo(Expected(command), translations, |translations|)
    ensures |Left(Expected(command), translations, |translations|)| == 0 && AnswersExactly(translations, command)
  {
    FitMatched(Expected(command), translations, |translations|);
    MatchEnd(Expected(command), Left(Expected(command), translations, |translations|), translations, command);
  }

  method AssertCompleteResult(translations: seq<Translation>, command: seq<CommandedDialogue>)
      returns (verdict: Verdict)
    ensures verdict != DialogueMissing
    ensures verdict == CardinalityMismatch <==> |translations| != |command|
    ensures verdict == Accepted <==> AnswersExactly(translations, command)
  {
    if |translations| != |command| {
      WrongCount(translations, command);
      return CardinalityMismatch;
    }
    var expected := Expected(command);
    var k := 0;
    while k < |translations|
      invariant 0 <= k <= |translations|
      invariant expected == Left(Expected(command), translations, k)
      invariant FitUpTo(Expected(command), translations, k)
    {
      if !Fits(expected, translations[k]) {
        LoopFails(translations, command, k);
        return DialogueMismatch;
      }
      expected := Answered(expected, translations[k]);
      k := k + 1;
    }
    LoopEnds(translations, command);
    // Unreachable: each translation removed one of at most as many entries.
    if |expected| > 0 { return DialogueMissing; }
    return Accepted;
  }
}
