/** Overlap flags for speaker turns: two linear passes instead of a pairwise comparison. */
module Overlap {

  import opened Wrappers

  /** A half-open interval `[startUs, endUs)` of one speaker. */
  datatype Turn<K> = Turn(startUs: int, endUs: int, speakerKey: K)

  datatype Boundary<K> = Boundary(positionUs: int, speakerKey: K)

  type Slots<K> = (Option<Boundary<K>>, Option<Boundary<K>>)

  function UpdateMaximum<K(==)>(first: Option<Boundary<K>>, second: Option<Boundary<K>>, speakerKey: K,
                                positionUs: int): Slots<K> {
    var candidate := Boundary(positionUs, speakerKey);
    if first.None? then (Some(candidate), second)
    else if first.value.speakerKey == speakerKey then
      (if positionUs > first.value.positionUs then Some(candidate) else first, second)
    else if second.Some? && second.value.speakerKey == speakerKey then
      var updated := if positionUs > second.value.positionUs then candidate else second.value;
      if updated.positionUs > first.value.positionUs then (Some(updated), first) else (first, Some(updated))
    else if positionUs > first.value.positionUs then (Some(candidate), first)
    else if second.None? || positionUs > second.value.positionUs then (first, Some(candidate))
    else (first, second)
  }

  function UpdateMinimum<K(==)>(first: Option<Boundary<K>>, second: Option<Boundary<K>>, speakerKey: K,
                                positionUs: int): Slots<K> {
    var candidate := Boundary(positionUs, speakerKey);
    if first.None? then (Some(candidate), second)
    else if first.value.speakerKey == speakerKey then
      (if positionUs < first.value.positionUs then Some(candidate) else first, second)
    else if second.Some? && second.value.speakerKey == speakerKey then
      var updated := if positionUs < second.value.positionUs then candidate else second.value;
      if updated.positionUs < first.value.positionUs then (Some(updated), first) else (first, Some(updated))
    else if positionUs < first.value.positionUs then (Some(candidate), first)
    else if second.None? || positionUs < second.value.positionUs then (first, Some(candidate))
    else (first, second)
  }

  /**
   * The first slot holds the greatest boundary seen; the second the greatest among the
   * speakers other than the first slot's.
   */
  ghost predicate TopTwo<K>(slots: Slots<K>, seen: seq<Boundary<K>>) {
    var (first, second) := slots;
    && (first.None? <==> seen == [])
    && (first.None? ==> second.None?)
    && (first.Some? ==>
          && first.value in seen
          && (forall b :: b in seen ==> b.positionUs <= first.value.positionUs)
          && (second.None? ==> forall b :: b in seen ==> b.speakerKey == first.value.speakerKey)
          && (second.Some? ==>
                && second.value in seen && second.value.speakerKey != first.value.speakerKey
                && forall b :: b in seen && b.speakerKey != first.value.speakerKey ==>
                  b.positionUs <= second.value.positionUs))
  }

  lemma TopTwoAfterUpdate<K>(slots: Slots<K>, seen: seq<Boundary<K>>, speakerKey: K, positionUs: int)
    requires TopTwo(slots, seen)
    ensures TopTwo(UpdateMaximum(slots.0, slots.1, speakerKey, positionUs), seen + [Boundary(positionUs, speakerKey)])
  {
    var now := seen + [Boundary(positionUs, speakerKey)];
    assert now[|seen|] == Boundary(positionUs, speakerKey);
    assert forall b :: b in now <==> b in seen || b == Boundary(positionUs, speakerKey);
  }

  function Mirror<K>(o: Option<Boundary<K>>): Option<Boundary<K>> {
    if o.None? then None else Some(Boundary(-o.value.positionUs, o.value.speakerKey))
  }

  /** The minimum pass is the maximum pass on the mirrored time axis. */
  lemma MinimumMirrorsMaximum<K>(first: Option<Boundary<K>>, second: Option<Boundary<K>>, speakerKey: K,
                                 positionUs: int)
    ensures var low := UpdateMinimum(first, second, speakerKey, positionUs);
            (Mirror(low.0), Mirror(low.1)) == UpdateMaximum(Mirror(first), Mirror(second), speakerKey, -positionUs)
  {
  }

  function OtherSpeaker<K(==)>(first: Option<Boundary<K>>, second: Option<Boundary<K>>,
                               speakerKey: K): Option<Boundary<K>> {
    if first.Some? && first.value.speakerKey == speakerKey then second else first
  }

  /** The slot of another speaker passes a limit exactly when some boundary of another speaker does. */
  lemma OtherSpeakerIsExtreme<K>(slots: Slots<K>, seen: seq<Boundary<K>>, speakerKey: K, limit: int)
    requires TopTwo(slots, seen)
    ensures var other := OtherSpeaker(slots.0, slots.1, speakerKey);
            (other.Some? && other.value.positionUs > limit)
            <==> exists b :: b in seen && b.speakerKey != speakerKey && b.positionUs > limit
  {
  }

  function Ends<K>(turns: seq<Turn<K>>): seq<Boundary<K>> {
    seq(|turns|, i requires 0 <= i < |turns| => Boundary(turns[i].endUs, turns[i].speakerKey))
  }

  /** The mirrored starts of `turns[i..]`, latest turn first. */
  function MirroredStarts<K>(turns: seq<Turn<K>>, i: nat): seq<Boundary<K>>
    requires i <= |turns|
  {
    seq(|turns| - i, k requires 0 <= k < |turns| - i =>
      Boundary(-turns[|turns| - 1 - k].startUs, turns[|turns| - 1 - k].speakerKey))
  }

  ghost predicate EarlierReaches<K>(turns: seq<Turn<K>>, i: nat)
    requires i < |turns|
  {
    exists j :: 0 <= j < i && turns[j].speakerKey != turns[i].speakerKey && turns[j].endUs > turns[i].startUs
  }

  ghost predicate LaterReaches<K>(turns: seq<Turn<K>>, i: nat)
    requires i < |turns|
  {
    exists j :: i < j < |turns| && turns[j].speakerKey != turns[i].speakerKey && turns[j].startUs < turns[i].endUs
  }

  lemma EarlierBySlots<K>(turns: seq<Turn<K>>, i: nat, slots: Slots<K>)
    requires i < |turns| && TopTwo(slots, Ends(turns)[..i])
    ensures var other := OtherSpeaker(slots.0, slots.1, turns[i].speakerKey);
            (other.Some? && other.value.positionUs > turns[i].startUs) <==> EarlierReaches(turns, i)
  {
    var seen := Ends(turns)[..i];
    OtherSpeakerIsExtreme(slots, seen, turns[i].speakerKey, turns[i].startUs);
    if b :| b in seen && b.speakerKey != turns[i].speakerKey && b.positionUs > turns[i].startUs {
      var j :| 0 <= j < i && seen[j] == b;
      assert EarlierReaches(turns, i);
    }
    if j :| 0 <= j < i && turns[j].speakerKey != turns[i].speakerKey && turns[j].endUs > turns[i].startUs {
      assert seen[j] in seen;
    }
  }

  lemma LaterBySlots<K>(turns: seq<Turn<K>>, i: nat, slots: Slots<K>)
    requires i < |turns| && TopTwo(slots, MirroredStarts(turns, i + 1))
    ensures var other := OtherSpeaker(slots.0, slots.1, turns[i].speakerKey);
            (other.Some? && other.value.positionUs > -turns[i].endUs) <==> LaterReaches(turns, i)
  {
    var seen := MirroredStarts(turns, i + 1);
    OtherSpeakerIsExtreme(slots, seen, turns[i].speakerKey, -turns[i].endUs);
    if b :| b in seen && b.speakerKey != turns[i].speakerKey && b.positionUs > -turns[i].endUs {
      var k :| 0 <= k < |seen| && seen[k] == b;
      assert turns[|turns| - 1 - k].startUs < turns[i].endUs;
    }
    if j :| i < j < |turns| && turns[j].speakerKey != turns[i].speakerKey && turns[j].startUs < turns[i].endUs {
      assert seen[|turns| - 1 - j] in seen;
    }
  }

  predicate Intersect<K>(a: Turn<K>, b: Turn<K>) {
    a.startUs < b.endUs && b.startUs < a.endUs
  }

  ghost predicate OverlapsOtherSpeaker<K>(turns: seq<Turn<K>>, i: nat)
    requires i < |turns|
  {
    exists j :: 0 <= j < |turns| && j != i && turns[j].speakerKey != turns[i].speakerKey
      && Intersect(turns[i], turns[j])
  }

  ghost predicate StartSorted<K>(turns: seq<Turn<K>>) {
    forall i, j :: 0 <= i < j < |turns| ==> turns[i].startUs <= turns[j].startUs
  }

  ghost predicate NonEmptyTurns<K>(turns: seq<Turn<K>>) {
    forall i :: 0 <= i < |turns| ==> turns[i].startUs < turns[i].endUs
  }

  /** On start-sorted, non-empty turns the one-sided tests of the two passes decide intersection. */
  lemma ReachIsOverlap<K>(turns: seq<Turn<K>>, i: nat)
    requires i < |turns| && StartSorted(turns) && NonEmptyTurns(turns)
    ensures EarlierReaches(turns, i) || LaterReaches(turns, i) <==> OverlapsOtherSpeaker(turns, i)
  {
    if j :| 0 <= j < i && turns[j].speakerKey != turns[i].speakerKey && turns[j].endUs > turns[i].startUs {
      assert Intersect(turns[i], turns[j]);
    }
    if j :| i < j < |turns| && turns[j].speakerKey != turns[i].speakerKey && turns[j].startUs < turns[i].endUs {
      assert Intersect(turns[i], turns[j]);
    }
  }

  /** Without the start order the passes flag turns that nobody else speaks over; they never miss one. */
  lemma UnsortedTurnsMislead() returns (turns: seq<Turn<string>>)
    ensures NonEmptyTurns(turns) && |turns| == 2
    ensures (EarlierReaches(turns, 1) || LaterReaches(turns, 1)) && !OverlapsOtherSpeaker(turns, 1)
  {
    turns := [Turn(10, 20, "a"), Turn(0, 5, "b")];
    assert turns[0].endUs > turns[1].startUs;
  }

  ghost predicate ForwardSlots<K>(turns: seq<Turn<K>>, i: nat, slots: Slots<K>)
    requires i <= |turns|
  {
    TopTwo(slots, Ends(turns)[..i])
  }

  ghost predicate BackwardSlots<K>(turns: seq<Turn<K>>, i: nat, slots: Slots<K>)
    requires i <= |turns|
  {
    TopTwo((Mirror(slots.0), Mirror(slots.1)), MirroredStarts(turns, i))
  }

  lemma ForwardStep<K>(turns: seq<Turn<K>>, i: nat, slots: Slots<K>)
    requires i < |turns| && ForwardSlots(turns, i, slots)
    ensures ForwardSlots(turns, i + 1, UpdateMaximum(slots.0, slots.1, turns[i].speakerKey, turns[i].endUs))
    ensures var other := OtherSpeaker(slots.0, slots.1, turns[i].speakerKey);
            (other.Some? && other.value.positionUs > turns[i].startUs) <==> EarlierReaches(turns, i)
  {
    EarlierBySlots(turns, i, slots);
    TopTwoAfterUpdate(slots, Ends(turns)[..i], turns[i].speakerKey, turns[i].endUs);
    assert Ends(turns)[..i + 1] == Ends(turns)[..i] + [Boundary(turns[i].endUs, turns[i].speakerKey)];
  }

  lemma BackwardStep<K>(turns: seq<Turn<K>>, i: nat, slots: Slots<K>)
    requires i < |turns| && BackwardSlots(turns, i + 1, slots)
    ensures BackwardSlots(turns, i, UpdateMinimum(slots.0, slots.1, turns[i].speakerKey, turns[i].startUs))
    ensures var other := OtherSpeaker(slots.0, slots.1, turns[i].speakerKey);
            (other.Some? && other.value.positionUs < turns[i].endUs) <==> LaterReaches(turns, i)
  {
    var mirrored := (Mirror(slots.0), Mirror(slots.1));
    LaterBySlots(turns, i, mirrored);
    MinimumMirrorsMaximum(slots.0, slots.1, turns[i].speakerKey, turns[i].startUs);
    TopTwoAfterUpdate(mirrored, MirroredStarts(turns, i + 1), turns[i].speakerKey, -turns[i].startUs);
    assert MirroredStarts(turns, i) ==
           MirroredStarts(turns, i + 1) + [Boundary(-turns[i].startUs, turns[i].speakerKey)];
  }

  ghost predicate Flag<K>(turns: seq<Turn<K>>, i: nat)
    requires i < |turns|
  {
    EarlierReaches(turns, i) || LaterReaches(turns, i)
  }

  /** Turn `i` is listed after turn `j` of another speaker and yet is over before that one begins. */
  ghost predicate Inverted<K>(turns: seq<Turn<K>>, j: nat, i: nat)
    requires j < i < |turns|
  {
    turns[j].speakerKey != turns[i].speakerKey && turns[i].endUs <= turns[j].startUs
  }

  /** Turns out of order do no harm where both are spoken over by somebody else anyway. */
  ghost predicate InversionsOverlap<K>(turns: seq<Turn<K>>) {
    forall j, i :: 0 <= j < i < |turns| && Inverted(turns, j, i) ==>
      OverlapsOtherSpeaker(turns, i) && OverlapsOtherSpeaker(turns, j)
  }

  ghost predicate FlagsMeanOverlap<K>(turns: seq<Turn<K>>) {
    forall i :: 0 <= i < |turns| ==> (Flag(turns, i) <==> OverlapsOtherSpeaker(turns, i))
  }

  /** In any order, and with empty turns among them, every overlap is flagged. */
  lemma OverlapIsFlagged<K>(turns: seq<Turn<K>>, i: nat)
    requires i < |turns| && OverlapsOtherSpeaker(turns, i)
    ensures Flag(turns, i)
  {
    var j :| 0 <= j < |turns| && j != i && turns[j].speakerKey != turns[i].speakerKey && Intersect(turns[i], turns[j]);
    if j < i { assert EarlierReaches(turns, i); } else { assert LaterReaches(turns, i); }
  }

  /** A flagged turn that nobody speaks over was flagged by a turn out of order with it. */
  lemma FalseFlag<K>(turns: seq<Turn<K>>, i: nat)
    requires i < |turns| && NonEmptyTurns(turns) && Flag(turns, i) && !OverlapsOtherSpeaker(turns, i)
    ensures !InversionsOverlap(turns)
  {
    if j :| 0 <= j < i && turns[j].speakerKey != turns[i].speakerKey && turns[j].endUs > turns[i].startUs {
      assert !Intersect(turns[i], turns[j]);
      assert Inverted(turns, j, i);
    } else {
      var j :| i < j < |turns| && turns[j].speakerKey != turns[i].speakerKey && turns[j].startUs < turns[i].endUs;
      assert !Intersect(turns[i], turns[j]);
      assert Inverted(turns, i, j);
    }
  }

  /** Both turns of a pair out of order are flagged. */
  lemma InvertedAreFlagged<K>(turns: seq<Turn<K>>, j: nat, i: nat)
    requires j < i < |turns| && NonEmptyTurns(turns) && Inverted(turns, j, i)
    ensures Flag(turns, i) && Flag(turns, j)
  {
    assert turns[j].endUs > turns[i].startUs && turns[i].startUs < turns[j].endUs;
    assert EarlierReaches(turns, i) && LaterReaches(turns, j);
  }

  /** Exactly when the flags mean overlap, for turns in any order. */
  lemma FlagsAreOverlapsExactly<K>(turns: seq<Turn<K>>)
    requires NonEmptyTurns(turns)
    ensures FlagsMeanOverlap(turns) <==> InversionsOverlap(turns)
    ensures StartSorted(turns) ==> InversionsOverlap(turns)
  {
    if FlagsMeanOverlap(turns) {
      forall j, i | 0 <= j < i < |turns| && Inverted(turns, j, i)
        ensures OverlapsOtherSpeaker(turns, i) && OverlapsOtherSpeaker(turns, j)
      {
        InvertedAreFlagged(turns, j, i);
      }
    }
    if InversionsOverlap(turns) {
      forall i | 0 <= i < |turns| ensures Flag(turns, i) <==> OverlapsOtherSpeaker(turns, i) {
        if OverlapsOtherSpeaker(turns, i) {
          OverlapIsFlagged(turns, i);
        } else if Flag(turns, i) {
          FalseFlag(turns, i);
        }
      }
    }
  }

  /**
   * What the flags are for. Every turn spoken over by another speaker is flagged; of non-empty turns the flagged ones
   * are those exactly if turns out of order are spoken over anyway, as in a start-sorted list, which has none.
   */
  ghost predicate FlagsDecide<K>(turns: seq<Turn<K>>, flags: seq<bool>)
    requires |flags| == |turns|
  {
    && (forall i :: 0 <= i < |turns| && OverlapsOtherSpeaker(turns, i) ==> flags[i])
    && (NonEmptyTurns(turns) ==> (FlagsAreOverlaps(turns, flags) <==> InversionsOverlap(turns)))
    && (NonEmptyTurns(turns) && StartSorted(turns) ==> FlagsAreOverlaps(turns, flags))
  }

  ghost predicate FlagsAreOverlaps<K>(turns: seq<Turn<K>>, flags: seq<bool>)
    requires |flags| == |turns|
  {
    forall i :: 0 <= i < |turns| ==> (flags[i] <==> OverlapsOtherSpeaker(turns, i))
  }

  lemma OverlapsAreFlagged<K>(turns: seq<Turn<K>>, flags: seq<bool>)
    requires |flags| == |turns| && forall i :: 0 <= i < |turns| ==> (flags[i] <==> Flag(turns, i))
    ensures FlagsDecide(turns, flags)
  {
    forall i | 0 <= i < |turns| && OverlapsOtherSpeaker(turns, i) ensures flags[i] { OverlapIsFlagged(turns, i); }
    if NonEmptyTurns(turns) {
      FlagsAreOverlapsExactly(turns);
      assert FlagsMeanOverlap(turns) <==> FlagsAreOverlaps(turns, flags);
    }
  }

  /** What the first pass has flagged once it has seen the first `n` turns. */
  ghost predicate ForwardFlags<K>(turns: seq<Turn<K>>, flags: seq<bool>, n: nat)
    requires |flags| == |turns| && n <= |turns|
  {
    && (forall i :: 0 <= i < n ==> (flags[i] <==> EarlierReaches(turns, i)))
    && (forall i :: n <= i < |turns| ==> !flags[i])
  }

  /** What both passes have flagged once the second has seen the turns from `n` on. */
  ghost predicate BackwardFlags<K>(turns: seq<Turn<K>>, flags: seq<bool>, n: nat)
    requires |flags| == |turns| && n <= |turns|
  {
    && (forall i :: 0 <= i < n ==> (flags[i] <==> EarlierReaches(turns, i)))
    && (forall i :: n <= i < |turns| ==> (flags[i] <==> Flag(turns, i)))
  }

  function FlaggedIf(flags: seq<bool>, i: nat, condition: bool): seq<bool>
    requires i < |flags|
  {
    if condition then flags[i := true] else flags
  }

  /** One turn of the first pass. */
  lemma ForwardPass<K>(turns: seq<Turn<K>>, i: nat, slots: Slots<K>, flags: seq<bool>)
    requires i < |turns| == |flags| && ForwardSlots(turns, i, slots) && ForwardFlags(turns, flags, i)
    ensures ForwardSlots(turns, i + 1, UpdateMaximum(slots.0, slots.1, turns[i].speakerKey, turns[i].endUs))
    ensures var other := OtherSpeaker(slots.0, slots.1, turns[i].speakerKey);
            ForwardFlags(turns, FlaggedIf(flags, i, other.Some? && other.value.positionUs > turns[i].startUs), i + 1)
  {
    ForwardStep(turns, i, slots);
  }

  /** One turn of the second pass. */
  lemma BackwardPass<K>(turns: seq<Turn<K>>, i: nat, slots: Slots<K>, flags: seq<bool>)
    requires i < |turns| == |flags| && BackwardSlots(turns, i + 1, slots) && BackwardFlags(turns, flags, i + 1)
    ensures BackwardSlots(turns, i, UpdateMinimum(slots.0, slots.1, turns[i].speakerKey, turns[i].startUs))
    ensures var other := OtherSpeaker(slots.0, slots.1, turns[i].speakerKey);
            BackwardFlags(turns, FlaggedIf(flags, i, other.Some? && other.value.positionUs < turns[i].endUs), i)
  {
    BackwardStep(turns, i, slots);
  }

  /** Both passes over any list. */
  method OverlappingTurnFlags<K(==)>(turns: seq<Turn<K>>) returns (flags: array<bool>)
    ensures flags.Length == |turns|
    ensures forall i :: 0 <= i < |turns| ==> (flags[i] <==> Flag(turns, i))
    ensures FlagsDecide(turns, flags[..])
  {
    flags := new bool[|turns|](_ => false);
    var slots: Slots<K> := (None, None);
    var index := 0;
    while index < |turns|
      invariant 0 <= index <= |turns|
      invariant ForwardSlots(turns, index, slots)
      invariant ForwardFlags(turns, flags[..], index)
    {
      var turn := turns[index];
      ghost var before := flags[..];
      ForwardPass(turns, index, slots, before);
      var other := OtherSpeaker(slots.0, slots.1, turn.speakerKey);
      if other.Some? && other.value.positionUs > turn.startUs {
        flags[index] := true;
      }
      assert flags[..] == FlaggedIf(before, index, other.Some? && other.value.positionUs > turn.startUs);
      slots := UpdateMaximum(slots.0, slots.1, turn.speakerKey, turn.endUs);
      index := index + 1;
    }

    slots, index := (None, None), |turns| - 1;
    while index >= 0
      invariant -1 <= index < |turns|
      invariant BackwardSlots(turns, index + 1, slots)
      invariant BackwardFlags(turns, flags[..], index + 1)
    {
      var turn := turns[index];
      ghost var before := flags[..];
      BackwardPass(turns, index, slots, before);
      var other := OtherSpeaker(slots.0, slots.1, turn.speakerKey);
      if other.Some? && other.value.positionUs < turn.endUs {
        flags[index] := true;
      }
      assert flags[..] == FlaggedIf(before, index, other.Some? && other.value.positionUs < turn.endUs);
      slots := UpdateMinimum(slots.0, slots.1, turn.speakerKey, turn.startUs);
      index := index - 1;
    }
    OverlapsAreFlagged(turns, flags[..]);
  }
}
