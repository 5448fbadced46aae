/** Validation of a transcription provider's timeline. */
module Transcript {

  datatype Word = Word(ordinal: int, startUs: int, endUs: int)

  datatype Segment = Segment(ordinal: int, startUs: int, endUs: int, words: seq<Word>)

  datatype Verdict = Accepted | InvalidOrdinal | OutOfRange | OverlappingSegments | InvalidWords

  /** What the response model guarantees before validation: non-negative, non-empty intervals. */
  ghost predicate WellFormed(segments: seq<Segment>) {
    forall i :: 0 <= i < |segments| ==>
      && 0 <= segments[i].startUs < segments[i].endUs
      && forall w :: w in segments[i].words ==> 0 <= w.startUs < w.endUs
  }

  predicate WordFits(segment: Segment, j: nat)
    requires j < |segment.words|
  {
    var word := segment.words[j];
    && word.ordinal == j
    && segment.startUs <= word.startUs && word.endUs <= segment.endUs
    && (j == 0 || segment.words[j - 1].endUs <= word.startUs)
  }

  /** The first check that segment `i` fails, in the order in which the checks are made. */
  ghost function Check(segments: seq<Segment>, durationUs: int, i: nat): Verdict
    requires i < |segments|
  {
    var segment := segments[i];
    if segment.ordinal != i then InvalidOrdinal
    else if segment.endUs > durationUs then OutOfRange
    else if i > 0 && segment.startUs < segments[i - 1].endUs then OverlappingSegments
    else if exists j :: 0 <= j < |segment.words| && !WordFits(segment, j) then InvalidWords
    else Accepted
  }

  method ValidateTranscriptionResult(segments: seq<Segment>, durationUs: int) returns (verdict: Verdict)
    ensures verdict.Accepted? <==> forall i :: 0 <= i < |segments| ==> Check(segments, durationUs, i).Accepted?
    ensures verdict.Accepted? && WellFormed(segments) ==> WordTimeline(AllWords(segments, |segments|), durationUs)
    ensures !verdict.Accepted? ==>
              exists i :: 0 <= i < |segments| && verdict == Check(segments, durationUs, i)
                          && forall k :: 0 <= k < i ==> Check(segments, durationUs, k).Accepted?
  {
    var previousEnd := 0;
    var i := 0;
    while i < |segments|
      invariant 0 <= i <= |segments|
      invariant i > 0 ==> previousEnd == segments[i - 1].endUs
      invariant forall k :: 0 <= k < i ==> Check(segments, durationUs, k).Accepted?
    {
      var segment := segments[i];
      if segment.ordinal != i {
        verdict := InvalidOrdinal;
        assert verdict == Check(segments, durationUs, i);
        return;
      }
      if segment.endUs > durationUs {
        verdict := OutOfRange;
        assert verdict == Check(segments, durationUs, i);
        return;
      }
      if i > 0 && segment.startUs < previousEnd {
        verdict := OverlappingSegments;
        assert verdict == Check(segments, durationUs, i);
        return;
      }
      var previousWordEnd := 0;
      var j := 0;
      while j < |segment.words|
        invariant 0 <= j <= |segment.words|
        invariant j > 0 ==> previousWordEnd == segment.words[j - 1].endUs
        invariant forall k :: 0 <= k < j ==> WordFits(segment, k)
      {
        var word := segment.words[j];
        if || word.ordinal != j
           || word.startUs < segment.startUs
           || word.endUs > segment.endUs
           || (j > 0 && word.startUs < previousWordEnd)
        {
          assert !WordFits(segment, j);
          verdict := InvalidWords;
          assert verdict == Check(segments, durationUs, i);
          return;
        }
        previousWordEnd := word.endUs;
        j := j + 1;
      }
      previousEnd := segment.endUs;
      i := i + 1;
    }
    verdict := Accepted;
    if WellFormed(segments) { AcceptedTranscriptIsTimeline(segments, durationUs); }
  }

  /** Each verdict names its own check, and the earlier checks passed. */
  lemma VerdictsNameChecks(segments: seq<Segment>, durationUs: int, i: nat)
    requires i < |segments|
    ensures var verdict, segment := Check(segments, durationUs, i), segments[i];
            && (verdict == InvalidOrdinal <==> segment.ordinal != i)
            && (verdict == OutOfRange <==> segment.ordinal == i && segment.endUs > durationUs)
            && (verdict in {OverlappingSegments, InvalidWords} ==> segment.ordinal == i && segment.endUs <= durationUs)
            && (verdict == OverlappingSegments ==> i > 0 && segments[i - 1].endUs > segment.startUs)
            && (verdict == InvalidWords ==> i == 0 || segments[i - 1].endUs <= segment.startUs)
  {
  }

  /** All words of the first `n` segments, in order. */
  function AllWords(segments: seq<Segment>, n: nat): seq<Word>
    requires n <= |segments|
  {
    if n == 0 then [] else AllWords(segments, n - 1) + segments[n - 1].words
  }

  lemma {:induction false} HasAllWords(segments: seq<Segment>, n: nat, i: nat, j: nat) returns (k: nat)
    requires i < n <= |segments| && j < |segments[i].words|
    ensures k < |AllWords(segments, n)| && AllWords(segments, n)[k] == segments[i].words[j]
  {
    if i == n - 1 {
      k := |AllWords(segments, n - 1)| + j;
    } else {
      k := HasAllWords(segments, n - 1, i, j);
    }
  }

  /** Sorted, pairwise disjoint and inside `[0, durationUs)`: the global reading of a timeline of words. */
  ghost predicate WordTimeline(words: seq<Word>, durationUs: int) {
    && (forall i, j :: 0 <= i < j < |words| ==> words[i].endUs <= words[j].startUs)
    && (forall i :: 0 <= i < |words| ==> 0 <= words[i].startUs < words[i].endUs <= durationUs)
  }

  ghost predicate SegmentTimeline(segments: seq<Segment>, durationUs: int) {
    && (forall i, j :: 0 <= i < j < |segments| ==> segments[i].endUs <= segments[j].startUs)
    && (forall i :: 0 <= i < |segments| ==> 0 <= segments[i].startUs < segments[i].endUs <= durationUs)
  }

  /** Words in their own segment: numbered from zero, contained, and pairwise disjoint in order. */
  ghost predicate WordsWithin(segment: Segment) {
    && (forall j :: 0 <= j < |segment.words| ==>
          segment.words[j].ordinal == j && segment.startUs <= segment.words[j].startUs
            && segment.words[j].endUs <= segment.endUs)
    && (forall j, k :: 0 <= j < k < |segment.words| ==> segment.words[j].endUs <= segment.words[k].startUs)
  }

  lemma {:induction false} SegmentsOrdered(segments: seq<Segment>, durationUs: int, i: nat, j: nat)
    requires WellFormed(segments) && i < j < |segments|
    requires forall k :: 0 <= k < |segments| ==> Check(segments, durationUs, k).Accepted?
    ensures segments[i].endUs <= segments[j].startUs
  {
    assert Check(segments, durationUs, j).Accepted?;
    if i < j - 1 { SegmentsOrdered(segments, durationUs, i, j - 1); }
  }

  lemma {:induction false} WordsOrdered(segment: Segment, j: nat, k: nat)
    requires forall w :: w in segment.words ==> w.startUs < w.endUs
    requires forall m :: 0 <= m < |segment.words| ==> WordFits(segment, m)
    requires j < k < |segment.words|
    ensures segment.words[j].endUs <= segment.words[k].startUs
  {
    assert WordFits(segment, k);
    if j < k - 1 {
      WordsOrdered(segment, j, k - 1);
      assert segment.words[k - 1] in segment.words;
    }
  }

  lemma WordChecksAreLocal(segment: Segment)
    requires forall w :: w in segment.words ==> w.startUs < w.endUs
    ensures (forall j :: 0 <= j < |segment.words| ==> WordFits(segment, j)) <==> WordsWithin(segment)
  {
    if forall j :: 0 <= j < |segment.words| ==> WordFits(segment, j) {
      forall j, k | 0 <= j < k < |segment.words| ensures segment.words[j].endUs <= segment.words[k].startUs {
        WordsOrdered(segment, j, k);
      }
      forall j | 0 <= j < |segment.words|
        ensures segment.words[j].ordinal == j && segment.startUs <= segment.words[j].startUs
          && segment.words[j].endUs <= segment.endUs
      {
        assert WordFits(segment, j);
      }
    }
  }

  /** The adjacent checks accept exactly the timelines that are globally in order. */
  lemma AdjacentChecksAreGlobal(segments: seq<Segment>, durationUs: int)
    requires WellFormed(segments)
    ensures (forall i :: 0 <= i < |segments| ==> Check(segments, durationUs, i).Accepted?) <==>
              && SegmentTimeline(segments, durationUs)
              && forall i :: 0 <= i < |segments| ==> segments[i].ordinal == i && WordsWithin(segments[i])
  {
    forall i | 0 <= i < |segments|
      ensures (forall j :: 0 <= j < |segments[i].words| ==> WordFits(segments[i], j)) <==> WordsWithin(segments[i])
    {
      WordChecksAreLocal(segments[i]);
    }
    if forall i :: 0 <= i < |segments| ==> Check(segments, durationUs, i).Accepted? {
      forall i, j | 0 <= i < j < |segments| ensures segments[i].endUs <= segments[j].startUs {
        SegmentsOrdered(segments, durationUs, i, j);
      }
      forall i | 0 <= i < |segments|
        ensures segments[i].ordinal == i && segments[i].endUs <= durationUs && WordsWithin(segments[i])
      {
        assert Check(segments, durationUs, i).Accepted?;
      }
    }
  }

  /** An accepted transcript's words, read across segments, are one ordered timeline in range. */
  lemma {:induction false} AcceptedWordsInOrder(segments: seq<Segment>, durationUs: int, n: nat)
    requires WellFormed(segments) && n <= |segments|
    requires SegmentTimeline(segments, durationUs)
    requires forall i :: 0 <= i < |segments| ==> WordsWithin(segments[i])
    ensures WordTimeline(AllWords(segments, n), durationUs)
    ensures forall w :: w in AllWords(segments, n) ==> n > 0 && w.endUs <= segments[n - 1].endUs
  {
    if n > 0 {
      AcceptedWordsInOrder(segments, durationUs, n - 1);
      var before, own, words := AllWords(segments, n - 1), segments[n - 1].words, AllWords(segments, n);
      assert WordsWithin(segments[n - 1]);
      assert n > 1 ==> segments[n - 2].endUs <= segments[n - 1].startUs;
      forall i | 0 <= i < |own| ensures own[i] in own && own[i].startUs < own[i].endUs { }
      forall i | 0 <= i < |before| ensures before[i] in before { }
      forall i, j | 0 <= i < j < |words| ensures words[i].endUs <= words[j].startUs {
        if i < |before| <= j {
          assert words[i] == before[i] && words[j] == own[j - |before|];
        } else if j < |before| {
          assert words[i] == before[i] && words[j] == before[j];
        } else {
          assert words[i] == own[i - |before|] && words[j] == own[j - |before|];
        }
      }
    }
  }

  /** If every check passes, the words of the whole transcript are one ordered timeline in range. */
  lemma AcceptedTranscriptIsTimeline(segments: seq<Segment>, durationUs: int)
    requires WellFormed(segments) && forall i :: 0 <= i < |segments| ==> Check(segments, durationUs, i).Accepted?
    ensures SegmentTimeline(segments, durationUs) && WordTimeline(AllWords(segments, |segments|), durationUs)
  {
    AdjacentChecksAreGlobal(segments, durationUs);
    AcceptedWordsInOrder(segments, durationUs, |segments|);
  }
}
