/** Normalisation of a diarization provider's turns: speaker ranking, keys and conserved speech time. */
module Diarization {
  import opened Sorting
  import Decimal
  import Overlap

  /** A provider's speaker label as its code points. */
  type Label = seq<nat>

  datatype ProviderTurn = ProviderTurn(startUs: int, endUs: int, name: Label)

  /** `speaker-` and at least four decimal digits; only the digits vary. */
  datatype SpeakerKey = SpeakerKey(digits: seq<nat>)

  datatype Speaker = Speaker(localKey: SpeakerKey, name: Label, firstTurnUs: int, totalSpeechUs: int)

  datatype NormalTurn = NormalTurn(ordinal: nat, startUs: int, endUs: int, speakerKey: SpeakerKey)

  datatype Normalization =
    | OutOfRange
    | ExclusiveOverlap
    | Normalized(speakers: seq<Speaker>, turns: seq<NormalTurn>, exclusiveTurns: seq<NormalTurn>)

  ghost predicate NonEmpty(turns: seq<ProviderTurn>) {
    forall t :: t in turns ==> 0 <= t.startUs < t.endUs
  }

  predicate TurnLe(a: ProviderTurn, b: ProviderTurn) {
    if a.startUs != b.startUs then a.startUs < b.startUs
    else if a.endUs != b.endUs then a.endUs < b.endUs
    else LexLe(a.name, b.name)
  }

  lemma TurnOrder()
    ensures TotalPreorder(TurnLe)
    ensures forall x, y :: TurnLe(x, y) && TurnLe(y, x) ==> x == y
  {
    LexIsTotalOrder();
  }

  predicate Has(turns: seq<ProviderTurn>, name: Label) {
    exists i :: 0 <= i < |turns| && turns[i].name == name
  }

  function Speech(turns: seq<ProviderTurn>, name: Label): int {
    if turns == [] then 0
    else
      var last := turns[|turns| - 1];
      Speech(turns[..|turns| - 1], name) + if last.name == name then last.endUs - last.startUs else 0
  }

  ghost predicate IsFirstStart(v: int, turns: seq<ProviderTurn>, name: Label) {
    && (exists t :: t in turns && t.name == name && t.startUs == v)
    && (forall t :: t in turns && t.name == name ==> v <= t.startUs)
  }

  /** A label's speech: its regular turns, or its exclusive turns when it has no regular one. */
  function Total(regular: seq<ProviderTurn>, exclusive: seq<ProviderTurn>, name: Label): int {
    if Has(regular, name) then Speech(regular, name) else Speech(exclusive, name)
  }

  function KeyOf(index: nat): SpeakerKey {
    SpeakerKey(Decimal.Pad(Decimal.Digits(index)))
  }

  lemma KeyInjective(i: nat, j: nat)
    requires KeyOf(i) == KeyOf(j)
    ensures i == j
  {
    Decimal.ValueOfPadded(Decimal.Digits(i));
    Decimal.ValueOfPadded(Decimal.Digits(j));
    Decimal.ValueOfDigits(i);
    Decimal.ValueOfDigits(j);
  }

  /** Earlier first turn, then more speech, then the label. */
  predicate RanksBefore(a: Speaker, b: Speaker) {
    if a.firstTurnUs != b.firstTurnUs then a.firstTurnUs < b.firstTurnUs
    else if a.totalSpeechUs != b.totalSpeechUs then a.totalSpeechUs > b.totalSpeechUs
    else LexLe(a.name, b.name)
  }

  ghost predicate KeysInOrder(speakers: seq<Speaker>) {
    forall i :: 0 <= i < |speakers| ==> speakers[i].localKey == KeyOf(i + 1)
  }

  ghost predicate RankedDistinct(speakers: seq<Speaker>) {
    forall i, j :: 0 <= i < j < |speakers| ==>
      speakers[i].name != speakers[j].name && RanksBefore(speakers[i], speakers[j])
  }

  ghost predicate StatisticsOf(speaker: Speaker, regular: seq<ProviderTurn>, exclusive: seq<ProviderTurn>) {
    && IsFirstStart(speaker.firstTurnUs, regular + exclusive, speaker.name)
    && speaker.totalSpeechUs == Total(regular, exclusive, speaker.name)
  }

  ghost predicate Named(speakers: seq<Speaker>, name: Label) {
    exists i :: 0 <= i < |speakers| && speakers[i].name == name
  }

  ghost predicate SpeakersOf(speakers: seq<Speaker>, regular: seq<ProviderTurn>, exclusive: seq<ProviderTurn>) {
    && KeysInOrder(speakers)
    && RankedDistinct(speakers)
    && (forall i :: 0 <= i < |speakers| ==> StatisticsOf(speakers[i], regular, exclusive))
    && (forall t :: t in regular + exclusive ==> Named(speakers, t.name))
  }

  ghost predicate TurnsOf(turns: seq<NormalTurn>, source: seq<ProviderTurn>, speakers: seq<Speaker>) {
    && |turns| == |source|
    && forall i :: 0 <= i < |turns| ==>
         && turns[i].ordinal == i && turns[i].startUs == source[i].startUs && turns[i].endUs == source[i].endUs
         && KeyedTo(turns[i].speakerKey, source[i].name, speakers)
  }

  ghost predicate KeyedTo(key: SpeakerKey, name: Label, speakers: seq<Speaker>) {
    exists k :: 0 <= k < |speakers| && speakers[k].name == name && speakers[k].localKey == key
  }

  ghost predicate InRange(turns: seq<ProviderTurn>, durationUs: int) {
    forall t :: t in turns ==> t.endUs <= durationUs
  }

  ghost predicate Disjoint(turns: seq<ProviderTurn>) {
    forall i, j :: 0 <= i < j < |turns| ==> turns[i].endUs <= turns[j].startUs
  }

  /** Everything promised of an accepted result, over the sorted turns. */
  ghost predicate IsNormalForm(r: Normalization, regular: seq<ProviderTurn>, exclusive: seq<ProviderTurn>) {
    && r.Normalized?
    && SpeakersOf(r.speakers, regular, exclusive)
    && TurnsOf(r.turns, regular, r.speakers)
    && TurnsOf(r.exclusiveTurns, exclusive, r.speakers)
  }

  ghost predicate Outcome(r: Normalization, turns: seq<ProviderTurn>, exclusiveTurns: seq<ProviderTurn>,
                          durationUs: int) {
    var regular, exclusive := Sort(turns, TurnLe), Sort(exclusiveTurns, TurnLe);
    if !InRange(turns + exclusiveTurns, durationUs) then r == OutOfRange
    else if !Disjoint(exclusive) then r == ExclusiveOverlap
    else IsNormalForm(r, regular, exclusive)
  }

  /** The dictionaries built by the statistics loops; `labels` keeps the insertion order. */
  ghost predicate Tracks(labels: seq<Label>, firstTurn: map<Label, int>, totalSpeech: map<Label, int>,
                         seen: seq<ProviderTurn>) {
    && Distinct(labels)
    && (forall l :: l in labels <==> l in firstTurn)
    && firstTurn.Keys == totalSpeech.Keys
    && (forall l :: l in firstTurn ==> IsFirstStart(firstTurn[l], seen, l))
    && (forall t :: t in seen ==> t.name in firstTurn)
  }

  /** `min(first_turn.get(label, start), start)` */
  function Earliest(firstTurn: map<Label, int>, t: ProviderTurn): int {
    if t.name in firstTurn && firstTurn[t.name] < t.startUs then firstTurn[t.name] else t.startUs
  }

  function Keep(labels: seq<Label>, firstTurn: map<Label, int>, t: ProviderTurn): seq<Label> {
    if t.name in firstTurn then labels else labels + [t.name]
  }

  /** A label's first start, after one more turn. */
  lemma FirstStartOne(firstTurn: map<Label, int>, seen: seq<ProviderTurn>, t: ProviderTurn, l: Label)
    requires l in firstTurn ==> IsFirstStart(firstTurn[l], seen, l)
    requires l in firstTurn || (l == t.name && forall w :: w in seen ==> w.name != l)
    ensures IsFirstStart(firstTurn[t.name := Earliest(firstTurn, t)][l], seen + [t], l)
  {
    assert t in seen + [t];
    if l in firstTurn {
      var w :| w in seen && w.name == l && w.startUs == firstTurn[l];
      assert w in seen + [t];
    }
  }

  lemma TrackOne(labels: seq<Label>, firstTurn: map<Label, int>, totalSpeech: map<Label, int>,
                 seen: seq<ProviderTurn>, t: ProviderTurn, total: map<Label, int>)
    requires Tracks(labels, firstTurn, totalSpeech, seen) && total.Keys == totalSpeech.Keys + {t.name}
    ensures Tracks(Keep(labels, firstTurn, t), firstTurn[t.name := Earliest(firstTurn, t)], total, seen + [t])
  {
    var after := firstTurn[t.name := Earliest(firstTurn, t)];
    forall l | l in after ensures IsFirstStart(after[l], seen + [t], l) {
      FirstStartOne(firstTurn, seen, t, l);
    }
  }

  lemma SpeechOfLonger(turns: seq<ProviderTurn>, k: nat, name: Label)
    requires k < |turns|
    ensures Speech(turns[..k + 1], name) ==
            Speech(turns[..k], name) + if turns[k].name == name then turns[k].endUs - turns[k].startUs else 0
  {
    assert turns[..k + 1][..k] == turns[..k];
  }

  lemma {:induction false} SilentLabel(turns: seq<ProviderTurn>, name: Label)
    requires !Has(turns, name)
    ensures Speech(turns, name) == 0
  {
    if turns != [] {
      var k := |turns| - 1;
      assert turns[k].name != name;
      forall i | 0 <= i < k ensures turns[..k][i].name != name { assert turns[i].name != name; }
      SilentLabel(turns[..k], name);
    }
  }

  /** A label without an entry has not spoken yet, and one more turn adds its own length. */
  lemma SpeechStep(firstTurn: map<Label, int>, turns: seq<ProviderTurn>, k: nat)
    requires k < |turns| && forall t :: t in turns[..k] ==> t.name in firstTurn
    ensures turns[k].name !in firstTurn ==> Speech(turns[..k], turns[k].name) == 0
    ensures forall l :: Speech(turns[..k + 1], l) ==
                        Speech(turns[..k], l) + if turns[k].name == l then turns[k].endUs - turns[k].startUs else 0
  {
    forall l ensures Speech(turns[..k + 1], l) ==
                     Speech(turns[..k], l) + if turns[k].name == l then turns[k].endUs - turns[k].startUs else 0 {
      SpeechOfLonger(turns, k, l);
    }
    if turns[k].name !in firstTurn {
      forall i | 0 <= i < k ensures turns[..k][i].name != turns[k].name { assert turns[..k][i] in turns[..k]; }
      SilentLabel(turns[..k], turns[k].name);
    }
  }

  function Profile(name: Label, firstTurn: map<Label, int>, totalSpeech: map<Label, int>): Speaker {
    Speaker(KeyOf(0), name, if name in firstTurn then firstTurn[name] else 0,
            if name in totalSpeech then totalSpeech[name] else 0)
  }

  function ByRank(firstTurn: map<Label, int>, totalSpeech: map<Label, int>): (Label, Label) -> bool {
    (a, b) => RanksBefore(Profile(a, firstTurn, totalSpeech), Profile(b, firstTurn, totalSpeech))
  }

  lemma RankOrder(firstTurn: map<Label, int>, totalSpeech: map<Label, int>)
    ensures TotalPreorder(ByRank(firstTurn, totalSpeech))
  {
    LexIsTotalOrder();
  }

  ghost predicate CountsOwn(totalSpeech: map<Label, int>, source: seq<ProviderTurn>, k: nat)
    requires k <= |source|
  {
    && (forall l :: l in totalSpeech ==> totalSpeech[l] == Speech(source[..k], l))
    && (forall t :: t in source[..k] ==> t.name in totalSpeech)
  }

  /** `total_speech[label] += end - start` */
  function CountSpoken(totalSpeech: map<Label, int>, t: ProviderTurn): map<Label, int> {
    totalSpeech[t.name := (if t.name in totalSpeech then totalSpeech[t.name] else 0) + (t.endUs - t.startUs)]
  }

  lemma CountOwn(totalSpeech: map<Label, int>, source: seq<ProviderTurn>, k: nat)
    requires k < |source| && CountsOwn(totalSpeech, source, k)
    ensures CountsOwn(CountSpoken(totalSpeech, source[k]), source, k + 1)
  {
    var t, after := source[k], CountSpoken(totalSpeech, source[k]);
    SpeechStep(totalSpeech, source, k);
    forall l | l in after ensures after[l] == Speech(source[..k + 1], l) {
      assert l != t.name ==> l in totalSpeech;
    }
    assert source[..k + 1] == source[..k] + [source[k]];
  }

  ghost predicate CountsOthers(totalSpeech: map<Label, int>, known: set<Label>, source: seq<ProviderTurn>,
                               exclusive: seq<ProviderTurn>, k: nat)
    requires k <= |exclusive|
  {
    && known <= totalSpeech.Keys
    && (forall l :: l in totalSpeech ==>
          totalSpeech[l] == if l in known then Speech(source, l) else Speech(exclusive[..k], l))
    && (forall t :: t in exclusive[..k] ==> t.name in totalSpeech)
  }

  /** The same, for labels outside the regular turns only. */
  function CountUnlessKnown(totalSpeech: map<Label, int>, known: set<Label>, t: ProviderTurn): map<Label, int> {
    if t.name in known then totalSpeech
    else CountSpoken(totalSpeech, t)
  }

  lemma CountOther(totalSpeech: map<Label, int>, known: set<Label>, source: seq<ProviderTurn>,
                   exclusive: seq<ProviderTurn>, k: nat)
    requires k < |exclusive| && CountsOthers(totalSpeech, known, source, exclusive, k)
    ensures CountsOthers(CountUnlessKnown(totalSpeech, known, exclusive[k]), known, source, exclusive, k + 1)
  {
    SpeechStep(totalSpeech, exclusive, k);
    assert exclusive[..k + 1] == exclusive[..k] + [exclusive[k]];
  }

  ghost predicate TracksBoth(labels: seq<Label>, firstTurn: map<Label, int>, totalSpeech: map<Label, int>,
                             source: seq<ProviderTurn>, exclusive: seq<ProviderTurn>, k: nat)
    requires k <= |exclusive|
  {
    Tracks(labels, firstTurn, totalSpeech, source + exclusive[..k])
  }

  lemma TrackExclusive(labels: seq<Label>, firstTurn: map<Label, int>, totalSpeech: map<Label, int>, known: set<Label>,
                       source: seq<ProviderTurn>, exclusive: seq<ProviderTurn>, k: nat)
    requires k < |exclusive| && TracksBoth(labels, firstTurn, totalSpeech, source, exclusive, k)
      && known <= totalSpeech.Keys
    ensures var t := exclusive[k];
            TracksBoth(Keep(labels, firstTurn, t), firstTurn[t.name := Earliest(firstTurn, t)],
                       CountUnlessKnown(totalSpeech, known, t), source, exclusive, k + 1)
  {
    assert source + exclusive[..k + 1] == source + exclusive[..k] + [exclusive[k]];
    TrackOne(labels, firstTurn, totalSpeech, source + exclusive[..k], exclusive[k],
             CountUnlessKnown(totalSpeech, known, exclusive[k]));
  }

  lemma KnownLabels(totalSpeech: map<Label, int>, labels: seq<Label>, firstTurn: map<Label, int>,
                    source: seq<ProviderTurn>)
    requires Tracks(labels, firstTurn, totalSpeech, source)
    ensures forall l :: l in totalSpeech.Keys <==> Has(source, l)
  {
    forall l ensures l in totalSpeech.Keys <==> Has(source, l) {
      if Has(source, l) {
        var i :| 0 <= i < |source| && source[i].name == l;
        assert source[i] in source;
      }
    }
  }

  ghost predicate TracksSource(labels: seq<Label>, firstTurn: map<Label, int>, totalSpeech: map<Label, int>,
                               source: seq<ProviderTurn>, k: nat)
    requires k <= |source|
  {
    Tracks(labels, firstTurn, totalSpeech, source[..k])
  }

  lemma TrackSource(labels: seq<Label>, firstTurn: map<Label, int>, totalSpeech: map<Label, int>,
                    source: seq<ProviderTurn>, k: nat)
    requires k < |source| && TracksSource(labels, firstTurn, totalSpeech, source, k)
    ensures var t := source[k];
            TracksSource(Keep(labels, firstTurn, t), firstTurn[t.name := Earliest(firstTurn, t)],
                         CountSpoken(totalSpeech, t), source, k + 1)
  {
    assert source[..k + 1] == source[..k] + [source[k]];
    TrackOne(labels, firstTurn, totalSpeech, source[..k], source[k], CountSpoken(totalSpeech, source[k]));
  }

  lemma TracksAll(labels: seq<Label>, firstTurn: map<Label, int>, totalSpeech: map<Label, int>,
                  source: seq<ProviderTurn>)
    requires TracksSource(labels, firstTurn, totalSpeech, source, |source|)
    ensures Tracks(labels, firstTurn, totalSpeech, source)
  {
    assert source[..|source|] == source;
  }

  /** First loop: the turns the statistics are drawn from. */
  method CollectSource(source: seq<ProviderTurn>)
      returns (labels: seq<Label>, firstTurn: map<Label, int>, totalSpeech: map<Label, int>)
    ensures Tracks(labels, firstTurn, totalSpeech, source)
    ensures CountsOwn(totalSpeech, source, |source|)
  {
    labels, firstTurn, totalSpeech := [], map[], map[];
    var k := 0;
    while k < |source|
      invariant 0 <= k <= |source|
      invariant TracksSource(labels, firstTurn, totalSpeech, source, k)
      invariant CountsOwn(totalSpeech, source, k)
    {
      var turn := source[k];
      CountOwn(totalSpeech, source, k);
      TrackSource(labels, firstTurn, totalSpeech, source, k);
      labels, firstTurn := Keep(labels, firstTurn, turn), firstTurn[turn.name := Earliest(firstTurn, turn)];
      totalSpeech := CountSpoken(totalSpeech, turn);
      k := k + 1;
    }
    TracksAll(labels, firstTurn, totalSpeech, source);
  }

  lemma NoneCounted(labels: seq<Label>, firstTurn: map<Label, int>, totalSpeech: map<Label, int>,
                    source: seq<ProviderTurn>, exclusive: seq<ProviderTurn>)
    requires Tracks(labels, firstTurn, totalSpeech, source) && CountsOwn(totalSpeech, source, |source|)
    ensures TracksBoth(labels, firstTurn, totalSpeech, source, exclusive, 0)
    ensures CountsOthers(totalSpeech, totalSpeech.Keys, source, exclusive, 0)
    ensures forall l :: l in totalSpeech.Keys <==> Has(source, l)
  {
    KnownLabels(totalSpeech, labels, firstTurn, source);
    assert source[..|source|] == source && source + exclusive[..0] == source;
  }

  lemma AllCounted(labels: seq<Label>, firstTurn: map<Label, int>, totalSpeech: map<Label, int>, known: set<Label>,
                   source: seq<ProviderTurn>, exclusive: seq<ProviderTurn>)
    requires TracksBoth(labels, firstTurn, totalSpeech, source, exclusive, |exclusive|)
    requires CountsOthers(totalSpeech, known, source, exclusive, |exclusive|)
    requires forall l :: l in known <==> Has(source, l)
    ensures Tracks(labels, firstTurn, totalSpeech, source + exclusive)
    ensures forall l :: l in totalSpeech ==> totalSpeech[l] == Total(source, exclusive, l)
  {
    assert exclusive[..|exclusive|] == exclusive;
  }

  /** Second loop: exclusive turns count as speech only for labels without a regular turn. */
  method CollectExclusive(source: seq<ProviderTurn>, exclusive: seq<ProviderTurn>, before: seq<Label>,
                          first: map<Label, int>, total: map<Label, int>)
      returns (labels: seq<Label>, firstTurn: map<Label, int>, totalSpeech: map<Label, int>)
    requires Tracks(before, first, total, source) && CountsOwn(total, source, |source|)
    ensures Tracks(labels, firstTurn, totalSpeech, source + exclusive)
    ensures forall l :: l in totalSpeech ==> totalSpeech[l] == Total(source, exclusive, l)
  {
    labels, firstTurn, totalSpeech := before, first, total;
    var regularLabels := totalSpeech.Keys;
    NoneCounted(before, first, total, source, exclusive);
    var k := 0;
    while k < |exclusive|
      invariant 0 <= k <= |exclusive|
      invariant TracksBoth(labels, firstTurn, totalSpeech, source, exclusive, k)
      invariant CountsOthers(totalSpeech, regularLabels, source, exclusive, k)
    {
      var turn := exclusive[k];
      CountOther(totalSpeech, regularLabels, source, exclusive, k);
      TrackExclusive(labels, firstTurn, totalSpeech, regularLabels, source, exclusive, k);
      labels, firstTurn := Keep(labels, firstTurn, turn), firstTurn[turn.name := Earliest(firstTurn, turn)];
      totalSpeech := CountUnlessKnown(totalSpeech, regularLabels, turn);
      k := k + 1;
    }
    AllCounted(labels, firstTurn, totalSpeech, regularLabels, source, exclusive);
  }

  lemma TracksSameTurns(labels: seq<Label>, firstTurn: map<Label, int>, totalSpeech: map<Label, int>,
                        seen: seq<ProviderTurn>, same: seq<ProviderTurn>)
    requires Tracks(labels, firstTurn, totalSpeech, seen) && forall t :: t in seen <==> t in same
    ensures Tracks(labels, firstTurn, totalSpeech, same)
  {
    forall l | l in firstTurn ensures IsFirstStart(firstTurn[l], same, l) {
      var w :| w in seen && w.name == l && w.startUs == firstTurn[l];
      assert w in same;
    }
  }

  ghost predicate Ranked(speakers: seq<Speaker>, labels: seq<Label>, firstTurn: map<Label, int>,
                         totalSpeech: map<Label, int>) {
    && |speakers| == |labels|
    && (forall i :: 0 <= i < |labels| ==> labels[i] in firstTurn && labels[i] in totalSpeech)
    && (forall i :: 0 <= i < |labels| ==>
          speakers[i] == Speaker(KeyOf(i + 1), labels[i], firstTurn[labels[i]], totalSpeech[labels[i]]))
  }

  lemma RankedSpeakers(speakers: seq<Speaker>, ordered: seq<Label>, labels: seq<Label>, firstTurn: map<Label, int>,
                       totalSpeech: map<Label, int>, regular: seq<ProviderTurn>, exclusive: seq<ProviderTurn>)
    requires Tracks(labels, firstTurn, totalSpeech, regular + exclusive)
    requires forall l :: l in totalSpeech ==> totalSpeech[l] == Total(regular, exclusive, l)
    requires ordered == Sort(labels, ByRank(firstTurn, totalSpeech))
      && Ranked(speakers, ordered, firstTurn, totalSpeech)
    ensures SpeakersOf(speakers, regular, exclusive)
  {
    var le := ByRank(firstTurn, totalSpeech);
    RankOrder(firstTurn, totalSpeech);
    SortSorts(labels, le);
    DistinctOfPermutation(labels, ordered);
    SameElements(labels, ordered);
    forall i, j | 0 <= i < j < |speakers|
      ensures speakers[i].name != speakers[j].name && RanksBefore(speakers[i], speakers[j])
    {
      assert ordered[i] != ordered[j] && le(ordered[i], ordered[j]);
    }
    forall i | 0 <= i < |speakers| ensures StatisticsOf(speakers[i], regular, exclusive) { }
    forall t | t in regular + exclusive ensures Named(speakers, t.name) {
      assert t.name in ordered;
      var i :| 0 <= i < |ordered| && ordered[i] == t.name;
      assert speakers[i].name == t.name;
    }
  }

  /** `keys` maps each ranked label to its key; every turn's label is among them. */
  method NormalizedTurns(source: seq<ProviderTurn>, keys: map<Label, SpeakerKey>, ghost speakers: seq<Speaker>)
      returns (turns: seq<NormalTurn>)
    requires forall t :: t in source ==> t.name in keys && KeyedTo(keys[t.name], t.name, speakers)
    ensures TurnsOf(turns, source, speakers)
  {
    turns := seq(|source|, i requires 0 <= i < |source| && (source[i].name in keys) =>
                   NormalTurn(i, source[i].startUs, source[i].endUs, keys[source[i].name]));
  }

  method WithinDuration(all: seq<ProviderTurn>, durationUs: int) returns (ok: bool)
    ensures ok <==> InRange(all, durationUs)
  {
    for k := 0 to |all|
      invariant forall t :: t in all[..k] ==> t.endUs <= durationUs
    {
      assert all[..k + 1] == all[..k] + [all[k]];
      if all[k].endUs > durationUs {
        assert all[k] in all;
        return false;
      }
    }
    assert all[..|all|] == all;
    return true;
  }

  /** Adjacent comparisons decide pairwise disjointness of sorted, non-empty turns. */
  method AdjacentDisjoint(exclusive: seq<ProviderTurn>) returns (ok: bool)
    requires NonEmpty(exclusive)
    ensures ok <==> Disjoint(exclusive)
  {
    var k := 1;
    while k < |exclusive|
      invariant 1 <= k && (k <= |exclusive| || |exclusive| == 0)
      invariant forall i, j :: 0 <= i < j < k && j < |exclusive| ==> exclusive[i].endUs <= exclusive[j].startUs
    {
      if exclusive[k].startUs < exclusive[k - 1].endUs {
        return false;
      }
      assert exclusive[k - 1] in exclusive;
      k := k + 1;
    }
    return true;
  }

  method NormalizeDiarization(turns: seq<ProviderTurn>, exclusiveTurns: seq<ProviderTurn>, durationUs: int)
      returns (r: Normalization)
    requires NonEmpty(turns) && NonEmpty(exclusiveTurns)
    ensures Outcome(r, turns, exclusiveTurns, durationUs)
  {
    var regular: seq<ProviderTurn>, exclusive: seq<ProviderTurn> := Sort(turns, TurnLe), Sort(exclusiveTurns, TurnLe);
    SameTurns(turns, exclusiveTurns, regular, exclusive, durationUs);
    var inRange := WithinDuration(regular + exclusive, durationUs);
    if !inRange {
      return OutOfRange;
    }
    var disjoint := AdjacentDisjoint(exclusive);
    if !disjoint {
      return ExclusiveOverlap;
    }
    var speakers, keys := RankSpeakers(regular, exclusive);
    var normalTurns := NormalizedTurns(regular, keys, speakers);
    var normalExclusive := NormalizedTurns(exclusive, keys, speakers);
    r := Normalized(speakers, normalTurns, normalExclusive);
  }

  lemma SameTurns(turns: seq<ProviderTurn>, exclusiveTurns: seq<ProviderTurn>, regular: seq<ProviderTurn>,
                  exclusive: seq<ProviderTurn>, durationUs: int)
    requires multiset(turns) == multiset(regular) && multiset(exclusiveTurns) == multiset(exclusive)
    ensures InRange(turns + exclusiveTurns, durationUs) <==> InRange(regular + exclusive, durationUs)
    ensures NonEmpty(exclusiveTurns) ==> NonEmpty(exclusive)
  {
    SameElements(turns, regular);
    SameElements(exclusiveTurns, exclusive);
    assert forall t :: t in turns + exclusiveTurns <==> t in regular + exclusive;
  }

  lemma KeyOne(speakers: seq<Speaker>, done: seq<Label>, keys: map<Label, SpeakerKey>, speaker: Speaker)
    requires forall l :: l in done ==> l in keys && KeyedTo(keys[l], l, speakers)
    ensures forall l :: l in done + [speaker.name] ==>
              && l in keys[speaker.name := speaker.localKey]
              && KeyedTo(keys[speaker.name := speaker.localKey][l], l, speakers + [speaker])
  {
    var grown, keyed := speakers + [speaker], keys[speaker.name := speaker.localKey];
    assert grown[|speakers|] == speaker;
    forall l | l in done + [speaker.name] ensures l in keyed && KeyedTo(keyed[l], l, grown) {
      if l != speaker.name {
        var i :| 0 <= i < |speakers| && speakers[i].name == l && speakers[i].localKey == keys[l];
        assert grown[i] == speakers[i];
      }
    }
  }

  /** The keys and records made for the labels in `done`. */
  ghost predicate Assigned(speakers: seq<Speaker>, keys: map<Label, SpeakerKey>, done: seq<Label>,
                           firstTurn: map<Label, int>, totalSpeech: map<Label, int>) {
    && Ranked(speakers, done, firstTurn, totalSpeech)
    && forall l :: l in done ==> l in keys && KeyedTo(keys[l], l, speakers)
  }

  lemma AssignOne(speakers: seq<Speaker>, keys: map<Label, SpeakerKey>, done: seq<Label>, longer: seq<Label>,
                  firstTurn: map<Label, int>, totalSpeech: map<Label, int>, name: Label)
    requires Assigned(speakers, keys, done, firstTurn, totalSpeech) && longer == done + [name]
    requires name in firstTurn && name in totalSpeech
    ensures var key := KeyOf(|done| + 1);
            Assigned(speakers + [Speaker(key, name, firstTurn[name], totalSpeech[name])], keys[name := key], longer,
                     firstTurn, totalSpeech)
  {
    KeyOne(speakers, done, keys, Speaker(KeyOf(|done| + 1), name, firstTurn[name], totalSpeech[name]));
  }

  /** `sorted(first_turn, key=...)`, then one key and one record per label in that order. */
  method AssignKeys(labels: seq<Label>, firstTurn: map<Label, int>, totalSpeech: map<Label, int>)
      returns (ordered: seq<Label>, speakers: seq<Speaker>, keys: map<Label, SpeakerKey>)
    requires forall l :: l in labels ==> l in firstTurn && l in totalSpeech
    ensures ordered == Sort(labels, ByRank(firstTurn, totalSpeech)) && Ranked(speakers, ordered, firstTurn, totalSpeech)
    ensures forall l :: l in labels ==> l in keys && KeyedTo(keys[l], l, speakers)
  {
    ordered := Sort(labels, ByRank(firstTurn, totalSpeech));
    SameElements(labels, ordered);
    speakers, keys := [], map[];
    for k := 0 to |ordered|
      invariant Assigned(speakers, keys, ordered[..k], firstTurn, totalSpeech)
    {
      var name := ordered[k];
      assert name in ordered;
      assert ordered[..k + 1] == ordered[..k] + [name];
      AssignOne(speakers, keys, ordered[..k], ordered[..k + 1], firstTurn, totalSpeech, name);
      var speaker := Speaker(KeyOf(k + 1), name, firstTurn[name], totalSpeech[name]);
      speakers, keys := speakers + [speaker], keys[name := KeyOf(k + 1)];
    }
    assert ordered[..|ordered|] == ordered;
  }

  method RankSpeakers(regular: seq<ProviderTurn>, exclusive: seq<ProviderTurn>)
      returns (speakers: seq<Speaker>, keys: map<Label, SpeakerKey>)
    ensures SpeakersOf(speakers, regular, exclusive)
    ensures forall t :: t in regular + exclusive ==> t.name in keys && KeyedTo(keys[t.name], t.name, speakers)
  {
    var source := if regular != [] then regular else exclusive;
    var labels, firstTurn, totalSpeech := CollectSource(source);
    labels, firstTurn, totalSpeech := CollectExclusive(source, exclusive, labels, firstTurn, totalSpeech);
    if regular == [] {
      TracksSameTurns(labels, firstTurn, totalSpeech, source + exclusive, regular + exclusive);
    }
    TotalOfSource(regular, exclusive);
    assert forall t :: t in regular + exclusive ==> t.name in labels;
    var ordered;
    ordered, speakers, keys := AssignKeys(labels, firstTurn, totalSpeech);
    RankedSpeakers(speakers, ordered, labels, firstTurn, totalSpeech, regular, exclusive);
  }

  lemma TotalOfSource(regular: seq<ProviderTurn>, exclusive: seq<ProviderTurn>)
    ensures var source := if regular != [] then regular else exclusive;
            forall l :: Total(source, exclusive, l) == Total(regular, exclusive, l)
  {
  }

  // Consequences of an accepted result.

  function Profiles(speakers: seq<Speaker>): (r: seq<Speaker>)
    ensures |r| == |speakers|
  {
    seq(|speakers|, i requires 0 <= i < |speakers| => speakers[i].(localKey := KeyOf(0)))
  }

  lemma SameStatistics(x: Speaker, y: Speaker, regular: seq<ProviderTurn>, exclusive: seq<ProviderTurn>)
    requires StatisticsOf(x, regular, exclusive) && StatisticsOf(y, regular, exclusive) && x.name == y.name
    ensures x.(localKey := KeyOf(0)) == y.(localKey := KeyOf(0))
  {
  }

  lemma SpeakerIsNamed(x: Speaker, b: seq<Speaker>, regular: seq<ProviderTurn>, exclusive: seq<ProviderTurn>)
    requires StatisticsOf(x, regular, exclusive)
    requires forall t :: t in regular + exclusive ==> Named(b, t.name)
    ensures Named(b, x.name)
  {
  }

  lemma ProfilesIncluded(a: seq<Speaker>, b: seq<Speaker>, regular: seq<ProviderTurn>, exclusive: seq<ProviderTurn>,
                         x: Speaker)
    requires SpeakersOf(a, regular, exclusive) && SpeakersOf(b, regular, exclusive) && x in Profiles(a)
    ensures x in Profiles(b)
  {
    var i :| 0 <= i < |a| && Profiles(a)[i] == x;
    SpeakerIsNamed(a[i], b, regular, exclusive);
    var j :| 0 <= j < |b| && b[j].name == a[i].name;
    SameStatistics(a[i], b[j], regular, exclusive);
    assert Profiles(b)[j] == x;
  }

  lemma ProfilesDistinctSorted(a: seq<Speaker>, regular: seq<ProviderTurn>, exclusive: seq<ProviderTurn>)
    requires SpeakersOf(a, regular, exclusive)
    ensures Distinct(Profiles(a)) && Sorted(Profiles(a), RanksBefore)
  {
    forall i, j | 0 <= i < j < |a|
      ensures Profiles(a)[i] != Profiles(a)[j] && RanksBefore(Profiles(a)[i], Profiles(a)[j])
    {
      assert a[i].name != a[j].name && RanksBefore(a[i], a[j]);
    }
  }

  /** The speaker list is determined by the turns. */
  lemma SpeakersUnique(a: seq<Speaker>, b: seq<Speaker>, regular: seq<ProviderTurn>, exclusive: seq<ProviderTurn>)
    requires SpeakersOf(a, regular, exclusive) && SpeakersOf(b, regular, exclusive)
    ensures a == b
  {
    var p, q := Profiles(a), Profiles(b);
    ProfilesDistinctSorted(a, regular, exclusive);
    ProfilesDistinctSorted(b, regular, exclusive);
    forall x ensures x in p <==> x in q {
      if x in p { ProfilesIncluded(a, b, regular, exclusive, x); }
      if x in q { ProfilesIncluded(b, a, regular, exclusive, x); }
    }
    DistinctSameSet(p, q);
    LexIsTotalOrder();
    forall x | x in p ensures x.localKey == KeyOf(0) { }
    SortedUnique(p, q, RanksBefore);
    assert |a| == |b|;
    forall i | 0 <= i < |a| ensures a[i] == b[i] {
      assert p[i] == q[i] && a[i].localKey == KeyOf(i + 1) == b[i].localKey;
    }
  }

  /** Distinct speakers have distinct keys, so equal keys mean equal labels and conversely. */
  lemma KeysIdentifyLabels(speakers: seq<Speaker>, k1: SpeakerKey, name1: Label, k2: SpeakerKey, name2: Label)
    requires KeysInOrder(speakers) && RankedDistinct(speakers)
    requires KeyedTo(k1, name1, speakers) && KeyedTo(k2, name2, speakers)
    ensures k1 == k2 <==> name1 == name2
  {
    var i :| 0 <= i < |speakers| && speakers[i].name == name1 && speakers[i].localKey == k1;
    var j :| 0 <= j < |speakers| && speakers[j].name == name2 && speakers[j].localKey == k2;
    if k1 == k2 { KeyInjective(i + 1, j + 1); }
  }

  lemma TurnsUnique(a: seq<NormalTurn>, b: seq<NormalTurn>, source: seq<ProviderTurn>, speakers: seq<Speaker>)
    requires KeysInOrder(speakers) && RankedDistinct(speakers) && TurnsOf(a, source, speakers)
      && TurnsOf(b, source, speakers)
    ensures a == b
  {
    forall i | 0 <= i < |a| ensures a[i] == b[i] {
      KeysIdentifyLabels(speakers, a[i].speakerKey, source[i].name, b[i].speakerKey, source[i].name);
    }
  }

  /** The whole outcome depends only on the multisets of regular and exclusive turns. */
  lemma DependsOnMultisets(r1: Normalization, r2: Normalization, turns1: seq<ProviderTurn>,
                           exclusive1: seq<ProviderTurn>, turns2: seq<ProviderTurn>,
                           exclusive2: seq<ProviderTurn>, durationUs: int)
    requires multiset(turns1) == multiset(turns2) && multiset(exclusive1) == multiset(exclusive2)
    requires Outcome(r1, turns1, exclusive1, durationUs) && Outcome(r2, turns2, exclusive2, durationUs)
    ensures r1 == r2
  {
    TurnOrder();
    SortForgetsOrder(turns1, turns2, TurnLe);
    SortForgetsOrder(exclusive1, exclusive2, TurnLe);
    SameTurns(turns1, exclusive1, turns2, exclusive2, durationUs);
    var regular, exclusive := Sort(turns1, TurnLe), Sort(exclusive1, TurnLe);
    if IsNormalForm(r1, regular, exclusive) && IsNormalForm(r2, regular, exclusive) {
      SpeakersUnique(r1.speakers, r2.speakers, regular, exclusive);
      TurnsUnique(r1.turns, r2.turns, regular, r1.speakers);
      TurnsUnique(r1.exclusiveTurns, r2.exclusiveTurns, exclusive, r1.speakers);
    }
  }

  function Length(turns: seq<ProviderTurn>): int {
    if turns == [] then 0
    else var last := turns[|turns| - 1]; Length(turns[..|turns| - 1]) + (last.endUs - last.startUs)
  }

  /** Disjoint exclusive turns in range speak for no longer than the recording lasts. */
  lemma {:induction false} ExclusiveFitsDuration(exclusive: seq<ProviderTurn>, durationUs: int)
    requires NonEmpty(exclusive) && Disjoint(exclusive) && InRange(exclusive, durationUs) && durationUs >= 0
    ensures Length(exclusive) <= durationUs
    ensures exclusive != [] ==> Length(exclusive) <= exclusive[|exclusive| - 1].endUs
  {
    if exclusive != [] {
      var n := |exclusive| - 1;
      assert exclusive[n] in exclusive;
      ExclusiveFitsDuration(exclusive[..n], durationUs);
    }
  }

  /** The exclusive turns of labels that have no regular turn. */
  function ExclusiveOnly(regular: seq<ProviderTurn>, exclusive: seq<ProviderTurn>): seq<ProviderTurn> {
    if exclusive == [] then []
    else
      var last := exclusive[|exclusive| - 1];
      ExclusiveOnly(regular, exclusive[..|exclusive| - 1]) + if Has(regular, last.name) then [] else [last]
  }

  lemma {:induction false} SpeechOfConcat(a: seq<ProviderTurn>, b: seq<ProviderTurn>, name: Label)
    ensures Speech(a + b, name) == Speech(a, name) + Speech(b, name)
  {
    if b == [] {
      assert a + b == a;
    } else {
      assert (a + b)[..|a + b| - 1] == a + b[..|b| - 1];
      SpeechOfConcat(a, b[..|b| - 1], name);
    }
  }

  lemma {:induction false} ExclusiveOnlySpeech(regular: seq<ProviderTurn>, exclusive: seq<ProviderTurn>, name: Label)
    ensures Speech(ExclusiveOnly(regular, exclusive), name) == if Has(regular, name) then 0 else Speech(exclusive, name)
  {
    if exclusive != [] {
      var n := |exclusive| - 1;
      ExclusiveOnlySpeech(regular, exclusive[..n], name);
      var before, last := ExclusiveOnly(regular, exclusive[..n]), exclusive[n];
      SpeechOfConcat(before, [last], name);
      assert Speech([last], name) == if last.name == name then last.endUs - last.startUs else 0;
      if Has(regular, last.name) { assert ExclusiveOnly(regular, exclusive) == before; }
    }
  }

  /** The turns whose time is attributed: regular ones, and exclusive ones of otherwise unheard labels. */
  function Attributed(regular: seq<ProviderTurn>, exclusive: seq<ProviderTurn>): seq<ProviderTurn> {
    regular + ExclusiveOnly(regular, exclusive)
  }

  lemma TotalIsAttributedSpeech(regular: seq<ProviderTurn>, exclusive: seq<ProviderTurn>, name: Label)
    ensures Total(regular, exclusive, name) == Speech(Attributed(regular, exclusive), name)
  {
    SpeechOfConcat(regular, ExclusiveOnly(regular, exclusive), name);
    ExclusiveOnlySpeech(regular, exclusive, name);
    if !Has(regular, name) { SilentLabel(regular, name); }
  }

  function SumSpeech(labels: seq<Label>, turns: seq<ProviderTurn>): int {
    if labels == [] then 0 else SumSpeech(labels[..|labels| - 1], turns) + Speech(turns, labels[|labels| - 1])
  }

  lemma {:induction false} SumSpeechOneMore(labels: seq<Label>, turns: seq<ProviderTurn>, t: ProviderTurn)
    requires Distinct(labels)
    ensures SumSpeech(labels, turns + [t])
      == SumSpeech(labels, turns) + if t.name in labels then t.endUs - t.startUs else 0
  {
    if labels != [] {
      var n := |labels| - 1;
      SumSpeechOneMore(labels[..n], turns, t);
      assert (turns + [t])[..|turns|] == turns;
      assert labels == labels[..n] + [labels[n]];
    }
  }

  lemma {:induction false} SumSpeechIsLength(labels: seq<Label>, turns: seq<ProviderTurn>)
    requires Distinct(labels) && forall t :: t in turns ==> t.name in labels
    ensures SumSpeech(labels, turns) == Length(turns)
  {
    if turns == [] {
      SumSpeechOfNothing(labels);
    } else {
      var n := |turns| - 1;
      assert turns == turns[..n] + [turns[n]];
      SumSpeechIsLength(labels, turns[..n]);
      SumSpeechOneMore(labels, turns[..n], turns[n]);
    }
  }

  lemma {:induction false} SumSpeechOfNothing(labels: seq<Label>)
    ensures SumSpeech(labels, []) == 0
  {
    if labels != [] { SumSpeechOfNothing(labels[..|labels| - 1]); }
  }

  lemma {:induction false} ExclusiveOnlyMembers(regular: seq<ProviderTurn>, exclusive: seq<ProviderTurn>)
    ensures forall t :: t in ExclusiveOnly(regular, exclusive) ==> t in exclusive
  {
    if exclusive != [] { ExclusiveOnlyMembers(regular, exclusive[..|exclusive| - 1]); }
  }

  function SumTotals(speakers: seq<Speaker>): int {
    if speakers == [] then 0 else SumTotals(speakers[..|speakers| - 1]) + speakers[|speakers| - 1].totalSpeechUs
  }

  function Names(speakers: seq<Speaker>): seq<Label> {
    seq(|speakers|, i requires 0 <= i < |speakers| => speakers[i].name)
  }

  lemma {:induction false} SumTotalsIsSpeech(speakers: seq<Speaker>, turns: seq<ProviderTurn>)
    requires forall i :: 0 <= i < |speakers| ==> speakers[i].totalSpeechUs == Speech(turns, speakers[i].name)
    ensures SumTotals(speakers) == SumSpeech(Names(speakers), turns)
  {
    if speakers != [] {
      var n := |speakers| - 1;
      SumTotalsIsSpeech(speakers[..n], turns);
      assert Names(speakers)[..n] == Names(speakers[..n]);
    }
  }

  lemma NamesDistinct(speakers: seq<Speaker>)
    requires RankedDistinct(speakers)
    ensures Distinct(Names(speakers))
  {
  }

  lemma AttributedIsNamed(speakers: seq<Speaker>, regular: seq<ProviderTurn>, exclusive: seq<ProviderTurn>)
    requires forall t :: t in regular + exclusive ==> Named(speakers, t.name)
    ensures forall t :: t in Attributed(regular, exclusive) ==> t.name in Names(speakers)
  {
    ExclusiveOnlyMembers(regular, exclusive);
    forall t | t in Attributed(regular, exclusive) ensures t.name in Names(speakers) {
      assert t in regular + exclusive;
      var i :| 0 <= i < |speakers| && speakers[i].name == t.name;
      assert Names(speakers)[i] == t.name;
    }
  }

  /** No speech time is lost or counted twice across the speakers. */
  lemma SpeechConserved(speakers: seq<Speaker>, regular: seq<ProviderTurn>, exclusive: seq<ProviderTurn>)
    requires SpeakersOf(speakers, regular, exclusive)
    ensures SumTotals(speakers) == Length(Attributed(regular, exclusive))
  {
    var turns := Attributed(regular, exclusive);
    forall i | 0 <= i < |speakers| ensures speakers[i].totalSpeechUs == Speech(turns, speakers[i].name) {
      assert StatisticsOf(speakers[i], regular, exclusive);
      TotalIsAttributedSpeech(regular, exclusive, speakers[i].name);
    }
    SumTotalsIsSpeech(speakers, turns);
    AttributedIsNamed(speakers, regular, exclusive);
    NamesDistinct(speakers);
    SumSpeechIsLength(Names(speakers), turns);
  }

  // The persisted turns feed the overlap passes.

  function ForOverlap(turns: seq<NormalTurn>): (r: seq<Overlap.Turn<SpeakerKey>>)
    ensures |r| == |turns|
  {
    seq(|turns|, i requires 0 <= i < |turns| => Overlap.Turn(turns[i].startUs, turns[i].endUs, turns[i].speakerKey))
  }

  /** Another label was heard during turn `i`. */
  ghost predicate HeardOver(source: seq<ProviderTurn>, i: nat)
    requires i < |source|
  {
    exists j :: 0 <= j < |source| && source[j].name != source[i].name
                && source[i].startUs < source[j].endUs && source[j].startUs < source[i].endUs
  }

  predicate Meet(a: ProviderTurn, b: ProviderTurn) {
    a.startUs < b.endUs && b.startUs < a.endUs
  }

  ghost predicate SomeMeet(turns: seq<ProviderTurn>) {
    exists i, j :: 0 <= i < j < |turns| && Meet(turns[i], turns[j])
  }

  /** Sorted turns are disjoint exactly if no two of the turns, in whatever order, meet. */
  lemma DisjointExactly(turns: seq<ProviderTurn>)
    requires NonEmpty(turns)
    ensures Disjoint(Sort(turns, TurnLe)) <==> !SomeMeet(turns)
  {
    var s := Sort(turns, TurnLe);
    TurnOrder();
    SortSorts(turns, TurnLe);
    SameElements(s, turns);
    if !Disjoint(s) {
      var i: nat, j: nat :| i < j < |s| && s[i].endUs > s[j].startUs;
      assert TurnLe(s[i], s[j]) && s[j] in s;
      var k, l := PairOfPermutation(s, turns, i, j);
      assert Meet(turns[k], turns[l]) && Meet(turns[l], turns[k]);
    }
    if SomeMeet(turns) {
      var i: nat, j: nat :| i < j < |turns| && Meet(turns[i], turns[j]);
      var k, l := PairOfPermutation(turns, s, i, j);
      assert Meet(s[k], s[l]) && (k < l || l < k);
    }
  }

  /** What is rejected: a turn that ends after the recording, and else two exclusive turns that meet. */
  lemma RejectedExactly(r: Normalization, turns: seq<ProviderTurn>, exclusiveTurns: seq<ProviderTurn>, durationUs: int)
    requires Outcome(r, turns, exclusiveTurns, durationUs) && NonEmpty(exclusiveTurns)
    ensures r == OutOfRange <==> exists t :: t in turns + exclusiveTurns && t.endUs > durationUs
    ensures r == ExclusiveOverlap <==> r != OutOfRange && SomeMeet(exclusiveTurns)
    ensures r.Normalized? <==> r != OutOfRange && r != ExclusiveOverlap
  {
    DisjointExactly(exclusiveTurns);
  }

  lemma KeyForm(k: nat)
    ensures Decimal.Value(KeyOf(k).digits) == k && |KeyOf(k).digits| >= 4
  {
    Decimal.ValueOfPadded(Decimal.Digits(k));
    Decimal.ValueOfDigits(k);
    Decimal.PadsToFour(Decimal.Digits(k));
  }

  /** Heard first, of labels first heard together longer, and of such labels sorting first. */
  ghost predicate HeardBefore(a: Speaker, b: Speaker) {
    && a.firstTurnUs <= b.firstTurnUs
    && (a.firstTurnUs == b.firstTurnUs ==> a.totalSpeechUs >= b.totalSpeechUs)
    && (a.firstTurnUs == b.firstTurnUs && a.totalSpeechUs == b.totalSpeechUs ==> LexLe(a.name, b.name))
  }

  lemma RankDecides(a: Speaker, b: Speaker)
    ensures RanksBefore(a, b) ==> HeardBefore(a, b)
  {
  }

  /**
   * The lower key goes to the label heard first, of labels first heard together to the one heard longer, and then to
   * the label that sorts first; keys have four digits or more.
   */
  lemma KeysFollowHearing(speakers: seq<Speaker>, i: nat, j: nat)
    requires KeysInOrder(speakers) && RankedDistinct(speakers) && i < j < |speakers|
    ensures Decimal.Value(speakers[i].localKey.digits) == i + 1 && |speakers[i].localKey.digits| >= 4
    ensures Decimal.Value(speakers[j].localKey.digits) == j + 1
    ensures HeardBefore(speakers[i], speakers[j]) && speakers[i].name != speakers[j].name
  {
    KeyForm(i + 1);
    KeyForm(j + 1);
    RankDecides(speakers[i], speakers[j]);
  }

  /** Accepted turns come by start, then end, then label. */
  lemma TurnsInOrder(r: Normalization, turns: seq<ProviderTurn>, exclusiveTurns: seq<ProviderTurn>, durationUs: int,
                     i: nat, j: nat)
    requires Outcome(r, turns, exclusiveTurns, durationUs) && r.Normalized? && i < j < |r.turns|
    ensures |Sort(turns, TurnLe)| == |r.turns|
    ensures var a, b := r.turns[i], r.turns[j];
            && a.startUs <= b.startUs && (a.startUs == b.startUs ==> a.endUs <= b.endUs)
            && (a.startUs == b.startUs && a.endUs == b.endUs ==>
                  LexLe(Sort(turns, TurnLe)[i].name, Sort(turns, TurnLe)[j].name))
  {
    TurnOrder();
    SortSorts(turns, TurnLe);
    assert TurnLe(Sort(turns, TurnLe)[i], Sort(turns, TurnLe)[j]);
  }

  lemma NormalTurnsSorted(turns: seq<NormalTurn>, source: seq<ProviderTurn>, speakers: seq<Speaker>)
    requires TurnsOf(turns, source, speakers) && Sorted(source, TurnLe) && NonEmpty(source)
    ensures Overlap.StartSorted(ForOverlap(turns)) && Overlap.NonEmptyTurns(ForOverlap(turns))
  {
    forall a, b | 0 <= a < b < |turns|
      ensures turns[a].startUs <= turns[b].startUs
    {
      assert TurnLe(source[a], source[b]);
    }
    forall a | 0 <= a < |turns| ensures turns[a].startUs < turns[a].endUs { assert source[a] in source; }
  }

  lemma SameSpeaker(turns: seq<NormalTurn>, source: seq<ProviderTurn>, speakers: seq<Speaker>, i: nat, j: nat)
    requires KeysInOrder(speakers) && RankedDistinct(speakers) && TurnsOf(turns, source, speakers)
    requires i < |turns| && j < |turns|
    ensures turns[i].speakerKey == turns[j].speakerKey <==> source[i].name == source[j].name
  {
    KeysIdentifyLabels(speakers, turns[i].speakerKey, source[i].name, turns[j].speakerKey, source[j].name);
  }

  lemma OverlapIsHeard(turns: seq<NormalTurn>, source: seq<ProviderTurn>, speakers: seq<Speaker>, i: nat)
    requires KeysInOrder(speakers) && RankedDistinct(speakers) && TurnsOf(turns, source, speakers) && i < |turns|
    ensures Overlap.OverlapsOtherSpeaker(ForOverlap(turns), i) <==> HeardOver(source, i)
  {
    var t := ForOverlap(turns);
    if j :| 0 <= j < |t| && j != i && t[j].speakerKey != t[i].speakerKey && Overlap.Intersect(t[i], t[j]) {
      SameSpeaker(turns, source, speakers, i, j);
      assert HeardOver(source, i);
    }
    if j :| 0 <= j < |source| && source[j].name != source[i].name
            && source[i].startUs < source[j].endUs && source[j].startUs < source[i].endUs {
      SameSpeaker(turns, source, speakers, i, j);
      assert Overlap.Intersect(t[i], t[j]);
    }
  }

  /**
   * Normalised turns meet the hypotheses of the overlap passes, so each flag tells exactly
   * whether the provider heard another label during that turn.
   */
  lemma NormalTurnsOverlapExactly(r: Normalization, turns: seq<ProviderTurn>, exclusiveTurns: seq<ProviderTurn>,
                                  durationUs: int, i: nat)
    requires NonEmpty(turns) && Outcome(r, turns, exclusiveTurns, durationUs) && r.Normalized? && i < |r.turns|
    ensures Overlap.StartSorted(ForOverlap(r.turns)) && Overlap.NonEmptyTurns(ForOverlap(r.turns))
    ensures i < |Sort(turns, TurnLe)|
    ensures Overlap.OverlapsOtherSpeaker(ForOverlap(r.turns), i) <==> HeardOver(Sort(turns, TurnLe), i)
  {
    var regular := Sort(turns, TurnLe);
    TurnOrder();
    SortSorts(turns, TurnLe);
    SameElements(turns, regular);
    NormalTurnsSorted(r.turns, regular, r.speakers);
    OverlapIsHeard(r.turns, regular, r.speakers, i);
  }
}
