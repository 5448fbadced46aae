/** Greedy partition of a dialogue timeline into bounded scenes. */
module Partition {
  import opened Sorting

  const SCENE_MAX_DURATION_US := 60_000_000
  const SCENE_MAX_DIALOGUES := 200
  const SCENE_SILENCE_BOUNDARY_US := 2_000_000

  /** `id` is the rank of the dialogue's UUID in the order its text form has. */
  datatype Dialogue = Dialogue(id: nat, sequenceNumber: int, startTimeUs: int, endTimeUs: int, text: string)

  datatype Scene = Scene(ordinal: nat, startTimeUs: int, endTimeUs: int, dialogues: seq<Dialogue>)

  predicate DialogueLe(left: Dialogue, right: Dialogue) {
    if left.sequenceNumber != right.sequenceNumber then left.sequenceNumber < right.sequenceNumber
    else if left.startTimeUs != right.startTimeUs then left.startTimeUs < right.startTimeUs
    else left.id <= right.id
  }

  ghost predicate DistinctIds(s: seq<Dialogue>) {
    forall x, y :: x in s && y in s && x.id == y.id ==> x == y
  }

  /** `s[c]` may follow `s[c - 1]` in the scene that began at `a`, the count rule aside. */
  predicate Joins(s: seq<Dialogue>, a: nat, c: nat)
    requires a < c < |s|
  {
    && s[c].startTimeUs - s[c - 1].endTimeUs < SCENE_SILENCE_BOUNDARY_US
    && s[c].endTimeUs - s[a].startTimeUs <= SCENE_MAX_DURATION_US
  }

  /** The three rules hold inside `s[a..b]` taken as one scene. */
  ghost predicate Feasible(s: seq<Dialogue>, a: nat, b: nat)
    requires a < b <= |s|
  {
    b - a <= SCENE_MAX_DIALOGUES && forall c :: a < c < b ==> Joins(s, a, c)
  }

  /** One of the three rules forbids `s[c]` to join the scene that began at `a`. */
  predicate Forced(s: seq<Dialogue>, a: nat, c: nat)
    requires a < c < |s|
  {
    !Joins(s, a, c) || c - a >= SCENE_MAX_DIALOGUES
  }

  /** Cut positions of a partition of `n` dialogues into non-empty contiguous scenes. */
  ghost predicate IsCutting(cuts: seq<nat>, n: nat) {
    && cuts != [] && cuts[0] == 0 && cuts[|cuts| - 1] == n
    && forall i, j :: 0 <= i < j < |cuts| ==> cuts[i] < cuts[j]
  }

  ghost predicate FeasibleAt(s: seq<Dialogue>, cuts: seq<nat>, i: nat)
    requires IsCutting(cuts, |s|) && i < |cuts| - 1
  {
    CutWithin(cuts, |s|, i + 1);
    Feasible(s, cuts[i], cuts[i + 1])
  }

  ghost predicate ForcedAt(s: seq<Dialogue>, cuts: seq<nat>, i: nat)
    requires IsCutting(cuts, |s|) && 0 < i < |cuts| - 1
  {
    Forced(s, cuts[i - 1], cuts[i])
  }

  lemma CutWithin(cuts: seq<nat>, n: nat, i: nat)
    requires IsCutting(cuts, n) && i < |cuts|
    ensures cuts[i] <= n
  {
    assert i == |cuts| - 1 || cuts[i] < cuts[|cuts| - 1];
  }

  ghost predicate FeasibleCutting(s: seq<Dialogue>, cuts: seq<nat>) {
    IsCutting(cuts, |s|) && forall i :: 0 <= i < |cuts| - 1 ==> FeasibleAt(s, cuts, i)
  }

  ghost predicate ForcedCutting(s: seq<Dialogue>, cuts: seq<nat>) {
    IsCutting(cuts, |s|) && forall i :: 0 < i < |cuts| - 1 ==> ForcedAt(s, cuts, i)
  }

  /** The cut positions of a list of scenes laid end to end. */
  function Cuts(scenes: seq<Scene>): (cuts: seq<nat>)
    ensures |cuts| == |scenes| + 1
  {
    if scenes == [] then [0]
    else
      var before := Cuts(scenes[..|scenes| - 1]);
      before + [before[|before| - 1] + |scenes[|scenes| - 1].dialogues|]
  }

  ghost predicate IsMaximumEnd(end: int, dialogues: seq<Dialogue>) {
    && (exists d :: d in dialogues && d.endTimeUs == end)
    && (forall d :: d in dialogues ==> d.endTimeUs <= end)
  }

  ghost predicate SceneOf(scene: Scene, i: nat, s: seq<Dialogue>, a: nat, b: nat) {
    && a < b <= |s|
    && scene.ordinal == i + 1
    && scene.dialogues == s[a..b]
    && scene.startTimeUs == s[a].startTimeUs
    && IsMaximumEnd(scene.endTimeUs, scene.dialogues)
  }

  ghost predicate SceneAt(scenes: seq<Scene>, s: seq<Dialogue>, cuts: seq<nat>, i: nat)
    requires |cuts| == |scenes| + 1 && i < |scenes|
  {
    SceneOf(scenes[i], i, s, cuts[i], cuts[i + 1])
  }

  /** `scenes` lists the blocks of `s` between the cuts, in order, with their derived fields. */
  ghost predicate Describes(scenes: seq<Scene>, s: seq<Dialogue>, cuts: seq<nat>) {
    && |cuts| == |scenes| + 1
    && forall i :: 0 <= i < |scenes| ==> SceneAt(scenes, s, cuts, i)
  }

  /** What the partitioner promises of the scenes of a sorted timeline. */
  ghost predicate GreedyPartition(scenes: seq<Scene>, s: seq<Dialogue>) {
    var cuts := Cuts(scenes);
    Describes(scenes, s, cuts) && FeasibleCutting(s, cuts) && ForcedCutting(s, cuts)
  }

  ghost predicate NonDecreasingStarts(s: seq<Dialogue>) {
    forall i, j :: 0 <= i <= j < |s| ==> s[i].startTimeUs <= s[j].startTimeUs
  }

  lemma DialogueOrder()
    ensures TotalPreorder(DialogueLe)
    ensures forall x, y :: DialogueLe(x, y) && DialogueLe(y, x) ==> x.id == y.id
  {
  }

  /** The timeline goes by sequence number, then by start, then by id, and holds the dialogues given. */
  lemma TimelineInOrder(input: seq<Dialogue>, i: nat, j: nat)
    requires i < j < |input|
    ensures var s := Sort(input, DialogueLe);
            && multiset(s) == multiset(input) && |s| == |input|
            && s[i].sequenceNumber <= s[j].sequenceNumber
            && (s[i].sequenceNumber == s[j].sequenceNumber ==>
                  s[i].startTimeUs < s[j].startTimeUs
                  || (s[i].startTimeUs == s[j].startTimeUs && s[i].id <= s[j].id))
  {
    DialogueOrder();
    SortSorts(input, DialogueLe);
    assert DialogueLe(Sort(input, DialogueLe)[i], Sort(input, DialogueLe)[j]);
  }

  /** Every scene ends by the later of its first dialogue's end and a minute after its start. */
  lemma SceneEndBound(scenes: seq<Scene>, s: seq<Dialogue>, i: nat)
    requires GreedyPartition(scenes, s) && i < |scenes|
    ensures scenes[i].dialogues != [] && |scenes[i].dialogues| <= SCENE_MAX_DIALOGUES
    ensures var limit := scenes[i].startTimeUs + SCENE_MAX_DURATION_US;
            scenes[i].endTimeUs <= limit || scenes[i].endTimeUs == scenes[i].dialogues[0].endTimeUs
  {
    var cuts := Cuts(scenes);
    assert SceneAt(scenes, s, cuts, i) && FeasibleAt(s, cuts, i);
    MemberEndBound(scenes[i], i, s, cuts[i], cuts[i + 1]);
  }

  lemma MemberEndBound(scene: Scene, i: nat, s: seq<Dialogue>, a: nat, b: nat)
    requires SceneOf(scene, i, s, a, b) && Feasible(s, a, b)
    ensures scene.endTimeUs <= scene.startTimeUs + SCENE_MAX_DURATION_US
      || scene.endTimeUs == scene.dialogues[0].endTimeUs
  {
    var d :| d in scene.dialogues && d.endTimeUs == scene.endTimeUs;
    var k :| 0 <= k < b - a && scene.dialogues[k] == d;
    assert k == 0 || Joins(s, a, a + k);
  }

  function Flatten(scenes: seq<Scene>): seq<Dialogue> {
    if scenes == [] then [] else Flatten(scenes[..|scenes| - 1]) + scenes[|scenes| - 1].dialogues
  }

  lemma {:induction false} PrefixConcatenates(scenes: seq<Scene>, s: seq<Dialogue>, cuts: seq<nat>, m: nat)
    requires Describes(scenes, s, cuts) && IsCutting(cuts, |s|) && m <= |scenes|
    ensures cuts[m] <= |s| && Flatten(scenes[..m]) == s[..cuts[m]]
  {
    CutWithin(cuts, |s|, m);
    if m > 0 {
      assert SceneAt(scenes, s, cuts, m - 1);
      PrefixConcatenates(scenes, s, cuts, m - 1);
      assert scenes[..m][..m - 1] == scenes[..m - 1];
      assert s[..cuts[m]] == s[..cuts[m - 1]] + s[cuts[m - 1]..cuts[m]];
    }
  }

  /** Reading the scenes in order reads the sorted timeline, nothing lost or repeated. */
  lemma ScenesConcatenate(scenes: seq<Scene>, s: seq<Dialogue>)
    requires GreedyPartition(scenes, s)
    ensures Flatten(scenes) == s
  {
    PrefixConcatenates(scenes, s, Cuts(scenes), |scenes|);
    assert scenes[..|scenes|] == scenes && s[..|s|] == s;
  }

  /** A cut inside a rival scene that began no later was not forced. */
  lemma RivalAllowsJoin(s: seq<Dialogue>, r: nat, a: nat, c: nat, e: nat)
    requires r <= a < c < e <= |s| && Feasible(s, r, e)
    requires s[r].startTimeUs <= s[a].startTimeUs
    ensures !Forced(s, a, c)
  {
    assert Joins(s, r, c);
  }

  /** With start times in order, the i-th greedy cut is at or beyond the i-th cut of any rival. */
  lemma {:induction false} GreedyStaysAhead(s: seq<Dialogue>, cuts: seq<nat>, rival: seq<nat>, i: nat)
    requires NonDecreasingStarts(s) && ForcedCutting(s, cuts) && FeasibleCutting(s, rival)
    requires i < |cuts| && i < |rival|
    ensures rival[i] <= cuts[i]
  {
    if i > 0 {
      GreedyStaysAhead(s, cuts, rival, i - 1);
      CutWithin(rival, |s|, i);
      if cuts[i] < rival[i] {
        assert ForcedAt(s, cuts, i) && FeasibleAt(s, rival, i - 1);
        RivalAllowsJoin(s, rival[i - 1], cuts[i - 1], cuts[i], rival[i]);
      }
    }
  }

  /** The greedy partition has the fewest scenes among all that meet the three rules. */
  lemma GreedyIsMinimal(s: seq<Dialogue>, scenes: seq<Scene>, rival: seq<nat>)
    requires NonDecreasingStarts(s) && GreedyPartition(scenes, s) && FeasibleCutting(s, rival)
    ensures |scenes| <= |rival| - 1
  {
    var cuts := Cuts(scenes);
    if |cuts| > |rival| {
      GreedyStaysAhead(s, cuts, rival, |rival| - 1);
    }
  }

  // What the loop does for any start times: when its first scenes cover as much as any partition can.

  /** A partition of the first `m` dialogues of the timeline that meets the three rules. */
  ghost predicate FeasibleUpTo(s: seq<Dialogue>, cuts: seq<nat>, m: nat) {
    IsCutting(cuts, m) && m <= |s| && forall i :: 0 <= i < |cuts| - 1 ==> BlockFeasible(s, cuts, m, i)
  }

  ghost predicate BlockFeasible(s: seq<Dialogue>, cuts: seq<nat>, m: nat, i: nat)
    requires IsCutting(cuts, m) && m <= |s| && i < |cuts| - 1
  {
    CutWithin(cuts, m, i + 1);
    Feasible(s, cuts[i], cuts[i + 1])
  }

  /** However many of its scenes one takes, no other partition covers more dialogues with as many scenes. */
  ghost predicate CoversMost(s: seq<Dialogue>, cuts: seq<nat>) {
    forall rival: seq<nat>, m: nat :: FeasibleUpTo(s, rival, m) && |rival| <= |cuts| ==> m <= cuts[|rival| - 1]
  }

  /** A scene begun at `r`, inside scene `j - 1`, could hold all of scene `j` and the dialogue that ends it. */
  ghost predicate Swallows(s: seq<Dialogue>, cuts: seq<nat>, j: nat, r: nat)
    requires IsCutting(cuts, |s|) && 0 < j < |cuts| - 2 && cuts[j - 1] < r < cuts[j]
  {
    CutWithin(cuts, |s|, j + 1);
    assert cuts[j + 1] < cuts[|cuts| - 1];
    Feasible(s, r, cuts[j + 1] + 1)
  }

  ghost predicate NothingSwallows(s: seq<Dialogue>, cuts: seq<nat>)
    requires IsCutting(cuts, |s|)
  {
    forall j: nat, r: nat :: 0 < j < |cuts| - 2 && cuts[j - 1] < r < cuts[j] ==> !Swallows(s, cuts, j, r)
  }

  /** A forced cut is in no feasible block that begins where its scene began. */
  lemma ForcedEnds(s: seq<Dialogue>, cuts: seq<nat>, j: nat, e: nat)
    requires ForcedCutting(s, cuts) && j + 1 < |cuts| && cuts[j] < e <= |s| && Feasible(s, cuts[j], e)
    ensures e <= cuts[j + 1]
  {
    CutWithin(cuts, |s|, j + 1);
    if cuts[j + 1] < e {
      assert j + 1 < |cuts| - 1;
      assert ForcedAt(s, cuts, j + 1);
      RivalAllowsJoin(s, cuts[j], cuts[j], cuts[j + 1], e);
    }
  }

  /** The scene of the partition that dialogue `r` is in. */
  lemma {:induction false} SceneAround(cuts: seq<nat>, n: nat, r: nat, i: nat) returns (j: nat)
    requires IsCutting(cuts, n) && 0 < i < |cuts| && r < cuts[i]
    ensures 0 < j <= i && cuts[j - 1] <= r < cuts[j]
  {
    if i == 1 || cuts[i - 1] <= r {
      j := i;
    } else {
      j := SceneAround(cuts, n, r, i - 1);
    }
  }

  /** A block begun before the end of scene `i - 1` ends by the end of scene `i`. */
  lemma BlockEnds(s: seq<Dialogue>, cuts: seq<nat>, i: nat, r: nat, e: nat)
    requires ForcedCutting(s, cuts) && NothingSwallows(s, cuts) && 0 < i && i + 1 < |cuts|
    requires r < cuts[i] && r < e <= |s| && Feasible(s, r, e)
    ensures e <= cuts[i + 1]
  {
    var j := SceneAround(cuts, |s|, r, i);
    assert j < i ==> cuts[j] < cuts[i];
    assert j < i ==> cuts[j + 1] < cuts[i + 1];
    CutWithin(cuts, |s|, j + 1);
    if r == cuts[j - 1] {
      ForcedEnds(s, cuts, j - 1, e);
      assert cuts[j] < cuts[i + 1];
    } else if cuts[j + 1] < e {
      assert j + 1 < |cuts| - 1;
      assert Swallows(s, cuts, j, r);
    }
  }

  lemma {:induction false} NobodyAhead(s: seq<Dialogue>, cuts: seq<nat>, rival: seq<nat>, m: nat, i: nat)
    requires FeasibleCutting(s, cuts) && ForcedCutting(s, cuts) && NothingSwallows(s, cuts)
    requires FeasibleUpTo(s, rival, m) && i < |rival| && i < |cuts|
    ensures rival[i] <= cuts[i]
  {
    if i > 0 {
      NobodyAhead(s, cuts, rival, m, i - 1);
      CutWithin(rival, m, i);
      assert BlockFeasible(s, rival, m, i - 1);
      if rival[i - 1] == cuts[i - 1] {
        ForcedEnds(s, cuts, i - 1, rival[i]);
      } else {
        BlockEnds(s, cuts, i - 1, rival[i - 1], rival[i]);
      }
    }
  }

  /** The rival that begins a scene at `r` and swallows the next scene covers more with as many scenes. */
  lemma SwallowingWins(s: seq<Dialogue>, cuts: seq<nat>, j: nat, r: nat)
    requires FeasibleCutting(s, cuts) && 0 < j < |cuts| - 2 && cuts[j - 1] < r < cuts[j] && Swallows(s, cuts, j, r)
    ensures !CoversMost(s, cuts)
  {
    CutWithin(cuts, |s|, j);
    var m := cuts[j + 1] + 1;
    assert cuts[j + 1] < cuts[|cuts| - 1] && cuts[j] < cuts[j + 1];
    var rival := cuts[..j] + [r, m];
    assert IsCutting(rival, m) by {
      forall x, y | 0 <= x < y < |rival| ensures rival[x] < rival[y] {
        if x < j { assert rival[x] == cuts[x] <= cuts[j - 1]; }
      }
    }
    forall i | 0 <= i < |rival| - 1 ensures BlockFeasible(s, rival, m, i) {
      if i < j { assert FeasibleAt(s, cuts, i); }
    }
    assert FeasibleUpTo(s, rival, m) && |rival| == j + 2;
  }

  /** Exactly when the first scenes, however many, cover as many dialogues as so many scenes can. */
  lemma CoversMostExactly(s: seq<Dialogue>, cuts: seq<nat>)
    requires FeasibleCutting(s, cuts) && ForcedCutting(s, cuts)
    ensures CoversMost(s, cuts) <==> NothingSwallows(s, cuts)
  {
    if NothingSwallows(s, cuts) {
      forall rival: seq<nat>, m: nat | FeasibleUpTo(s, rival, m) && |rival| <= |cuts| ensures m <= cuts[|rival| - 1] {
        NobodyAhead(s, cuts, rival, m, |rival| - 1);
      }
    } else {
      var j: nat, r: nat :| 0 < j < |cuts| - 2 && cuts[j - 1] < r < cuts[j] && Swallows(s, cuts, j, r);
      SwallowingWins(s, cuts, j, r);
    }
  }

  lemma CutsOrdered(cuts: seq<nat>, n: nat, i: nat, j: nat)
    requires IsCutting(cuts, n) && i <= j < |cuts|
    ensures cuts[i] <= cuts[j]
  {
    if i < j { assert cuts[i] < cuts[j]; }
  }

  /** How many scenes the loop has begun when it has read `m` dialogues. */
  function ScenesSoFar(cuts: seq<nat>, n: nat, m: nat, i: nat := 0): (k: nat)
    requires IsCutting(cuts, n) && m <= n && i < |cuts| && (i > 0 ==> cuts[i - 1] < m)
    ensures k < |cuts| && m <= cuts[k] && (k > 0 ==> cuts[k - 1] < m)
    decreases |cuts| - i
  {
    if m <= cuts[i] then i else ScenesSoFar(cuts, n, m, i + 1)
  }

  /** Whenever the loop has read a dialogue, no partition of the dialogues read has fewer scenes. */
  ghost predicate FewestSoFar(s: seq<Dialogue>, cuts: seq<nat>)
    requires IsCutting(cuts, |s|)
  {
    forall rival: seq<nat>, m: nat :: FeasibleUpTo(s, rival, m) ==> ScenesSoFar(cuts, |s|, m) <= |rival| - 1
  }

  /** Exactly when the loop has, at every moment, made the fewest scenes for the dialogues read. */
  lemma FewestSoFarExactly(s: seq<Dialogue>, cuts: seq<nat>)
    requires FeasibleCutting(s, cuts) && ForcedCutting(s, cuts)
    ensures FewestSoFar(s, cuts) <==> NothingSwallows(s, cuts)
  {
    CoversMostExactly(s, cuts);
    forall rival: seq<nat>, m: nat | FeasibleUpTo(s, rival, m)
      ensures ScenesSoFar(cuts, |s|, m) <= |rival| - 1 <==> (|rival| <= |cuts| ==> m <= cuts[|rival| - 1])
    {
      FewestIsCovering(cuts, |s|, m, |rival| - 1);
    }
  }

  /** The loop's cuts after `m` dialogues: the rules force the same ones on the dialogues read alone. */
  lemma CutsSoFar(s: seq<Dialogue>, cuts: seq<nat>, m: nat)
    requires FeasibleCutting(s, cuts) && ForcedCutting(s, cuts) && m <= |s|
    ensures var soFar := cuts[..ScenesSoFar(cuts, |s|, m)] + [m];
            FeasibleCutting(s[..m], soFar) && ForcedCutting(s[..m], soFar)
  {
    var k := ScenesSoFar(cuts, |s|, m);
    var soFar := cuts[..k] + [m];
    assert IsCutting(soFar, m) by {
      forall x, y | 0 <= x < y < |soFar| ensures soFar[x] < soFar[y] {
        if y == k { CutsOrdered(cuts, |s|, x, k - 1); }
      }
    }
    forall i | 0 <= i < |soFar| - 1 ensures FeasibleAt(s[..m], soFar, i) {
      assert FeasibleAt(s, cuts, i);
      CutWithin(cuts, |s|, i + 1);
      CutWithin(soFar, m, i + 1);
      FeasiblePrefix(s, m, soFar[i], soFar[i + 1], cuts[i + 1]);
    }
    forall i | 0 < i < |soFar| - 1 ensures ForcedAt(s[..m], soFar, i) {
      assert ForcedAt(s, cuts, i);
    }
  }

  lemma FeasiblePrefix(s: seq<Dialogue>, m: nat, a: nat, b: nat, e: nat)
    requires a < b <= m <= |s| && b <= e <= |s| && Feasible(s, a, e)
    ensures Feasible(s[..m], a, b)
  {
    forall c | a < c < b ensures Joins(s[..m], a, c) { assert Joins(s, a, c); }
  }

  lemma FewestIsCovering(cuts: seq<nat>, n: nat, m: nat, k: nat)
    requires IsCutting(cuts, n) && m <= n
    ensures ScenesSoFar(cuts, n, m) <= k <==> (k < |cuts| ==> m <= cuts[k])
  {
    var so := ScenesSoFar(cuts, n, m);
    if k < |cuts| && so > k { CutsOrdered(cuts, n, k, so - 1); }
    if k < |cuts| && so <= k { CutsOrdered(cuts, n, so, k); }
  }

  /** Each scene after the first starts no earlier than the dialogues of the scene before it. */
  ghost predicate SceneStartsInOrder(s: seq<Dialogue>, cuts: seq<nat>)
    requires IsCutting(cuts, |s|)
  {
    forall j: nat, r: nat :: 0 < j < |cuts| - 2 && cuts[j - 1] < r < cuts[j] ==> StartsBefore(s, cuts, j, r)
  }

  ghost predicate StartsBefore(s: seq<Dialogue>, cuts: seq<nat>, j: nat, r: nat)
    requires IsCutting(cuts, |s|) && 0 < j < |cuts| - 2 && cuts[j - 1] < r < cuts[j]
  {
    assert cuts[j] < cuts[|cuts| - 1];
    s[r].startTimeUs <= s[cuts[j]].startTimeUs
  }

  /** Order is needed between a scene's start and the dialogues of the scene before it only. */
  lemma OrderedSceneStartsSuffice(s: seq<Dialogue>, cuts: seq<nat>)
    requires FeasibleCutting(s, cuts) && ForcedCutting(s, cuts) && SceneStartsInOrder(s, cuts)
    ensures NothingSwallows(s, cuts)
  {
    forall j: nat, r: nat | 0 < j < |cuts| - 2 && cuts[j - 1] < r < cuts[j] ensures !Swallows(s, cuts, j, r) {
      assert cuts[j] < cuts[j + 1] < cuts[|cuts| - 1];
      assert StartsBefore(s, cuts, j, r) && ForcedAt(s, cuts, j + 1);
      if Swallows(s, cuts, j, r) {
        RivalAllowsJoin(s, r, cuts[j], cuts[j + 1], cuts[j + 1] + 1);
      }
    }
  }

  lemma UpToEnd(s: seq<Dialogue>, rival: seq<nat>)
    requires FeasibleCutting(s, rival)
    ensures FeasibleUpTo(s, rival, |s|)
  {
    forall i | 0 <= i < |rival| - 1 ensures BlockFeasible(s, rival, |s|, i) { assert FeasibleAt(s, rival, i); }
  }

  lemma EndsLast(cuts: seq<nat>, n: nat, i: nat)
    requires IsCutting(cuts, n) && i < |cuts| - 1
    ensures cuts[i] < n
  {
  }

  lemma NobodyEndsSooner(s: seq<Dialogue>, cuts: seq<nat>, rival: seq<nat>)
    requires FeasibleCutting(s, cuts) && ForcedCutting(s, cuts) && NothingSwallows(s, cuts) && FeasibleCutting(s, rival)
    ensures |cuts| <= |rival|
  {
    if |rival| < |cuts| {
      UpToEnd(s, rival);
      EndsLast(cuts, |s|, |rival| - 1);
      NobodyAhead(s, cuts, rival, |s|, |rival| - 1);
    }
  }

  /** The fewest scenes, for any start times, if no dialogue could begin a scene that swallows the next one. */
  lemma GreedyIsMinimalInAnyOrder(s: seq<Dialogue>, scenes: seq<Scene>, rival: seq<nat>)
    requires GreedyPartition(scenes, s) && FeasibleCutting(s, rival) && NothingSwallows(s, Cuts(scenes))
    ensures |scenes| <= |rival| - 1
  {
    NobodyEndsSooner(s, Cuts(scenes), rival);
  }

  /** Four dialogues of which the third starts with the first. */
  function Staggered(): seq<Dialogue> {
    [Dialogue(0, 0, 0, 49_000_000, ""), Dialogue(1, 1, 50_000_000, 51_000_000, ""),
     Dialogue(2, 2, 0, 70_000_000, ""), Dialogue(3, 3, 70_000_000, 105_000_000, "")]
  }

  lemma StaggeredJoins()
    ensures var s := Staggered();
            && Joins(s, 0, 1) && !Joins(s, 0, 2) && !Joins(s, 2, 3) && Joins(s, 1, 2) && Joins(s, 1, 3)
            && s[1].startTimeUs > s[2].startTimeUs
  {
  }

  lemma StaggeredGreedy()
    ensures FeasibleCutting(Staggered(), [0, 2, 3, 4]) && ForcedCutting(Staggered(), [0, 2, 3, 4])
  {
    var s, greedy := Staggered(), [0, 2, 3, 4];
    StaggeredJoins();
    assert FeasibleAt(s, greedy, 0) && FeasibleAt(s, greedy, 1) && FeasibleAt(s, greedy, 2);
    assert ForcedAt(s, greedy, 1) && ForcedAt(s, greedy, 2);
  }

  lemma StaggeredRival()
    ensures FeasibleCutting(Staggered(), [0, 1, 4])
  {
    StaggeredJoins();
    assert FeasibleAt(Staggered(), [0, 1, 4], 0) && FeasibleAt(Staggered(), [0, 1, 4], 1);
  }

  /** The fewest scenes is not promised in any order: here two scenes would do and the greedy rule makes three. */
  lemma MinimalityNeedsStartOrder() returns (s: seq<Dialogue>, greedy: seq<nat>, rival: seq<nat>)
    ensures !NonDecreasingStarts(s)
    ensures FeasibleCutting(s, greedy) && ForcedCutting(s, greedy) && FeasibleCutting(s, rival)
    ensures |rival| < |greedy|
  {
    s, greedy, rival := Staggered(), [0, 2, 3, 4], [0, 1, 4];
    StaggeredGreedy();
    StaggeredRival();
    assert s[1].startTimeUs > s[2].startTimeUs;
  }

  lemma NoEarlierCut(s: seq<Dialogue>, p: seq<nat>, q: seq<nat>, i: nat)
    requires ForcedCutting(s, p) && FeasibleCutting(s, q)
    requires 0 < i < |p| && i < |q| && p[i - 1] == q[i - 1]
    ensures p[i] >= q[i]
  {
    CutWithin(q, |s|, i);
    if p[i] < q[i] {
      assert ForcedAt(s, p, i) && FeasibleAt(s, q, i - 1);
      RivalAllowsJoin(s, q[i - 1], p[i - 1], p[i], q[i]);
    }
  }

  /** The promise determines the cuts: they agree position by position. */
  lemma {:induction false} GreedyCutsUnique(s: seq<Dialogue>, p: seq<nat>, q: seq<nat>, i: nat)
    requires FeasibleCutting(s, p) && ForcedCutting(s, p) && FeasibleCutting(s, q) && ForcedCutting(s, q)
    requires i < |p| && i < |q|
    ensures p[i] == q[i]
  {
    if i > 0 {
      GreedyCutsUnique(s, p, q, i - 1);
      NoEarlierCut(s, p, q, i);
      NoEarlierCut(s, q, p, i);
    }
  }

  lemma SameEnd(dialogues: seq<Dialogue>, x: int, y: int)
    requires IsMaximumEnd(x, dialogues) && IsMaximumEnd(y, dialogues)
    ensures x == y
  {
  }

  /** The promise determines the whole result. */
  lemma GreedyPartitionUnique(s: seq<Dialogue>, x: seq<Scene>, y: seq<Scene>)
    requires GreedyPartition(x, s) && GreedyPartition(y, s)
    ensures x == y
  {
    var p, q := Cuts(x), Cuts(y);
    GreedyCutsUnique(s, p, q, if |p| < |q| then |p| - 1 else |q| - 1);
    assert |p| == |q|;
    forall i | 0 <= i < |x| ensures x[i] == y[i] {
      GreedyCutsUnique(s, p, q, i);
      GreedyCutsUnique(s, p, q, i + 1);
      assert SceneAt(x, s, p, i) && SceneAt(y, s, q, i);
      SameEnd(x[i].dialogues, x[i].endTimeUs, y[i].endTimeUs);
    }
  }

  /** Input order does not affect the scenes when dialogue ids are distinct. */
  lemma InputOrderIrrelevant(a: seq<Dialogue>, b: seq<Dialogue>, x: seq<Scene>, y: seq<Scene>)
    requires multiset(a) == multiset(b) && DistinctIds(a)
    requires GreedyPartition(x, Sort(a, DialogueLe)) && GreedyPartition(y, Sort(b, DialogueLe))
    ensures x == y
  {
    DialogueOrder();
    SortForgetsOrder(a, b, DialogueLe);
    GreedyPartitionUnique(Sort(a, DialogueLe), x, y);
  }

  /** The loop state: a greedy partition of the dialogues read so far. */
  ghost predicate Progress(scenes: seq<Scene>, cuts: seq<nat>, s: seq<Dialogue>) {
    Describes(scenes, s, cuts) && FeasibleCutting(s, cuts) && ForcedCutting(s, cuts)
  }

  lemma SceneOfLonger(scene: Scene, i: nat, s: seq<Dialogue>, t: seq<Dialogue>, a: nat, b: nat)
    requires s <= t && SceneOf(scene, i, s, a, b) && Feasible(s, a, b)
    ensures SceneOf(scene, i, t, a, b) && Feasible(t, a, b)
  {
    assert t[a..b] == s[a..b];
    forall c | a < c < b ensures Joins(t, a, c) { assert Joins(s, a, c); }
  }

  /** The first `m` scenes and their cuts survive when the timeline and the lists change after them. */
  lemma KeepScenes(scenes: seq<Scene>, cuts: seq<nat>, s: seq<Dialogue>, more: seq<Scene>, after: seq<nat>,
                   t: seq<Dialogue>, m: nat)
    requires s <= t && Progress(scenes, cuts, s) && m <= |scenes| && m <= |more| && |after| == |more| + 1
    requires IsCutting(after, |t|)
    requires forall i :: 0 <= i < m ==> more[i] == scenes[i]
    requires forall i :: 0 <= i <= m ==> after[i] == cuts[i]
    ensures forall i :: 0 <= i < m ==> SceneAt(more, t, after, i)
    ensures forall i :: 0 <= i < m ==> FeasibleAt(t, after, i)
    ensures forall i :: 0 < i < m ==> ForcedAt(t, after, i)
  {
    forall i | 0 <= i < m ensures SceneAt(more, t, after, i) && FeasibleAt(t, after, i) {
      assert SceneAt(scenes, s, cuts, i) && FeasibleAt(s, cuts, i);
      SceneOfLonger(scenes[i], i, s, t, cuts[i], cuts[i + 1]);
    }
    forall i | 0 < i < m ensures ForcedAt(t, after, i) {
      assert ForcedAt(s, cuts, i);
      assert Joins(s, cuts[i - 1], cuts[i]) == Joins(t, cuts[i - 1], cuts[i]);
    }
  }

  lemma OpenScene(scenes: seq<Scene>, cuts: seq<nat>, s: seq<Dialogue>, d: Dialogue)
    requires Progress(scenes, cuts, s)
    requires scenes != [] ==> cuts[|scenes| - 1] < |s| && Forced(s + [d], cuts[|scenes| - 1], |s|)
    ensures Progress(scenes + [Scene(|scenes| + 1, d.startTimeUs, d.endTimeUs, [d])], cuts + [|s| + 1], s + [d])
  {
    var m, n, t, scene := |scenes|, |s|, s + [d], Scene(|scenes| + 1, d.startTimeUs, d.endTimeUs, [d]);
    var after, more := cuts + [n + 1], scenes + [scene];
    KeepScenes(scenes, cuts, s, more, after, t, m);
    assert t[n..n + 1] == [d] && d in scene.dialogues;
    assert SceneOf(scene, m, t, n, n + 1) && Feasible(t, n, n + 1);
    assert SceneAt(more, t, after, m) && FeasibleAt(t, after, m);
    if m > 0 { assert ForcedAt(t, after, m); }
  }

  function Grown(scene: Scene, d: Dialogue): Scene {
    scene.(dialogues := scene.dialogues + [d],
           endTimeUs := if d.endTimeUs > scene.endTimeUs then d.endTimeUs else scene.endTimeUs)
  }

  lemma GrownSceneOf(scene: Scene, i: nat, s: seq<Dialogue>, a: nat, d: Dialogue)
    requires SceneOf(scene, i, s, a, |s|) && Feasible(s, a, |s|) && !Forced(s + [d], a, |s|)
    ensures SceneOf(Grown(scene, d), i, s + [d], a, |s| + 1) && Feasible(s + [d], a, |s| + 1)
  {
    var t := s + [d];
    SceneOfLonger(scene, i, s, t, a, |s|);
    assert t[a..|s| + 1] == t[a..|s|] + [d];
    GrownMaximum(scene.endTimeUs, scene.dialogues, d);
  }

  lemma GrowScene(scenes: seq<Scene>, cuts: seq<nat>, s: seq<Dialogue>, d: Dialogue)
    requires Progress(scenes, cuts, s) && scenes != [] && cuts[|scenes| - 1] < |s|
    requires !Forced(s + [d], cuts[|scenes| - 1], |s|)
    ensures Progress(scenes[|scenes| - 1 := Grown(scenes[|scenes| - 1], d)], cuts[|scenes| := |s| + 1], s + [d])
  {
    var m, t := |scenes| - 1, s + [d];
    var after, more := cuts[m + 1 := |s| + 1], scenes[m := Grown(scenes[m], d)];
    assert IsCutting(after, |t|);
    KeepScenes(scenes, cuts, s, more, after, t, m);
    assert SceneAt(scenes, s, cuts, m) && FeasibleAt(s, cuts, m);
    GrownSceneOf(scenes[m], m, s, cuts[m], d);
    assert SceneAt(more, t, after, m) && FeasibleAt(t, after, m);
    if m > 0 {
      assert ForcedAt(s, cuts, m);
      assert Joins(s, cuts[m - 1], cuts[m]) == Joins(t, cuts[m - 1], cuts[m]);
      assert ForcedAt(t, after, m);
    }
  }

  lemma GrownMaximum(end: int, dialogues: seq<Dialogue>, d: Dialogue)
    requires IsMaximumEnd(end, dialogues)
    ensures IsMaximumEnd(if d.endTimeUs > end then d.endTimeUs else end, dialogues + [d])
  {
    var e :| e in dialogues && e.endTimeUs == end;
    assert e in dialogues + [d] && d in dialogues + [d];
  }

  lemma LastSceneShape(scenes: seq<Scene>, cuts: seq<nat>, s: seq<Dialogue>, d: Dialogue)
    requires scenes != [] && Progress(scenes, cuts, s)
    ensures var current, a := scenes[|scenes| - 1], cuts[|scenes| - 1];
            && a < |s| && |current.dialogues| == |s| - a
            && (Forced(s + [d], a, |s|) <==>
                  || d.startTimeUs - current.dialogues[|s| - a - 1].endTimeUs >= SCENE_SILENCE_BOUNDARY_US
                  || d.endTimeUs - current.startTimeUs > SCENE_MAX_DURATION_US
                  || |current.dialogues| >= SCENE_MAX_DIALOGUES)
  {
    assert SceneAt(scenes, s, cuts, |scenes| - 1);
  }

  /** Scene lengths recover the cuts, so the finished scenes need no record of them. */
  lemma {:induction false} CutsRecovered(scenes: seq<Scene>, cuts: seq<nat>, s: seq<Dialogue>, m: nat)
    requires Describes(scenes, s, cuts) && IsCutting(cuts, |s|) && m <= |scenes|
    ensures Cuts(scenes[..m]) == cuts[..m + 1]
  {
    if m > 0 {
      CutsRecovered(scenes, cuts, s, m - 1);
      assert SceneAt(scenes, s, cuts, m - 1);
      assert scenes[..m][..m - 1] == scenes[..m - 1];
    }
  }

  lemma ProgressIsGreedy(scenes: seq<Scene>, cuts: seq<nat>, s: seq<Dialogue>)
    requires Progress(scenes, cuts, s)
    ensures GreedyPartition(scenes, s)
  {
    CutsRecovered(scenes, cuts, s, |scenes|);
    assert scenes[..|scenes|] == scenes && cuts[..|scenes| + 1] == cuts;
  }

  lemma OneMore(s: seq<Dialogue>, n: nat)
    requires n < |s|
    ensures s[..n + 1] == s[..n] + [s[n]]
  {
  }

  method PartitionLocalizationScenes(input: seq<Dialogue>) returns (scenes: seq<Scene>)
    ensures GreedyPartition(scenes, Sort(input, DialogueLe))
  {
    var ordered := Sort(input, DialogueLe);
    scenes := [];
    ghost var cuts: seq<nat> := [0];
    var next := 0;
    while next < |ordered|
      invariant 0 <= next <= |ordered|
      invariant Progress(scenes, cuts, ordered[..next])
    {
      var dialogue := ordered[next];
      OneMore(ordered, next);
      var cut := scenes == [];
      if scenes != [] {
        LastSceneShape(scenes, cuts, ordered[..next], dialogue);
        var current := scenes[|scenes| - 1];
        var previous := current.dialogues[|current.dialogues| - 1];
        cut := || dialogue.startTimeUs - previous.endTimeUs >= SCENE_SILENCE_BOUNDARY_US
               || dialogue.endTimeUs - current.startTimeUs > SCENE_MAX_DURATION_US
               || |current.dialogues| >= SCENE_MAX_DIALOGUES;
      }
      if cut {
        OpenScene(scenes, cuts, ordered[..next], dialogue);
        cuts := cuts + [next + 1];
        scenes := scenes + [Scene(|scenes| + 1, dialogue.startTimeUs, dialogue.endTimeUs, [dialogue])];
      } else {
        GrowScene(scenes, cuts, ordered[..next], dialogue);
        var current := scenes[|scenes| - 1];
        cuts := cuts[|scenes| := next + 1];
        current := current.(dialogues := current.dialogues + [dialogue]);
        if dialogue.endTimeUs > current.endTimeUs {
          current := current.(endTimeUs := dialogue.endTimeUs);
        }
        scenes := scenes[|scenes| - 1 := current];
      }
      next := next + 1;
    }
    assert ordered[..next] == ordered;
    ProgressIsGreedy(scenes, cuts, ordered);
  }
}
