/** How a file is cut into parts, and which completion manifests the API accepts. */
module Tiling {
  import opened Wrappers
  import opened Sorting

  /** `totalParts` is computed once, when the upload is created. */
  datatype Layout = Layout(byteSize: nat, partSize: nat, totalParts: nat)

  ghost predicate ValidLayout(l: Layout) {
    l.byteSize >= 1 && l.partSize >= 1 && l.totalParts == TotalParts(l.byteSize, l.partSize)
  }

  /** ceil(byteSize / partSize). */
  function TotalParts(byteSize: nat, partSize: nat): nat
    requires partSize >= 1
  {
    (byteSize + partSize - 1) / partSize
  }

  function ExpectedPartSize(l: Layout, number: int): int {
    if number == l.totalParts then l.byteSize - l.partSize * (l.totalParts - 1) else l.partSize
  }

  /** Where the client's slice for part `number` starts. */
  function Start(l: Layout, number: int): int {
    (number - 1) * l.partSize
  }

  lemma Ceiling(byteSize: nat, partSize: nat)
    requires byteSize >= 1 && partSize >= 1
    ensures var n := TotalParts(byteSize, partSize); n >= 1 && partSize * (n - 1) < byteSize <= partSize * n
  {
    var n := TotalParts(byteSize, partSize);
    var r := (byteSize + partSize - 1) % partSize;
    assert byteSize + partSize - 1 == n * partSize + r;
    assert partSize * (n - 1) == n * partSize - partSize;
    assert n == 0 ==> n * partSize == 0;
  }

  /** Every expected size is at least one byte and at most a full part. */
  lemma SizesInRange(l: Layout, number: int)
    requires ValidLayout(l) && 1 <= number <= l.totalParts
    ensures 1 <= ExpectedPartSize(l, number) <= l.partSize
  {
    Ceiling(l.byteSize, l.partSize);
    assert l.partSize * l.totalParts == l.partSize * (l.totalParts - 1) + l.partSize;
  }

  /** The expected sizes of parts 1..n, added up. */
  function SumOfSizes(l: Layout, n: nat): int {
    if n == 0 then 0 else SumOfSizes(l, n - 1) + ExpectedPartSize(l, n)
  }

  lemma {:induction false} SumOfFullParts(l: Layout, n: nat)
    requires n < l.totalParts
    ensures SumOfSizes(l, n) == l.partSize * n
  {
    if n > 0 {
      SumOfFullParts(l, n - 1);
      assert l.partSize * n == l.partSize * (n - 1) + l.partSize;
    }
  }

  /** Together the parts are as large as the file. */
  lemma SizesSumToFile(l: Layout)
    requires ValidLayout(l)
    ensures SumOfSizes(l, l.totalParts) == l.byteSize
  {
    Ceiling(l.byteSize, l.partSize);
    SumOfFullParts(l, l.totalParts - 1);
  }

  predicate InSlice(l: Layout, number: int, offset: int) {
    Start(l, number) <= offset < Start(l, number) + ExpectedPartSize(l, number)
  }

  /** The part that carries a byte. */
  function PartOf(l: Layout, offset: nat): int
    requires l.partSize >= 1
  {
    offset / l.partSize + 1
  }

  lemma Scale(partSize: nat, a: int, b: int)
    requires a <= b
    ensures a * partSize <= b * partSize
  {
  }

  lemma FullPartContains(l: Layout, offset: nat)
    requires l.partSize >= 1
    ensures Start(l, PartOf(l, offset)) <= offset < Start(l, PartOf(l, offset)) + l.partSize
  {
    assert offset == (offset / l.partSize) * l.partSize + offset % l.partSize;
  }

  /** The slices lie inside the file, and each byte of the file is in exactly one of them. */
  lemma SlicesPartitionFile(l: Layout, offset: nat)
    requires ValidLayout(l)
    ensures offset < l.byteSize ==> 1 <= PartOf(l, offset) <= l.totalParts && InSlice(l, PartOf(l, offset), offset)
    ensures forall number :: 1 <= number <= l.totalParts && InSlice(l, number, offset) ==>
      offset < l.byteSize && number == PartOf(l, offset)
  {
    Ceiling(l.byteSize, l.partSize);
    var p := PartOf(l, offset);
    FullPartContains(l, offset);
    if offset < l.byteSize {
      if p > l.totalParts { Scale(l.partSize, l.totalParts, p - 1); }
      LastSliceEnds(l);
    }
    forall number | 1 <= number <= l.totalParts && InSlice(l, number, offset)
      ensures offset < l.byteSize && number == p
    {
      SizesInRange(l, number);
      SliceInFile(l, number);
      SliceIsItsOwn(l, number, offset);
    }
  }

  lemma LastSliceEnds(l: Layout)
    requires ValidLayout(l)
    ensures Start(l, l.totalParts) + ExpectedPartSize(l, l.totalParts) == l.byteSize
  {
    assert Start(l, l.totalParts) == l.partSize * (l.totalParts - 1);
  }

  lemma SliceInFile(l: Layout, number: int)
    requires ValidLayout(l) && 1 <= number <= l.totalParts
    ensures 0 <= Start(l, number) && Start(l, number) + ExpectedPartSize(l, number) <= l.byteSize
  {
    Ceiling(l.byteSize, l.partSize);
    LastSliceEnds(l);
    Scale(l.partSize, 0, number - 1);
    if number < l.totalParts {
      Scale(l.partSize, number, l.totalParts - 1);
      assert Start(l, number) + l.partSize == number * l.partSize;
    }
  }

  lemma SliceIsItsOwn(l: Layout, number: int, offset: nat)
    requires l.partSize >= 1 && number >= 1 && Start(l, number) <= offset < Start(l, number) + l.partSize
    ensures number == PartOf(l, offset)
  {
    FullPartContains(l, offset);
    var p := PartOf(l, offset);
    assert number * l.partSize == Start(l, number) + l.partSize;
    assert p * l.partSize == Start(l, p) + l.partSize;
    if number < p { Scale(l.partSize, number, p - 1); }
    if p < number { Scale(l.partSize, p, number - 1); }
  }

  // ---- Completion manifests ----

  datatype Part = Part(number: int, etag: string, byteSize: Option<int>)

  datatype Verdict = Accepted | PartMissing | NotContiguous | UnexpectedSize(number: int)

  predicate PartFits(l: Layout, part: Part, number: int) {
    part.number == number && (part.byteSize.Some? ==> part.byteSize.value == ExpectedPartSize(l, number))
  }

  /** Part 1, part 2, and so on, each of its expected size if it states one. */
  ghost predicate CompleteManifest(l: Layout, parts: seq<Part>) {
    |parts| == l.totalParts && forall i :: 0 <= i < |parts| ==> PartFits(l, parts[i], i + 1)
  }

  /** What a complete manifest states: part i is number i, of the part size or, the last one, of what is left. */
  lemma CompleteExactly(l: Layout, parts: seq<Part>)
    ensures CompleteManifest(l, parts) <==>
            && |parts| == l.totalParts
            && (forall i :: 0 <= i < |parts| ==> parts[i].number == i + 1)
            && (forall i :: 0 <= i < |parts| - 1 ==> parts[i].byteSize in {None, Some(l.partSize)})
            && (parts != [] ==> parts[|parts| - 1].byteSize in {None, Some(l.byteSize - l.partSize * (|parts| - 1))})
  {
    if CompleteManifest(l, parts) && parts != [] { assert PartFits(l, parts[|parts| - 1], |parts|); }
  }

  /** The first objection, if there is one. */
  ghost predicate IsVerdict(l: Layout, parts: seq<Part>, verdict: Verdict) {
    match verdict
    case Accepted => CompleteManifest(l, parts)
    case PartMissing => |parts| != l.totalParts
    case NotContiguous =>
      |parts| == l.totalParts
      && exists i ::
           && 0 <= i < |parts| && parts[i].number != i + 1
           && forall j :: 0 <= j < i ==> PartFits(l, parts[j], j + 1)
    case UnexpectedSize(number) =>
      |parts| == l.totalParts && 1 <= number <= |parts|
      && parts[number - 1].number == number && !PartFits(l, parts[number - 1], number)
      && forall j :: 0 <= j < number - 1 ==> PartFits(l, parts[j], j + 1)
  }

  method AssertCompleteManifest(l: Layout, parts: seq<Part>) returns (verdict: Verdict)
    ensures IsVerdict(l, parts, verdict)
    ensures verdict == Accepted <==> CompleteManifest(l, parts)
  {
    if |parts| != l.totalParts { return PartMissing; }
    var i := 0;
    while i < |parts|
      invariant 0 <= i <= |parts|
      invariant forall j :: 0 <= j < i ==> PartFits(l, parts[j], j + 1)
    {
      var part := parts[i];
      var expectedPartNumber := i + 1;
      if part.number != expectedPartNumber {
        assert !PartFits(l, parts[i], i + 1);
        return NotContiguous;
      }
      var expectedBytes := ExpectedPartSize(l, part.number);
      if part.byteSize.Some? && part.byteSize.value != expectedBytes {
        assert !PartFits(l, parts[i], i + 1);
        return UnexpectedSize(part.number);
      }
      i := i + 1;
    }
    return Accepted;
  }

  predicate NumberLe(a: Part, b: Part) { a.number <= b.number }

  /** The parts of an upload in any order: each number once, every stated size as expected. */
  ghost predicate AllPartsOnce(l: Layout, parts: seq<Part>) {
    && |parts| == l.totalParts
    && (forall i, j :: 0 <= i < j < |parts| ==> parts[i].number != parts[j].number)
    && forall p :: p in parts ==> 1 <= p.number <= l.totalParts && PartFits(l, p, p.number)
  }

  lemma {:induction false} AscendingFromOne(parts: seq<Part>, low: int, high: int)
    requires |parts| == high - low
    requires forall i, j :: 0 <= i < j < |parts| ==> parts[i].number < parts[j].number
    requires forall i :: 0 <= i < |parts| ==> low < parts[i].number <= high
    ensures forall i :: 0 <= i < |parts| ==> parts[i].number == low + i + 1
  {
    if parts != [] {
      var front, last := parts[..|parts| - 1], parts[|parts| - 1];
      CountAscending(parts, low);
      AscendingFromOne(front, low, high - 1);
    }
  }

  lemma {:induction false} CountAscending(parts: seq<Part>, low: int)
    requires forall i, j :: 0 <= i < j < |parts| ==> parts[i].number < parts[j].number
    requires forall i :: 0 <= i < |parts| ==> low < parts[i].number
    ensures parts != [] ==> parts[|parts| - 1].number >= low + |parts|
  {
    if |parts| > 1 { CountAscending(parts[..|parts| - 1], low); }
  }

  lemma NumbersDistinct(parts: seq<Part>, sorted: seq<Part>)
    requires multiset(parts) == multiset(sorted)
      && forall i, j :: 0 <= i < j < |parts| ==> parts[i].number != parts[j].number
    ensures forall i, j :: 0 <= i < j < |sorted| ==> sorted[i].number != sorted[j].number
  {
    assert Distinct(parts);
    DistinctOfPermutation(parts, sorted);
    SameElements(parts, sorted);
    forall i, j | 0 <= i < j < |sorted| ensures sorted[i].number != sorted[j].number {
      assert sorted[i] in parts && sorted[j] in parts;
    }
  }

  lemma AllPartsSort(l: Layout, parts: seq<Part>)
    requires AllPartsOnce(l, parts)
    ensures CompleteManifest(l, Sort(parts, NumberLe))
  {
    var sorted := Sort(parts, NumberLe);
    SortSorts(parts, NumberLe);
    SameElements(parts, sorted);
    NumbersDistinct(parts, sorted);
    forall i, j | 0 <= i < j < |sorted| ensures sorted[i].number < sorted[j].number {
      assert NumberLe(sorted[i], sorted[j]);
    }
    forall i | 0 <= i < |sorted|
      ensures 0 < sorted[i].number <= l.totalParts && PartFits(l, sorted[i], sorted[i].number)
    {
      assert sorted[i] in parts;
    }
    AscendingFromOne(sorted, 0, l.totalParts);
  }

  lemma SortedHasAllParts(l: Layout, parts: seq<Part>)
    requires CompleteManifest(l, Sort(parts, NumberLe))
    ensures AllPartsOnce(l, parts)
  {
    var sorted := Sort(parts, NumberLe);
    SameElements(parts, sorted);
    forall i | 0 <= i < |sorted| ensures sorted[i].number == i + 1 { assert PartFits(l, sorted[i], i + 1); }
    NumbersDistinct(sorted, parts);
    forall p | p in parts ensures 1 <= p.number <= l.totalParts && PartFits(l, p, p.number) {
      assert p in sorted;
      var i :| 0 <= i < |sorted| && sorted[i] == p;
      assert PartFits(l, sorted[i], i + 1);
    }
  }

  /** The API sorts before it checks, so exactly the uploads with all parts once are accepted, in any order. */
  lemma SortedManifestAccepted(l: Layout, parts: seq<Part>)
    ensures CompleteManifest(l, Sort(parts, NumberLe)) <==> AllPartsOnce(l, parts)
  {
    if AllPartsOnce(l, parts) { AllPartsSort(l, parts); }
    if CompleteManifest(l, Sort(parts, NumberLe)) { SortedHasAllParts(l, parts); }
  }
}
