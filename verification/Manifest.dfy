/** The persisted completion manifest of a multipart upload. */
module Manifest {
  import opened Wrappers
  import opened Tiling

  datatype UploadStatus = Initiated | Completing | Completed | Aborted | Expired | UploadFailed

  datatype Row = Row(status: UploadStatus, parts: seq<Part>)

  /** Manifests are compared by part number and entity tag only. */
  ghost predicate SameTags(a: seq<Part>, b: seq<Part>) {
    |a| == |b| && forall i :: 0 <= i < |a| ==> a[i].number == b[i].number && a[i].etag == b[i].etag
  }

  ghost predicate Agrees(row: Row, parts: seq<Part>) {
    row.status == Completed || row.parts == [] || SameTags(row.parts, parts)
  }

  ghost function AfterPersist(row: Row, parts: seq<Part>): Row {
    if row.status == Completed || !Agrees(row, parts) then row
    else Row(Completing, if row.parts == [] then parts else row.parts)
  }

  class UploadRow {
    var status: UploadStatus
    var parts: seq<Part>

    ghost function Contents(): Row
      reads this
    {
      Row(status, parts)
    }

    constructor ()
      ensures Contents() == Row(Initiated, [])
    {
      status := Initiated;
      parts := [];
    }

    /** Records the first manifest and holds every later one against it. */
    method PersistCompletionManifest(supplied: seq<Part>) returns (ok: bool)
      modifies this
      ensures ok <==> old(Agrees(Contents(), supplied))
      ensures Contents() == old(AfterPersist(Contents(), supplied))
    {
      if status == Completed { return true; }
      if |parts| > 0 {
        var matches := true;
        var i := 0;
        while i < |parts| && matches
          invariant 0 <= i <= |parts|
          invariant matches ==> i <= |supplied| && SameTags(parts[..i], supplied[..i])
          invariant !matches ==> !SameTags(parts, supplied)
          decreases |parts| - i, matches
        {
          if i < |supplied| && supplied[i].number == parts[i].number && supplied[i].etag == parts[i].etag {
            i := i + 1;
          } else {
            matches := false;
          }
        }
        if !matches || |parts| != |supplied| { return false; }
        assert parts[..i] == parts && supplied[..i] == supplied;
      } else {
        parts := supplied;
      }
      status := Completing;
      ok := true;
    }
  }

  /** Attempts to complete the upload, and anything else that sets its status. */
  datatype Request = Persist(parts: seq<Part>) | SetStatus(status: UploadStatus)

  ghost function Apply(row: Row, request: Request): Row {
    match request
    case Persist(parts) => AfterPersist(row, parts)
    case SetStatus(status) => row.(status := status)
  }

  ghost function Run(row: Row, requests: seq<Request>): Row
    decreases |requests|
  {
    if requests == [] then row else Run(Apply(row, requests[0]), requests[1..])
  }

  /** A persisted manifest never changes, whatever completions follow. */
  lemma {:induction false} ManifestIsStable(row: Row, requests: seq<Request>)
    requires row.parts != []
    ensures Run(row, requests).parts == row.parts
    decreases |requests|
  {
    if requests != [] { ManifestIsStable(Apply(row, requests[0]), requests[1..]); }
  }

  /** The first manifest is stored as it is, and from then on the upload is completing. */
  lemma FirstIsStored(row: Row, parts: seq<Part>)
    requires row.parts == [] && row.status != Completed
    ensures Agrees(row, parts) && AfterPersist(row, parts) == Row(Completing, parts)
  {
  }

  /** A manifest with another number of parts, or with another number or tag for one, is refused and changes nothing. */
  lemma OthersAreRefused(row: Row, parts: seq<Part>, i: nat)
    requires row.status != Completed && row.parts != [] && i < |row.parts|
    requires |parts| != |row.parts| || parts[i].number != row.parts[i].number || parts[i].etag != row.parts[i].etag
    ensures !Agrees(row, parts) && AfterPersist(row, parts) == row
  {
  }

  /** A completed upload accepts any manifest and keeps its own. */
  lemma CompletedAcceptsAny(row: Row, parts: seq<Part>)
    requires row.status == Completed
    ensures Agrees(row, parts) && AfterPersist(row, parts) == row
  {
  }

  /** Once a manifest got through, one with the same numbers and tags gets through at any later time. */
  lemma RepeatsAreAccepted(row: Row, first: seq<Part>, requests: seq<Request>, again: seq<Part>)
    requires first != [] && row.status != Completed && Agrees(row, first) && SameTags(first, again)
    ensures AfterPersist(row, first).status == Completing && SameTags(AfterPersist(row, first).parts, first)
    ensures Agrees(Run(AfterPersist(row, first), requests), again)
  {
    ManifestIsStable(AfterPersist(row, first), requests);
  }

  /**
   * Any two completions that get through before the upload is marked completed carry the same tags for the same
   * parts.
   */
  lemma CompletionsAgree(row: Row, first: seq<Part>, requests: seq<Request>, second: seq<Part>)
    requires first != [] && row.status != Completed && Agrees(row, first)
    requires var later := Run(AfterPersist(row, first), requests); later.status != Completed && Agrees(later, second)
    ensures SameTags(first, second)
  {
    var persisted := AfterPersist(row, first);
    assert SameTags(persisted.parts, first);
    ManifestIsStable(persisted, requests);
    var later := Run(persisted, requests);
    assert later.parts == persisted.parts && SameTags(later.parts, second);
    forall i | 0 <= i < |first| ensures first[i].number == second[i].number && first[i].etag == second[i].etag {
      assert persisted.parts[i].number == first[i].number && later.parts[i].number == second[i].number;
    }
  }
}
