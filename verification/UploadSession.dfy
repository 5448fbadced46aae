/** One run of the upload in the browser: its maps, its batches and the stored checkpoint, updated in place. */
module UploadSession {
  import opened Sorting
  import opened Tiling
  import opened WorkerPool
  import opened MovieUpload
  import opened Wrappers

  /** The completed parts a page reload finds again. */
  class CheckpointStore {
    var parts: seq<Part>

    constructor ()
      ensures parts == []
    {
      parts := [];
    }
  }

  class Uploader {
    const layout: Layout
    const store: CheckpointStore
    ghost const resumed: seq<Part>
    var completed: seq<Part>
    var missing: seq<int>
    var offset: nat
    var pool: Pool<int>
    var inFlight: seq<Count>

    ghost function Contents(): Session
      reads this, pool
    {
      Session(layout, resumed, completed, missing, offset, pool.Contents(), inFlight)
    }

    ghost predicate Valid()
      reads this, pool
    {
      SessionInv(Contents())
    }

    /** Starts from whatever was stored; the parts it lacks are to be uploaded, in order. */
    constructor (layout: Layout, store: CheckpointStore)
      requires ValidLayout(layout)
      ensures this.store == store && fresh(pool)
      ensures Contents() == Resume(layout, store.parts)
      ensures GoodParts(layout, store.parts) ==> Valid()
    {
      this.layout, this.store := layout, store;
      var entries := FromEntries(store.parts);
      resumed, completed, missing, offset, inFlight := entries, entries, [], 0, [];
      pool := new Pool<int>([], 0);
      new;
      var number := 0;
      while number < layout.totalParts
        invariant 0 <= number <= layout.totalParts && missing == MissingUpTo(completed, number)
        invariant completed == FromEntries(store.parts) && inFlight == [] && offset == 0
        invariant fresh(pool) && pool.Contents() == Launched([], 0)
      {
        number := number + 1;
        if !HasPart(completed, number) { missing := missing + [number]; }
      }
      if GoodParts(layout, store.parts) { InvResume(layout, store.parts); }
    }

    /** Signs the next parts, twelve at most, and starts uploading them, four at a time. */
    method SignNextBatch()
      requires Valid() && BatchDone(Contents()) && offset < |missing|
      modifies this
      ensures fresh(pool) && Contents() == AfterSign(old(Contents()))
      ensures Valid()
    {
      InvSign(Contents());
      StartBatch();
    }

    method StartBatch()
      requires offset < |missing|
      modifies this
      ensures fresh(pool) && Contents() == AfterSign(old(Contents()))
    {
      var end := if offset + BATCH <= |missing| then offset + BATCH else |missing|;
      var items := Batch(missing[offset..end]);
      pool := new Pool<int>(items, CONCURRENCY);
      inFlight := [];
      offset := end;
    }

    method ReportProgress(w: nat, number: int, loaded: int)
      requires Valid() && Uploads(Contents(), w, number) && 0 <= loaded <= ExpectedPartSize(layout, number)
      modifies `inFlight
      ensures Contents() == AfterProgress(old(Contents()), number, loaded)
      ensures Valid()
    {
      InvProgress(Contents(), w, number, loaded);
      inFlight := PutCount(inFlight, Count(number, loaded));
    }

    /** A finished part is recorded, if storage is available, before its worker takes the next one. */
    method PartUploaded(w: nat, number: int, etag: string, saved: bool)
      requires Valid() && Uploads(Contents(), w, number)
      modifies `inFlight, `completed, pool, store
      ensures pool == old(pool) && Contents() == AfterUploaded(old(Contents()), w, number, etag)
      ensures Valid()
      ensures completed == old(completed) + [Stored(layout, number, etag)]
      ensures store.parts == if saved then completed else old(store.parts)
    {
      CompletedAfter(Contents(), w, number, etag);
      InvUploaded(Contents(), w, number, etag);
      RecordAndGoOn(w, number, etag, saved);
    }

    method RecordAndGoOn(w: nat, number: int, etag: string, saved: bool)
      requires Inv(pool.Contents()) && Awaits(pool.Contents(), w)
      modifies `inFlight, `completed, pool, store
      ensures pool == old(pool) && Contents() == AfterUploaded(old(Contents()), w, number, etag)
      ensures store.parts == if saved then completed else old(store.parts)
    {
      Record(number, etag, saved);
      pool.EndTask(w, true);
    }

    method Record(number: int, etag: string, saved: bool)
      modifies `inFlight, `completed, store
      ensures inFlight == DeleteCount(old(inFlight), number)
      ensures completed == PutPart(old(completed), Stored(layout, number, etag))
      ensures store.parts == if saved then completed else old(store.parts)
    {
      inFlight := DeleteCount(inFlight, number);
      completed := PutPart(completed, Stored(layout, number, etag));
      if saved { store.parts := completed; }
    }

    /** An upload that is given up ends its worker; the others go on. */
    method PartFailed(w: nat)
      requires Valid() && Awaits(pool.Contents(), w)
      modifies pool
      ensures pool == old(pool) && Contents() == AfterFailed(old(Contents()), w)
      ensures Valid()
    {
      InvFailed(Contents(), w);
      pool.EndTask(w, false);
    }

    /** The parts sent to complete the upload: all of them, ascending. */
    method Manifest() returns (parts: seq<Part>)
      requires Valid() && BatchDone(Contents()) && offset == |missing|
      ensures CompleteManifest(layout, parts) && multiset(parts) == multiset(completed)
      ensures SumParts(completed) == layout.byteSize
    {
      FinalManifestAccepted(Contents());
      parts := Sort(completed, NumberLe);
    }
  }
}
