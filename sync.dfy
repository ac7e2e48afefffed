/**
 * The synchroniser: the module-level state of the exercise (the source
 * store, the target store, TOTAL_RECORDS, EVENTS_SENT and REGISTERS_UPDATED)
 * as the fields of one object, and the sync routines as its methods.
 */
module Sync {
  import opened Records
  import opened Target
  import opened Pagination

  class Synchronizer {
    /** `sourceDb`, in the order `find({})` returns its records. */
    var source: seq<Record>
    /** `targetDb`. */
    const target: TargetStore
    /** `TOTAL_RECORDS`: the record count `load` leaves behind. */
    var totalRecords: int
    /** `EVENTS_SENT`: one per call of `sendEvent`. */
    var eventsSent: nat
    /** `REGISTERS_UPDATED`: the names touched since the last delta sync, duplicates included. */
    var registersUpdated: seq<Key>

    /**
     * The state right after `load`: the source holds the seeded records,
     * TOTAL_RECORDS is their number, one event was sent per seeded insert,
     * and no record has been touched yet.
     */
    constructor (records: seq<Record>, target: TargetStore)
      ensures source == records && this.target == target
      ensures totalRecords == |records| && eventsSent == |records|
      ensures registersUpdated == []
    {
      source := records;
      this.target := target;
      totalRecords := |records|;
      eventsSent := |records|;
      registersUpdated := [];
    }

    /** `sendEvent`: counts one event and changes nothing else. */
    method SendEvent()
      modifies this
      ensures eventsSent == old(eventsSent) + 1
      ensures source == old(source) && totalRecords == old(totalRecords)
      ensures registersUpdated == old(registersUpdated)
    {
      eventsSent := eventsSent + 1;
    }

    /**
     * `touch(name)`: the source record with that name gets owner "test4" and
     * the name is appended to the change list, even when it is already there.
     */
    method Touch(name: Key)
      modifies this
      ensures source == TouchSource(old(source), name)
      ensures registersUpdated == old(registersUpdated) + [name]
      ensures eventsSent == old(eventsSent) && totalRecords == old(totalRecords)
    {
      source := TouchSource(source, name);
      registersUpdated := registersUpdated + [name];
    }

    /**
     * `syncAllNoLimit`: inserts the source records in order, one event after
     * each insert. Nothing catches a failed insert, so the first record the
     * target refuses ends the copy: exactly the records before it are
     * inserted and counted, and `ok` says whether the whole source went through.
     */
    method SyncAllNoLimit() returns (ok: bool)
      modifies this, target
      ensures var k := FirstRejected(old(source), target.accepts);
        && ok == (k == |old(source)|)
        && target.docs == Store(old(target.docs), old(source)[..k], target.accepts)
        && eventsSent == old(eventsSent) + k
      ensures source == old(source) && totalRecords == old(totalRecords)
      ensures registersUpdated == old(registersUpdated)
    {
      var allRecords := source;
      var i := 0;
      while i < |allRecords|
        invariant 0 <= i <= |allRecords|
        invariant forall j :: 0 <= j < i ==> target.accepts(allRecords[j])
        invariant target.docs == Store(old(target.docs), allRecords[..i], target.accepts)
        invariant eventsSent == old(eventsSent) + i
        invariant source == old(source) == allRecords && totalRecords == old(totalRecords)
        invariant registersUpdated == old(registersUpdated)
      {
        var inserted := target.Insert(allRecords[i]);
        if !inserted {
          return false;
        }
        assert allRecords[..i + 1][..i] == allRecords[..i];
        SendEvent();
        i := i + 1;
      }
      assert allRecords[..i] == allRecords;
      ok := true;
    }

    /**
     * `syncWithLimit(limit, data)`: the sentinel cursor -1 becomes 0; the page
     * of at most `limit` records at the cursor is inserted record by record, a
     * refused insert being caught and skipped, with one event per accepted
     * insert; then the cursor advances by `limit` whatever the page held.
     */
    method SyncWithLimit(limit: int, data: Cursor) returns (result: Cursor)
      requires limit >= 1 && data.lastResultSize >= -1
      modifies this, target, data
      ensures result == data
      ensures data.lastResultSize == SkipOf(old(data.lastResultSize)) + limit
      ensures var page := Page(old(source), SkipOf(old(data.lastResultSize)), limit);
        && target.docs == Store(old(target.docs), page, target.accepts)
        && eventsSent == old(eventsSent) + CountAccepted(page, target.accepts)
      ensures source == old(source) && totalRecords == old(totalRecords)
      ensures registersUpdated == old(registersUpdated)
    {
      if data.lastResultSize == -1 {
        data.lastResultSize := 0;
      }
      var skip := data.lastResultSize;
      var records := Page(source, skip, limit);
      for i := 0 to |records|
        invariant target.docs == Store(old(target.docs), records[..i], target.accepts)
        invariant eventsSent == old(eventsSent) + CountAccepted(records[..i], target.accepts)
        invariant data.lastResultSize == skip
        invariant source == old(source) && totalRecords == old(totalRecords)
        invariant registersUpdated == old(registersUpdated)
      {
        assert records[..i + 1][..i] == records[..i];
        var inserted := target.Insert(records[i]);
        if inserted {
          SendEvent();
        }
      }
      assert records[..|records|] == records;
      data.lastResultSize := data.lastResultSize + limit;
      result := data;
    }

    /**
     * `syncAllSafely(batchSize, data)`: uses `data` (a new cursor when none is
     * given), resets it to the sentinel -1 whatever it held, and calls
     * `syncWithLimit` while the cursor is below TOTAL_RECORDS. It stops with
     * the cursor at or past TOTAL_RECORDS, having issued the page queries
     * PageOffsets(-1, batchSize, TOTAL_RECORDS) in that order.
     */
    method SyncAllSafely(batchSize: int, data: Cursor?) returns (result: Cursor)
      requires batchSize >= 1
      modifies this, target, data
      ensures data != null ==> result == data
      ensures data == null ==> fresh(result)
      ensures result.lastResultSize >= totalRecords
      ensures result.lastResultSize == FinalCursor(-1, batchSize, totalRecords)
      ensures var fetched := Fetched(old(source), PageOffsets(-1, batchSize, old(totalRecords)), batchSize);
        && target.docs == Store(old(target.docs), fetched, target.accepts)
        && eventsSent == old(eventsSent) + CountAccepted(fetched, target.accepts)
      ensures source == old(source) && totalRecords == old(totalRecords)
      ensures registersUpdated == old(registersUpdated)
    {
      if data == null {
        result := new Cursor();
      } else {
        result := data;
      }
      result.lastResultSize := -1;
      ghost var src, total, docs0, accepts := source, totalRecords, target.docs, target.accepts;
      ghost var done: seq<nat> := [];
      while result.lastResultSize < totalRecords
        invariant data != null ==> result == data
        invariant data == null ==> fresh(result)
        invariant result.lastResultSize >= -1
        invariant source == src && totalRecords == total && registersUpdated == old(registersUpdated)
        invariant done + PageOffsets(result.lastResultSize, batchSize, total) == PageOffsets(-1, batchSize, total)
        invariant FinalCursor(result.lastResultSize, batchSize, total) == FinalCursor(-1, batchSize, total)
        invariant target.docs == Store(docs0, Fetched(src, done, batchSize), accepts)
        invariant eventsSent == old(eventsSent) + CountAccepted(Fetched(src, done, batchSize), accepts)
        decreases total - result.lastResultSize
      {
        ghost var cursor := result.lastResultSize;
        result := SyncWithLimit(batchSize, result);
        SafeStep(docs0, src, done, SkipOf(cursor), batchSize, accepts);
        assert PageOffsets(cursor, batchSize, total) ==
               [SkipOf(cursor)] + PageOffsets(result.lastResultSize, batchSize, total);
        done := done + [SkipOf(cursor)];
      }
      assert done == PageOffsets(-1, batchSize, totalRecords);
    }

    /**
     * `syncNewChanges`: for every entry of the change list, in order and
     * duplicates included, reads the record by name from the source, updates
     * the target entry of that name and sends one event; then empties the list.
     */
    method SyncNewChanges()
      modifies this, target
      ensures target.docs == ApplyChanges(old(target.docs), source, old(registersUpdated))
      ensures eventsSent == old(eventsSent) + |old(registersUpdated)|
      ensures registersUpdated == []
      ensures source == old(source) && totalRecords == old(totalRecords)
    {
      var names := registersUpdated;
      for i := 0 to |names|
        invariant target.docs == ApplyChanges(old(target.docs), source, names[..i])
        invariant eventsSent == old(eventsSent) + i
        invariant source == old(source) && totalRecords == old(totalRecords)
        invariant registersUpdated == names
      {
        assert names[..i + 1][..i] == names[..i];
        var data := FindByName(source, names[i]);
        target.Update(names[i], data);
        SendEvent();
      }
      assert names[..|names|] == names;
      registersUpdated := [];
    }
  }

  /** One more page query: its records follow those of the earlier queries, in the target and in the event count. */
  lemma SafeStep(docs: Docs, source: seq<Record>, done: seq<nat>, skip: nat, batch: nat, accepts: Record -> bool)
    ensures var before := Fetched(source, done, batch);
      var page := Page(source, skip, batch);
      && Fetched(source, done + [skip], batch) == before + page
      && Store(docs, before + page, accepts) == Store(Store(docs, before, accepts), page, accepts)
      && CountAccepted(before + page, accepts) == CountAccepted(before, accepts) + CountAccepted(page, accepts)
  {
    var before := Fetched(source, done, batch);
    var page := Page(source, skip, batch);
    FetchedConcat(source, done, [skip], batch);
    assert Fetched(source, [skip], batch) == page;
    StoreConcat(docs, before, page, accepts);
    CountConcat(before, page, accepts);
  }

  /**
   * With a target that refuses none of the source records, the naive copy
   * and a paginated copy over TOTAL_RECORDS = |source| leave the same target
   * and send the same number of events, one per source record.
   */
  lemma NaiveAndSafeAgree(docs: Docs, source: seq<Record>, batch: nat, accepts: Record -> bool)
    requires batch >= 1
    requires FirstRejected(source, accepts) == |source|
    ensures var fetched := Fetched(source, PageOffsets(-1, batch, |source|), batch);
      && Store(docs, source[..FirstRejected(source, accepts)], accepts) == Store(docs, fetched, accepts)
      && CountAccepted(fetched, accepts) == FirstRejected(source, accepts) == |source|
  {
    SafeFetchesSource(source, batch, |source|);
    assert source[..|source|] == source;
    CountAcceptedAll(source, accepts);
  }

  /**
   * Touching a name while other names are pending, and then running the
   * delta sync, gives that name's target entry owner "test4" (when both
   * stores hold the name), adds no entry, and leaves every entry whose name
   * was neither touched nor pending as it was.
   */
  lemma TouchThenSync(docs: Docs, source: seq<Record>, pending: seq<Key>, name: Key)
    ensures var after := ApplyChanges(docs, TouchSource(source, name), pending + [name]);
      && after.Keys == docs.Keys
      && (name in docs && FindByName(source, name).Some? ==>
            after[name] == FindByName(source, name).value.(owner := TOUCHED_OWNER))
      && (forall k :: k in docs && k != name && k !in pending ==> after[k] == docs[k])
  {
    ApplyChangesAt(docs, TouchSource(source, name), pending + [name]);
  }

  /**
   * `runTest`, for seeded records the target accepts: the three counts it
   * checks all come out as expected (EVENTS_SENT equals TOTAL_RECORDS after
   * the naive copy and after the paginated copy with batch size 1, and equals
   * 1 after one touch and one delta sync).
   */
  method RunTest(records: seq<Record>, accepts: Record -> bool) returns (first: bool, second: bool, third: bool)
    requires forall i :: 0 <= i < |records| ==> accepts(records[i])
    ensures first && second && third
  {
    var target := new TargetStore(accepts);
    var sync := new Synchronizer(records, target);

    sync.eventsSent := 0;
    var copied := sync.SyncAllNoLimit();
    first := sync.eventsSent == sync.totalRecords;

    sync.eventsSent := 0;
    var data := sync.SyncAllSafely(1, null);
    SafeFetchesSource(records, 1, |records|);
    CountAcceptedAll(records, accepts);
    second := sync.eventsSent == sync.totalRecords;

    sync.eventsSent := 0;
    sync.Touch("GE");
    sync.SyncNewChanges();
    third := sync.eventsSent == 1;
  }
}
