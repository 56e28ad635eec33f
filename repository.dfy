/**
 * `TenderRepository` (app/repository/repository.py) over an in-memory collection: the stored
 * documents in insertion order, each under its store id. A query that `find_one` or `update_one`
 * answers picks the first document that matches, as the collection's natural order does.
 */
module Repository {
  import opened Wrappers
  import opened Tender

  type StoreId = string

  datatype Stored = Stored(id: StoreId, doc: Doc)

  /** The store ids in use. */
  function Ids(records: seq<Stored>): (ids: set<StoreId>)
    ensures forall k | 0 <= k < |records| :: records[k].id in ids
    ensures forall id | id in ids :: exists k | 0 <= k < |records| :: records[k].id == id
  {
    set k | 0 <= k < |records| :: records[k].id
  }

  /** No two documents share a store id. */
  predicate DistinctIds(records: seq<Stored>) {
    forall i, j | 0 <= i < j < |records| :: records[i].id != records[j].id
  }

  /** At most one document per tender number. */
  predicate UniqueNumbers(records: seq<Stored>) {
    forall i, j | 0 <= i < j < |records| && TenderKey(records[i].doc).Some? ::
      TenderKey(records[i].doc) != TenderKey(records[j].doc)
  }

  /** The position of the first document whose tender number is `key`. */
  function FirstWithKey(records: seq<Stored>, key: Json): (r: Option<nat>)
    ensures r.Some? ==> r.value < |records| && TenderKey(records[r.value].doc) == Some(key)
    ensures r.Some? ==> forall k | 0 <= k < r.value :: TenderKey(records[k].doc) != Some(key)
    ensures r.None? ==> forall k | 0 <= k < |records| :: TenderKey(records[k].doc) != Some(key)
  {
    if records == [] then None
    else if TenderKey(records[0].doc) == Some(key) then Some(0)
    else match FirstWithKey(records[1..], key)
      case Some(k) => Some(k + 1)
      case None => None
  }

  /** The first document carrying `key` is at `i` when `i` carries it and none before does. */
  lemma {:induction false} FirstWithKeyAt(records: seq<Stored>, key: Json, i: nat)
    requires i < |records| && TenderKey(records[i].doc) == Some(key)
    requires forall k | 0 <= k < i :: TenderKey(records[k].doc) != Some(key)
    ensures FirstWithKey(records, key) == Some(i)
  {
    if i > 0 {
      assert TenderKey(records[0].doc) != Some(key);
      FirstWithKeyAt(records[1..], key, i - 1);
    }
  }

  /** The position of the document stored under `id`. */
  function IndexOfId(records: seq<Stored>, id: StoreId): (r: Option<nat>)
    ensures r.Some? ==> r.value < |records| && records[r.value].id == id
    ensures r.Some? ==> forall k | 0 <= k < r.value :: records[k].id != id
    ensures r.None? ==> id !in Ids(records)
  {
    if records == [] then None
    else if records[0].id == id then Some(0)
    else match IndexOfId(records[1..], id)
      case Some(k) => Some(k + 1)
      case None => None
  }

  /**
   * The collection after `save(data)` and what it returns: the existing document with the same
   * tender number gets `data`'s fields (`$set`), or `data` is inserted under `freshId`; `None` when
   * `data` has no tender number (the lookup raises).
   */
  function Upsert(records: seq<Stored>, data: Doc, freshId: StoreId): (seq<Stored>, Option<StoreId>) {
    match TenderKey(data)
    case None => (records, None)
    case Some(key) =>
      match FirstWithKey(records, key)
      case Some(i) => (records[i := Stored(records[i].id, records[i].doc + data)], Some(records[i].id))
      case None => (records + [Stored(freshId, data)], Some(freshId))
  }

  /** `$set` with the dumped fields replaces the tender information, number included. */
  lemma MergeKeepsKey(doc: Doc, data: Doc)
    requires TenderKey(data).Some?
    ensures TenderKey(doc + data) == TenderKey(data)
  {
    assert (doc + data)[TenderInfoField] == data[TenderInfoField];
  }

  /**
   * Saving a tender whose number is stored updates that document in place: its id is returned,
   * the count is unchanged and it now carries every field of `data`.
   */
  lemma SaveExisting(records: seq<Stored>, data: Doc, freshId: StoreId, i: nat)
    requires TenderKey(data).Some? && i < |records| && TenderKey(records[i].doc) == TenderKey(data)
    requires forall k | 0 <= k < i :: TenderKey(records[k].doc) != TenderKey(data)
    ensures var (after, r) := Upsert(records, data, freshId);
      && r == Some(records[i].id)
      && |after| == |records|
      && after[i].id == records[i].id
      && (forall f | f in data :: f in after[i].doc && after[i].doc[f] == data[f])
      && (forall f | f in records[i].doc && f !in data :: f in after[i].doc && after[i].doc[f] == records[i].doc[f])
  {
    var key := TenderKey(data).value;
    var j := FirstWithKey(records, key);
    assert j == Some(i);
  }

  /** Saving a tender with an unseen number inserts exactly one document, under the fresh id. */
  lemma SaveNew(records: seq<Stored>, data: Doc, freshId: StoreId)
    requires TenderKey(data).Some?
    requires forall k | 0 <= k < |records| :: TenderKey(records[k].doc) != TenderKey(data)
    ensures Upsert(records, data, freshId) == (records + [Stored(freshId, data)], Some(freshId))
  {
    assert FirstWithKey(records, TenderKey(data).value).None?;
  }

  /** Documents with another tender number are left as they were. */
  lemma SaveKeepsOthers(records: seq<Stored>, data: Doc, freshId: StoreId, k: nat)
    requires k < |records| && TenderKey(records[k].doc) != TenderKey(data)
    ensures var after := Upsert(records, data, freshId).0; k < |after| && after[k] == records[k]
  {
  }

  /** With at most one document per tender number before a save, there is at most one after. */
  lemma SaveKeepsUniqueNumbers(records: seq<Stored>, data: Doc, freshId: StoreId)
    requires UniqueNumbers(records)
    ensures UniqueNumbers(Upsert(records, data, freshId).0)
  {
    var after := Upsert(records, data, freshId).0;
    match TenderKey(data)
    case None =>
    case Some(key) =>
      match FirstWithKey(records, key)
      case Some(i) =>
        MergeKeepsKey(records[i].doc, data);
        assert forall k | 0 <= k < |after| :: TenderKey(after[k].doc) == TenderKey(records[k].doc);
      case None =>
        assert forall k | 0 <= k < |records| :: after[k] == records[k];
  }

  /** A save that assigns the fresh id keeps the store ids distinct. */
  lemma SaveKeepsDistinctIds(records: seq<Stored>, data: Doc, freshId: StoreId)
    requires DistinctIds(records) && freshId !in Ids(records)
    ensures DistinctIds(Upsert(records, data, freshId).0)
    ensures Ids(Upsert(records, data, freshId).0) == Ids(records) + (if Upsert(records, data, freshId).1 == Some(freshId) then {freshId} else {})
  {
    match TenderKey(data)
    case None =>
    case Some(key) =>
      match FirstWithKey(records, key)
      case Some(i) =>
        RenewKeepsIds(records, i, records[i].doc + data);
      case None =>
        AppendFreshIds(records, Stored(freshId, data));
  }

  /** Replacing one document's contents keeps every id where it was. */
  lemma RenewKeepsIds(records: seq<Stored>, i: nat, doc: Doc)
    requires i < |records| && DistinctIds(records)
    ensures var after := records[i := Stored(records[i].id, doc)];
      DistinctIds(after) && Ids(after) == Ids(records)
  {
    var after := records[i := Stored(records[i].id, doc)];
    assert forall k | 0 <= k < |after| :: after[k].id == records[k].id;
  }

  /** Appending a document under an unused id adds exactly that id. */
  lemma AppendFreshIds(records: seq<Stored>, s: Stored)
    requires DistinctIds(records) && s.id !in Ids(records)
    ensures DistinctIds(records + [s]) && Ids(records + [s]) == Ids(records) + {s.id}
  {
    var after := records + [s];
    forall x | x in Ids(records) + {s.id} ensures x in Ids(after) {
      if x == s.id {
        assert after[|records|].id == x;
      } else {
        var k :| 0 <= k < |records| && records[k].id == x;
        assert after[k].id == x;
      }
    }
  }

  /** `find_by_tender_number`: the first document with that tender number. */
  function Lookup(records: seq<Stored>, tenderNumber: string): (r: Option<Doc>)
    ensures r.Some? <==> exists k | 0 <= k < |records| :: TenderKey(records[k].doc) == Some(JStr(tenderNumber))
    ensures r.Some? ==> TenderKey(r.value) == Some(JStr(tenderNumber))
  {
    match FirstWithKey(records, JStr(tenderNumber))
    case Some(i) => Some(records[i].doc)
    case None => None
  }

  /** After saving a dumped tender, looking its number up finds a document carrying its fields. */
  lemma FindAfterSave(records: seq<Stored>, d: TenderData, freshId: StoreId)
    ensures var after := Upsert(records, ModelDump(d), freshId).0;
      var found := Lookup(after, d.tenderNumber);
      && found.Some?
      && forall f | f in ModelDump(d) :: f in found.value && found.value[f] == ModelDump(d)[f]
  {
    var data := ModelDump(d);
    var key := JStr(d.tenderNumber);
    ModelDumpKey(d);
    var after := Upsert(records, data, freshId).0;
    match FirstWithKey(records, key)
    case Some(i) =>
      MergeKeepsKey(records[i].doc, data);
      assert forall k | 0 <= k < |after| && k != i :: after[k] == records[k];
      FirstWithKeyAt(after, key, i);
    case None =>
      var n := |records|;
      assert after[n] == Stored(freshId, data);
      assert forall k | 0 <= k < n :: after[k] == records[k];
      FirstWithKeyAt(after, key, n);
  }

  /** The collection after `delete(id)`: the document under `id`, if any, is gone. */
  function WithoutId(records: seq<Stored>, id: StoreId): seq<Stored> {
    match IndexOfId(records, id)
    case Some(i) => records[..i] + records[i + 1..]
    case None => records
  }

  /** `delete` removes the one document under `id` and no other. */
  lemma DeleteRemovesId(records: seq<Stored>, id: StoreId)
    requires DistinctIds(records)
    ensures DistinctIds(WithoutId(records, id))
    ensures Ids(WithoutId(records, id)) == Ids(records) - {id}
    ensures |WithoutId(records, id)| == |records| - (if id in Ids(records) then 1 else 0)
  {
    match IndexOfId(records, id)
    case Some(i) =>
      RemoveAtKeepsOthers(records, i);
    case None =>
  }

  /** Dropping the document at position `i` of a collection with distinct ids removes exactly its id. */
  lemma RemoveAtKeepsOthers(records: seq<Stored>, i: nat)
    requires DistinctIds(records) && i < |records|
    ensures var after := records[..i] + records[i + 1..];
      && DistinctIds(after)
      && Ids(after) == Ids(records) - {records[i].id}
      && |after| == |records| - 1
  {
    var after := records[..i] + records[i + 1..];
    assert forall k | 0 <= k < |after| :: after[k] == records[if k < i then k else k + 1];
    forall x | x in Ids(records) - {records[i].id} ensures x in Ids(after) {
      var k :| 0 <= k < |records| && records[k].id == x;
      assert k != i;
      assert after[if k < i then k else k - 1].id == x;
    }
  }

  /** The tender store. */
  class TenderRepository {
    var records: seq<Stored>

    predicate Valid()
      reads this
    {
      DistinctIds(records)
    }

    constructor()
      ensures Valid() && records == []
    {
      records := [];
    }

    /**
     * `save`: update the document with `data`'s tender number, or insert `data` under `freshId`
     * (the id the database assigns); returns the document's id, or `None` when `data` has no
     * tender number.
     */
    method Save(data: Doc, freshId: StoreId) returns (r: Option<StoreId>)
      requires Valid() && freshId !in Ids(records)
      modifies this
      ensures Valid()
      ensures (records, r) == Upsert(old(records), data, freshId)
    {
      SaveKeepsDistinctIds(records, data, freshId);
      var key := TenderKey(data);
      if key.None? {
        return None;
      }
      var existing := FirstWithKey(records, key.value);
      if existing.Some? {
        var i := existing.value;
        records := records[i := Stored(records[i].id, records[i].doc + data)];
        r := Some(records[i].id);
      } else {
        records := records + [Stored(freshId, data)];
        r := Some(freshId);
      }
    }

    /** `find_by_tender_number`. */
    function FindByTenderNumber(tenderNumber: string): (r: Option<Doc>)
      reads this
      ensures r.Some? <==> exists k | 0 <= k < |records| :: TenderKey(records[k].doc) == Some(JStr(tenderNumber))
      ensures r.Some? ==> TenderKey(r.value) == Some(JStr(tenderNumber))
    {
      Lookup(records, tenderNumber)
    }

    /** `delete`: true exactly when a document was stored under `id`; afterwards none is. */
    method Delete(id: StoreId) returns (deleted: bool)
      requires Valid()
      modifies this
      ensures Valid()
      ensures deleted <==> id in Ids(old(records))
      ensures id !in Ids(records)
      ensures records == WithoutId(old(records), id)
    {
      DeleteRemovesId(records, id);
      var i := IndexOfId(records, id);
      if i.Some? {
        records := records[..i.value] + records[i.value + 1..];
        deleted := true;
      } else {
        deleted := false;
      }
    }
  }
}
