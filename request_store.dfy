/** The request collection as the handlers use it through `RequestModel`:
    a map from id to document, kept in the collection's natural (insertion)
    order, with the store operations the handlers call (`create`,
    `findByIdAndUpdate`, `updateMany`, `deleteMany`, `find`). */
module RequestStore {
  import opened Common
  import opened RequestModel

  predicate Distinct<T(==)>(s: seq<T>)
  {
    forall i, j :: 0 <= i < j < |s| ==> s[i] != s[j]
  }

  /** The documents named by `order`, in that order. */
  function Documents(order: seq<Id>, records: map<Id, Request>): (docs: seq<Request>)
    requires forall i :: 0 <= i < |order| ==> order[i] in records
    ensures |docs| == |order|
    ensures forall i :: 0 <= i < |order| ==> docs[i] == records[order[i]]
  {
    if order == [] then [] else [records[order[0]]] + Documents(order[1..], records)
  }

  /** The `$set` of a status change: the status and the edit time, nothing else. */
  function SetStatus(r: Request, status: Status, now: Time): (r': Request)
    ensures r'.status == status && r'.lastEditedDate == Some(now)
    ensures r'.id == r.id && r'.requestorName == r.requestorName
    ensures r'.itemRequested == r.itemRequested && r'.createdDate == r.createdDate
  {
    r.(status := status, lastEditedDate := Some(now))
  }

  /** The stored ids that a `{_id: {$in: ids}}` filter selects. */
  function Matched(records: map<Id, Request>, ids: seq<Id>): (m: set<Id>)
    ensures m <= records.Keys
    ensures forall id :: id in m <==> id in records && id in ids
  {
    set id | id in records && id in ids
  }

  /** The matched ids whose document the status change actually alters. */
  function Modified(records: map<Id, Request>, ids: seq<Id>, status: Status, now: Time): (m: set<Id>)
    ensures m <= Matched(records, ids)
    ensures forall id :: id in m <==> id in Matched(records, ids) && SetStatus(records[id], status, now) != records[id]
  {
    set id | id in Matched(records, ids) && SetStatus(records[id], status, now) != records[id]
  }

  /** `updateMany({_id: {$in: ids}}, {$set: ...})` on the map. */
  function UpdateWhere(records: map<Id, Request>, ids: seq<Id>, status: Status, now: Time): (m: map<Id, Request>)
    ensures m.Keys == records.Keys
    ensures forall id :: id in records && id in ids ==> m[id] == SetStatus(records[id], status, now)
    ensures forall id :: id in records && id !in ids ==> m[id] == records[id]
  {
    map id | id in records :: if id in ids then SetStatus(records[id], status, now) else records[id]
  }

  /** `deleteMany({_id: {$in: ids}})` on the map. */
  function DeleteWhere(records: map<Id, Request>, ids: seq<Id>): (m: map<Id, Request>)
    ensures m.Keys == records.Keys - Matched(records, ids)
    ensures forall id :: id in m ==> m[id] == records[id]
  {
    map id | id in records && id !in ids :: records[id]
  }

  /** The order without the ids in `ids`, the rest kept in order. */
  function KeepOthers(order: seq<Id>, ids: seq<Id>): (r: seq<Id>)
    ensures |r| <= |order|
    ensures forall id :: id in r <==> id in order && id !in ids
    ensures Distinct(order) ==> Distinct(r)
  {
    if order == [] then []
    else if order[0] in ids then KeepOthers(order[1..], ids)
    else [order[0]] + KeepOthers(order[1..], ids)
  }

  /** The order restricted to the ids in `ids`, kept in order. */
  function KeepListed(order: seq<Id>, ids: seq<Id>): (r: seq<Id>)
    ensures |r| <= |order|
    ensures forall id :: id in r <==> id in order && id in ids
    ensures Distinct(order) ==> Distinct(r)
  {
    if order == [] then []
    else if order[0] in ids then [order[0]] + KeepListed(order[1..], ids)
    else KeepListed(order[1..], ids)
  }

  /** A sequence without repetitions has as many distinct elements as positions. */
  lemma {:induction false} DistinctCardinality(s: seq<Id>)
    requires Distinct(s)
    ensures |set x | x in s| == |s|
  {
    if s != [] {
      DistinctCardinality(s[1..]);
      assert (set x | x in s) == {s[0]} + (set x | x in s[1..]);
      assert s[0] !in (set x | x in s[1..]);
    }
  }

  /** A delete removes exactly the matched documents, so the collection
      shrinks by the number of matched ids. */
  lemma DeleteCount(records: map<Id, Request>, ids: seq<Id>)
    ensures |records| == |DeleteWhere(records, ids)| + |Matched(records, ids)|
  {
    var k := records.Keys;
    var m := Matched(records, ids);
    assert k == (k - m) + m;
    assert |DeleteWhere(records, ids)| == |DeleteWhere(records, ids).Keys|;
    assert |records| == |k|;
  }

  /** Applying the same status change twice, the second time at `later`, is
      the same as applying it once at `later`. */
  lemma UpdateTwice(records: map<Id, Request>, ids: seq<Id>, status: Status, now: Time, later: Time)
    ensures UpdateWhere(UpdateWhere(records, ids, status, now), ids, status, later)
            == UpdateWhere(records, ids, status, later)
  {
  }

  /** A repeated status change at the same time matches the same documents
      and modifies none of them. */
  lemma RepeatModifiesNothing(records: map<Id, Request>, ids: seq<Id>, status: Status, now: Time)
    ensures Matched(UpdateWhere(records, ids, status, now), ids) == Matched(records, ids)
    ensures Modified(UpdateWhere(records, ids, status, now), ids, status, now) == {}
  {
  }

  /** Storing a new well-formed document under a fresh id, at the end of
      the order, keeps the collection consistent. */
  lemma CreateConsistent(records: map<Id, Request>, order: seq<Id>, doc: Request)
    requires Consistent(records, order) && doc.id !in records && WellFormed(doc)
    ensures Consistent(records[doc.id := doc], order + [doc.id])
  {
    var o := order + [doc.id];
    forall i, j | 0 <= i < j < |o|
      ensures o[i] != o[j]
    {
      if j == |order| {
        assert o[i] == order[i];
      }
    }
  }

  /** A single status change keeps the collection consistent. */
  lemma SetConsistent(records: map<Id, Request>, order: seq<Id>, id: Id, status: Status, now: Time)
    requires Consistent(records, order) && id in records
    ensures Consistent(records[id := SetStatus(records[id], status, now)], order)
  {
  }

  /** A delete keeps the collection consistent once the order drops the deleted ids. */
  lemma DeleteConsistent(records: map<Id, Request>, order: seq<Id>, ids: seq<Id>)
    requires Consistent(records, order)
    ensures Consistent(DeleteWhere(records, ids), KeepOthers(order, ids))
  {
    var m := DeleteWhere(records, ids);
    forall id
      ensures id in m <==> id in KeepOthers(order, ids)
    {
      assert id in m <==> id in records && id !in Matched(records, ids);
    }
  }

  /** The listed ids in natural order are exactly the matched ones, each once. */
  lemma ListedMatched(records: map<Id, Request>, order: seq<Id>, ids: seq<Id>)
    requires Consistent(records, order)
    ensures Distinct(KeepListed(order, ids))
    ensures |KeepListed(order, ids)| == |Matched(records, ids)|
    ensures forall i :: 0 <= i < |KeepListed(order, ids)| ==>
              var id := KeepListed(order, ids)[i];
              id in ids && id in records && records[id].id == id
  {
    DistinctCardinality(KeepListed(order, ids));
    ListedAreMatched(records, order, ids);
  }

  /** The documents `find` answers: one per matched id, each stored under
      its own id, with no id twice. */
  lemma FoundDocuments(records: map<Id, Request>, order: seq<Id>, ids: seq<Id>)
    requires Consistent(records, order)
    ensures forall id :: id in KeepListed(order, ids) ==> id in records
    ensures |Documents(KeepListed(order, ids), records)| == |Matched(records, ids)|
    ensures forall i :: 0 <= i < |Documents(KeepListed(order, ids), records)| ==>
              var doc := Documents(KeepListed(order, ids), records)[i];
              doc.id in ids && doc.id in records && doc == records[doc.id]
    ensures forall i, j :: 0 <= i < j < |Documents(KeepListed(order, ids), records)| ==>
              Documents(KeepListed(order, ids), records)[i].id != Documents(KeepListed(order, ids), records)[j].id
  {
    var listed := KeepListed(order, ids);
    ListedMatched(records, order, ids);
    var docs := Documents(listed, records);
    forall i, j | 0 <= i < j < |docs|
      ensures docs[i].id != docs[j].id
    {
      assert docs[i].id == listed[i] && docs[j].id == listed[j];
    }
  }

  lemma ListedAreMatched(records: map<Id, Request>, order: seq<Id>, ids: seq<Id>)
    requires Consistent(records, order)
    ensures (set x | x in KeepListed(order, ids)) == Matched(records, ids)
  {
  }

  /** A status change that matches nothing changes nothing. */
  lemma UpdateNoMatch(records: map<Id, Request>, ids: seq<Id>, status: Status, now: Time)
    requires Matched(records, ids) == {}
    ensures UpdateWhere(records, ids, status, now) == records
  {
    var m := UpdateWhere(records, ids, status, now);
    forall id | id in records
      ensures m[id] == records[id]
    {
      assert id !in Matched(records, ids);
    }
  }

  /** A delete that matches nothing removes nothing and keeps the order. */
  lemma DeleteNoMatch(order: seq<Id>, records: map<Id, Request>, ids: seq<Id>)
    requires forall id :: id in order ==> id in records
    requires Matched(records, ids) == {}
    ensures DeleteWhere(records, ids) == records
    ensures KeepOthers(order, ids) == order
  {
    forall id | id in records
      ensures id !in ids
    {
      assert id !in Matched(records, ids);
    }
    KeepNoneListed(order, ids);
  }

  /** An order none of whose ids is listed is kept whole. */
  lemma {:induction false} KeepNoneListed(order: seq<Id>, ids: seq<Id>)
    requires forall id :: id in order ==> id !in ids
    ensures KeepOthers(order, ids) == order
  {
    if order != [] {
      KeepNoneListed(order[1..], ids);
    }
  }

  /** After a delete none of its ids is stored any more, so the same delete
      again matches nothing. */
  lemma DeleteLeavesNoMatch(records: map<Id, Request>, ids: seq<Id>)
    ensures Matched(DeleteWhere(records, ids), ids) == {}
  {
  }

  /** A batch status change of one stored id is the single status change. */
  lemma UpdateOneIsSetStatus(records: map<Id, Request>, id: Id, status: Status, now: Time)
    requires id in records
    ensures UpdateWhere(records, [id], status, now) == records[id := SetStatus(records[id], status, now)]
    ensures Matched(records, [id]) == {id}
  {
  }

  /** Every id is in the order once, and stored once, under its own key,
      and every document satisfies the schema. */
  ghost predicate Consistent(records: map<Id, Request>, order: seq<Id>)
  {
    && Distinct(order)
    && (forall id :: id in records <==> id in order)
    && (forall id :: id in records ==> records[id].id == id && WellFormed(records[id]))
  }

  /** A status change keeps the collection consistent: ids, order and texts are untouched. */
  lemma UpdateConsistent(records: map<Id, Request>, order: seq<Id>, ids: seq<Id>, status: Status, now: Time)
    requires Consistent(records, order)
    ensures Consistent(UpdateWhere(records, ids, status, now), order)
  {
    var m := UpdateWhere(records, ids, status, now);
    forall id | id in m
      ensures m[id].id == id && WellFormed(m[id])
    {
      if id in ids {
        assert m[id] == SetStatus(records[id], status, now);
      }
    }
  }

  /** The result of `create`: the stored document, or why it was refused. */
  datatype CreateResult = Created(doc: Request) | SchemaRefused | DuplicateKey

  class Collection {
    var records: map<Id, Request>
    /** The collection's natural order: each stored id once, oldest insertion first. */
    var order: seq<Id>

    ghost predicate Valid()
      reads this
    {
      Consistent(records, order)
    }

    /** The stored documents in natural order. */
    function Docs(): (docs: seq<Request>)
      reads this
      requires Valid()
      ensures |docs| == |order|
      ensures forall i :: 0 <= i < |order| ==> docs[i] == records[order[i]]
      ensures forall x :: x in docs ==> x.id in records && records[x.id] == x
    {
      Documents(order, records)
    }

    /** `find({_id: {$in: ids}})`: the stored documents with those ids, in natural order. */
    function Find(ids: seq<Id>): (docs: seq<Request>)
      reads this
      requires Valid()
      ensures |docs| == |Matched(records, ids)|
      ensures forall i :: 0 <= i < |docs| ==> docs[i].id in ids && docs[i].id in records && docs[i] == records[docs[i].id]
      ensures forall i, j :: 0 <= i < j < |docs| ==> docs[i].id != docs[j].id
    {
      FoundDocuments(records, order, ids);
      Documents(KeepListed(order, ids), records)
    }

    constructor ()
      ensures Valid() && records == map[] && order == []
    {
      records := map[];
      order := [];
    }

    /** `RequestModel.create(fields)` with the store-assigned identifier `id`. */
    method Create(d: DocInput, id: Id, now: Time) returns (r: CreateResult)
      requires Valid()
      modifies this
      ensures Valid()
      ensures Cast(d, id, now).None? ==> r == SchemaRefused
      ensures Cast(d, id, now).Some? && id in old(records) ==> r == DuplicateKey
      ensures Cast(d, id, now).Some? && id !in old(records) ==> r == Created(Cast(d, id, now).value)
      ensures r.Created? ==> records == old(records)[id := r.doc] && order == old(order) + [id]
      ensures !r.Created? ==> records == old(records) && order == old(order)
    {
      var doc := Cast(d, id, now);
      if doc.None? {
        r := SchemaRefused;
      } else if id in records {
        r := DuplicateKey;
      } else {
        CreateConsistent(records, order, doc.value);
        records := records[id := doc.value];
        order := order + [id];
        r := Created(doc.value);
      }
    }

    /** `findByIdAndUpdate(id, {$set: {status, lastEditedDate}}, {new: true})`. */
    method FindByIdAndUpdate(id: Id, status: Status, now: Time) returns (r: Option<Request>)
      requires Valid()
      modifies this
      ensures Valid() && order == old(order)
      ensures id !in old(records) ==> r.None? && records == old(records)
      ensures id in old(records) ==> r == Some(SetStatus(old(records)[id], status, now))
      ensures id in old(records) ==> records == old(records)[id := SetStatus(old(records)[id], status, now)]
    {
      if id in records {
        var updated := SetStatus(records[id], status, now);
        SetConsistent(records, order, id, status, now);
        records := records[id := updated];
        r := Some(updated);
      } else {
        r := None;
      }
    }

    /** `updateMany({_id: {$in: ids}}, {$set: {status, lastEditedDate}})`,
        answering the matched and modified counts. */
    method UpdateMany(ids: seq<Id>, status: Status, now: Time) returns (matchedCount: nat, modifiedCount: nat)
      requires Valid()
      modifies this
      ensures Valid() && order == old(order)
      ensures records == UpdateWhere(old(records), ids, status, now)
      ensures matchedCount == |Matched(old(records), ids)|
      ensures modifiedCount == |Modified(old(records), ids, status, now)|
    {
      matchedCount := |Matched(records, ids)|;
      modifiedCount := |Modified(records, ids, status, now)|;
      UpdateConsistent(records, order, ids, status, now);
      records := UpdateWhere(records, ids, status, now);
    }

    /** `deleteMany({_id: {$in: ids}})`, answering the deleted count. */
    method DeleteMany(ids: seq<Id>) returns (deletedCount: nat)
      requires Valid()
      modifies this
      ensures Valid()
      ensures records == DeleteWhere(old(records), ids)
      ensures order == KeepOthers(old(order), ids)
      ensures deletedCount == |Matched(old(records), ids)|
      ensures |old(records)| == |records| + deletedCount
    {
      DeleteCount(records, ids);
      DeleteConsistent(records, order, ids);
      deletedCount := |Matched(records, ids)|;
      records := DeleteWhere(records, ids);
      order := KeepOthers(order, ids);
    }
  }
}
