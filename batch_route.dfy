/** The handlers of `/api/request/batch`: PATCH sets one status on every
    stored request whose id is listed, DELETE removes every stored request
    whose id is listed. Both answer 404 when no listed id is stored, and
    report their counts in a message. */
module BatchRoute {
  import opened Common
  import opened Text
  import opened RequestModel
  import opened RequestStore

  /** A batch status-change body that passed `batchUpdateRequestBody`. The
      schema module is not part of this model: a handler receives the parsed
      body, or `None` when the schema refused it. */
  datatype BatchUpdateInput = BatchUpdateInput(ids: seq<Id>, status: Status)

  /** The success body of a batch status change. */
  datatype UpdatedBody = UpdatedBody(message: string, updatedCount: nat, matchedCount: nat, data: seq<Request>)

  /** The success body of a batch delete. */
  datatype DeletedBody = DeletedBody(message: string, deletedCount: nat)

  const NoneFound := "No requests found with the provided IDs"

  function DigitChar(d: nat): (c: char)
    requires d < 10
    ensures IsDigit(c) && c as int - '0' as int == d
  {
    ('0' as int + d) as char
  }

  /** A count as a template literal writes it: decimal digits, no leading zero. */
  function NatToString(n: nat): (s: string)
    ensures IsDigits(s) && DigitsValue(s) == n
    ensures |s| > 1 ==> s[0] != '0'
  {
    if n < 10 then [DigitChar(n)]
    else
      var prefix := NatToString(n / 10);
      var s := prefix + [DigitChar(n % 10)];
      assert s[..|s| - 1] == prefix;
      s
  }

  /** The written count reads back as the same number. */
  lemma NatToStringNumber(n: nat)
    ensures NumberOf(NatToString(n)) == Integer(n)
  {
  }

  /** Different counts are written differently. */
  lemma NatToStringInjective(m: nat, n: nat)
    requires NatToString(m) == NatToString(n)
    ensures m == n
  {
    NatToStringNumber(m);
    NatToStringNumber(n);
  }

  function UpdatedMessage(n: nat): string
  {
    "Successfully updated " + NatToString(n) + " requests"
  }

  function DeletedMessage(n: nat): string
  {
    "Successfully deleted " + NatToString(n) + " requests"
  }

  /** PATCH /api/request/batch at time `now`. */
  method BatchPatch(store: Collection, parsed: Option<BatchUpdateInput>, now: Time) returns (r: Response<UpdatedBody>)
    requires store.Valid()
    modifies store
    ensures store.Valid() && store.order == old(store.order)
    ensures parsed.None? ==> r == Fail(BadRequestCode, InvalidInput) && store.records == old(store.records)
    ensures parsed.Some? && Matched(old(store.records), parsed.value.ids) == {} ==>
              r == Fail(NotFoundCode, NoneFound) && store.records == old(store.records)
    ensures parsed.Some? && Matched(old(store.records), parsed.value.ids) != {} ==>
              store.records == UpdateWhere(old(store.records), parsed.value.ids, parsed.value.status, now)
    ensures parsed.Some? && Matched(old(store.records), parsed.value.ids) != {} ==>
              && r.Ok? && r.code == OkCode
              && r.value.matchedCount == |Matched(old(store.records), parsed.value.ids)|
              && r.value.updatedCount == |Modified(old(store.records), parsed.value.ids, parsed.value.status, now)|
              && r.value.message == UpdatedMessage(r.value.updatedCount)
              && r.value.data == store.Find(parsed.value.ids)
    ensures r.Ok? ==> |r.value.data| == r.value.matchedCount > 0
  {
    if parsed.None? {
      return Fail(BadRequestCode, InvalidInput);
    }
    var ids, status := parsed.value.ids, parsed.value.status;
    if Matched(store.records, ids) == {} {
      UpdateNoMatch(store.records, ids, status, now);
    }
    var matchedCount, modifiedCount := store.UpdateMany(ids, status, now);
    if matchedCount == 0 {
      return Fail(NotFoundCode, NoneFound);
    }
    var updated := store.Find(ids);
    r := Ok(OkCode, UpdatedBody(UpdatedMessage(modifiedCount), modifiedCount, matchedCount, updated));
  }

  /** What a successful batch status change answers as `data`: each listed,
      stored request, once, carrying the new status and edit time and
      otherwise as it was before. */
  lemma FoundAfterUpdate(store: Collection, before: map<Id, Request>, ids: seq<Id>, status: Status, now: Time)
    requires store.Valid() && store.records == UpdateWhere(before, ids, status, now)
    ensures |store.Find(ids)| == |Matched(before, ids)|
    ensures forall i :: 0 <= i < |store.Find(ids)| ==>
              && store.Find(ids)[i].id in ids && store.Find(ids)[i].id in before
              && store.Find(ids)[i] == SetStatus(before[store.Find(ids)[i].id], status, now)
  {
    var data := store.Find(ids);
    RepeatModifiesNothing(before, ids, status, now);
    forall i | 0 <= i < |data|
      ensures data[i].id in before && data[i] == SetStatus(before[data[i].id], status, now)
    {
      assert data[i].id in store.records;
    }
  }

  /** DELETE /api/request/batch. */
  method BatchDelete(store: Collection, parsed: Option<seq<Id>>) returns (r: Response<DeletedBody>)
    requires store.Valid()
    modifies store
    ensures store.Valid()
    ensures parsed.None? ==>
              r == Fail(BadRequestCode, InvalidInput)
              && store.records == old(store.records) && store.order == old(store.order)
    ensures parsed.Some? && Matched(old(store.records), parsed.value) == {} ==>
              r == Fail(NotFoundCode, NoneFound)
              && store.records == old(store.records) && store.order == old(store.order)
    ensures parsed.Some? && Matched(old(store.records), parsed.value) != {} ==>
              && store.records == DeleteWhere(old(store.records), parsed.value)
              && store.order == KeepOthers(old(store.order), parsed.value)
              && r.Ok? && r.code == OkCode
              && r.value.deletedCount == |Matched(old(store.records), parsed.value)|
              && r.value.message == DeletedMessage(r.value.deletedCount)
    ensures r.Ok? ==> |old(store.records)| == |store.records| + r.value.deletedCount
  {
    if parsed.None? {
      return Fail(BadRequestCode, InvalidInput);
    }
    var ids := parsed.value;
    if Matched(store.records, ids) == {} {
      DeleteNoMatch(store.order, store.records, ids);
    }
    var deletedCount := store.DeleteMany(ids);
    if deletedCount == 0 {
      return Fail(NotFoundCode, NoneFound);
    }
    r := Ok(OkCode, DeletedBody(DeletedMessage(deletedCount), deletedCount));
  }

  /** Ids with no stored request are ignored: the listed ids that are stored
      are updated whatever else the list holds, and a list with at least one
      stored id is not refused. */
  lemma UnknownIdsIgnored(records: map<Id, Request>, ids: seq<Id>, unknown: seq<Id>, status: Status, now: Time)
    requires forall id :: id in unknown ==> id !in records
    ensures Matched(records, ids + unknown) == Matched(records, ids)
    ensures UpdateWhere(records, ids + unknown, status, now) == UpdateWhere(records, ids, status, now)
    ensures DeleteWhere(records, ids + unknown) == DeleteWhere(records, ids)
  {
  }
}
