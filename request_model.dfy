/** The mongoose schema of a request document: the stored record, the
    invariant every stored record keeps, and what `RequestModel.create` does
    to the fields it is given (trim, defaults, validators). */
module RequestModel {
  import opened Common
  import opened Text

  const NameMinLength: nat := 3
  const NameMaxLength: nat := 30
  const ItemMinLength: nat := 2
  const ItemMaxLength: nat := 100

  /** A stored request document. `lastEditedDate` is optional. */
  datatype Request = Request(
    id: Id,
    requestorName: string,
    itemRequested: string,
    createdDate: Time,
    lastEditedDate: Option<Time>,
    status: Status)

  /** The schema's invariant: both texts are trimmed and within their
      bounds. (The status is one of the four values by its type.) */
  predicate WellFormed(r: Request)
  {
    && Trim(r.requestorName) == r.requestorName
    && NameMinLength <= |r.requestorName| <= NameMaxLength
    && Trim(r.itemRequested) == r.itemRequested
    && ItemMinLength <= |r.itemRequested| <= ItemMaxLength
  }

  /** The fields handed to `RequestModel.create`; `None` is a field left out. */
  datatype DocInput = DocInput(
    requestorName: Option<string>,
    itemRequested: Option<string>,
    createdDate: Option<Time>,
    lastEditedDate: Option<Time>,
    status: Option<string>)

  /** A required string field with `trim: true` and length bounds: the value
      is trimmed first and the trimmed value is checked. */
  function TrimmedWithin(v: Option<string>, lo: nat, hi: nat): (r: Option<string>)
    requires lo >= 1
    ensures r.Some? <==> v.Some? && lo <= |Trim(v.value)| <= hi
    ensures r.Some? ==> r.value == Trim(v.value) && Trim(r.value) == r.value
  {
    match v
    case None => None
    case Some(s) =>
      var t := Trim(s);
      TrimIdempotent(s);
      if lo <= |t| <= hi then Some(t) else None
  }

  /** Casting and validating a new document: defaults fill `status`
      (pending) and `createdDate` (the current time); the status must be one
      of the four names; the result is a well-formed record or nothing. */
  function Cast(d: DocInput, id: Id, now: Time): (r: Option<Request>)
    ensures r.Some? <==>
              && d.requestorName.Some? && NameMinLength <= |Trim(d.requestorName.value)| <= NameMaxLength
              && d.itemRequested.Some? && ItemMinLength <= |Trim(d.itemRequested.value)| <= ItemMaxLength
              && (d.status.None? || ParseStatus(d.status.value).Some?)
    ensures r.Some? ==> WellFormed(r.value) && r.value.id == id
    ensures r.Some? ==> r.value.requestorName == Trim(d.requestorName.value)
    ensures r.Some? ==> r.value.itemRequested == Trim(d.itemRequested.value)
    ensures r.Some? && d.status.None? ==> r.value.status == Pending
    ensures r.Some? && d.status.Some? ==> StatusName(r.value.status) == d.status.value
    ensures r.Some? && d.createdDate.None? ==> r.value.createdDate == now
    ensures r.Some? && d.createdDate.Some? ==> r.value.createdDate == d.createdDate.value
    ensures r.Some? ==> r.value.lastEditedDate == d.lastEditedDate
  {
    var name := TrimmedWithin(d.requestorName, NameMinLength, NameMaxLength);
    var item := TrimmedWithin(d.itemRequested, ItemMinLength, ItemMaxLength);
    var status := if d.status.None? then Some(Pending) else ParseStatus(d.status.value);
    var created := if d.createdDate.None? then now else d.createdDate.value;
    if name.Some? && item.Some? && status.Some? then
      Some(Request(id, name.value, item.value, created, d.lastEditedDate, status.value))
    else
      None
  }

  /** A record the schema accepted passes the schema again unchanged: the
      trim and the defaults have already been applied. */
  lemma {:induction false} CastStable(r: Request, now: Time)
    requires WellFormed(r)
    ensures Cast(DocInput(Some(r.requestorName), Some(r.itemRequested), Some(r.createdDate),
                          r.lastEditedDate, Some(StatusName(r.status))), r.id, now) == Some(r)
  {
    ParseStatusName(r.status);
  }

  /** Padding around a valid name does not matter to the schema: it is trimmed away. */
  lemma PaddedNameStoredTrimmed(lead: string, name: string, trail: string, item: string, id: Id, now: Time)
    requires AllSpaces(lead) && AllSpaces(trail) && IsTrimmed(name)
    requires NameMinLength <= |name| <= NameMaxLength
    requires ItemMinLength <= |Trim(item)| <= ItemMaxLength
    ensures Cast(DocInput(Some(lead + name + trail), Some(item), None, None, None), id, now).Some?
    ensures Cast(DocInput(Some(lead + name + trail), Some(item), None, None, None), id, now).value.requestorName == name
  {
    TrimPadded(lead, name, trail);
  }
}
