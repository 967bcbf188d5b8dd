/** The zod schemas that validate the bodies and query parameters of the
    request endpoints (`createRequestBody`, `listRequestQuery`,
    `patchRequestBody`), as predicates that either accept an input and give
    its parsed form or reject it. */
module RequestSchemas {
  import opened Common
  import opened Text

  const NameMinLength: nat := 3
  const NameMaxLength: nat := 30
  const ItemMinLength: nat := 2
  const ItemMaxLength: nat := 100

  /** A raw JSON or query value as zod sees it. */
  datatype Input = Undefined | Null | Str(text: string) | OtherValue

  predicate LengthWithin(s: string, lo: nat, hi: nat)
  {
    lo <= |s| <= hi
  }

  // ---------------------------------------------------------------- create

  /** The JSON body of a create request: the two fields it may carry. */
  datatype CreateBody = CreateBody(requestorName: Input, itemRequested: Input)

  /** A create body that passed validation. */
  datatype CreateInput = CreateInput(requestorName: string, itemRequested: string)

  /** `createRequestBody.safeParse`: both fields must be strings with the
      right length, counted as given (zod does not trim here). */
  function ParseCreateBody(b: CreateBody): (r: Option<CreateInput>)
    ensures r.Some? <==>
              && b.requestorName.Str? && 3 <= |b.requestorName.text| <= 30
              && b.itemRequested.Str? && 2 <= |b.itemRequested.text| <= 100
    ensures r.Some? ==> r.value == CreateInput(b.requestorName.text, b.itemRequested.text)
  {
    match (b.requestorName, b.itemRequested)
    case (Str(name), Str(item)) =>
      if LengthWithin(name, NameMinLength, NameMaxLength) && LengthWithin(item, ItemMinLength, ItemMaxLength)
      then Some(CreateInput(name, item))
      else None
    case _ => None
  }

  /** The boundary of the name length: two characters are refused, three accepted. */
  lemma NameLengthBoundary(item: string)
    requires 2 <= |item| <= 100
    ensures ParseCreateBody(CreateBody(Str("ab"), Str(item))).None?
    ensures ParseCreateBody(CreateBody(Str("abc"), Str(item))).Some?
  {
  }

  // ------------------------------------------------------------------ list

  /** A list query that passed validation. */
  datatype ListQuery = ListQuery(page: nat, status: Option<Status>)

  /** `z.coerce.number().int().positive().default(1)`: only an undefined
      value takes the default; anything else goes through `Number(...)`,
      so `null` becomes 0 and is refused as not positive. */
  function ParsePage(v: Input): (r: Option<nat>)
    ensures v == Undefined ==> r == Some(1)
    ensures v == Null ==> r == None
    ensures r.Some? ==> r.value >= 1
    ensures v.Str? ==> (r.Some? <==> NumberOf(v.text).Integer? && NumberOf(v.text).n >= 1)
    ensures v.Str? && r.Some? ==> r.value == NumberOf(v.text).n
  {
    match v
    case Undefined => Some(1)
    case Null => None
    case Str(text) =>
      (match NumberOf(text)
       case Integer(n) => if n >= 1 then Some(n) else None
       case NotInteger => None)
    // `Number(true)` would read a boolean as 1, but a query parameter is
    // always a string or absent, so no non-string value reaches GET's page.
    case OtherValue => None
  }

  /** `z.enum([...]).optional()`: absent means no filter, otherwise one of the four names. */
  function ParseStatusFilter(v: Input): (r: Option<Option<Status>>)
    ensures v == Undefined ==> r == Some(None)
    ensures v.Str? ==> (r.Some? <==> v.text in {"pending", "completed", "approved", "rejected"})
    ensures (v == Null || v == OtherValue) ==> r == None
    ensures r.Some? && r.value.Some? ==> v == Str(StatusName(r.value.value))
  {
    match v
    case Undefined => Some(None)
    case Str(text) =>
      (match ParseStatus(text)
       case Some(s) => Some(Some(s))
       case None => None)
    case _ => None
  }

  /** `listRequestQuery.safeParse`: both parts must pass. */
  function ParseListQuery(page: Input, status: Input): (r: Option<ListQuery>)
    ensures r.Some? <==> ParsePage(page).Some? && ParseStatusFilter(status).Some?
    ensures r.Some? ==> r.value.page >= 1
  {
    match (ParsePage(page), ParseStatusFilter(status))
    case (Some(p), Some(f)) => Some(ListQuery(p, f))
    case _ => None
  }

  /** A page parameter that is a plain positive decimal number is taken at its value. */
  lemma DecimalPageAccepted(text: string)
    requires IsDigits(text) && DigitsValue(text) >= 1
    ensures ParsePage(Str(text)) == Some(DigitsValue(text))
  {
  }

  /** Zero, the empty string and blank text all coerce to 0 and are refused. */
  lemma ZeroPageRefused(text: string)
    requires AllSpaces(text)
    ensures ParsePage(Str(text)).None?
  {
  }

  // ----------------------------------------------------------------- patch

  /** The JSON body of a single status change. */
  datatype PatchBody = PatchBody(id: Input, status: Input)

  /** A patch body that passed validation. */
  datatype PatchInput = PatchInput(id: Id, status: Status)

  /** `patchRequestBody.safeParse`: a non-empty id and one of the four statuses. */
  function ParsePatchBody(b: PatchBody): (r: Option<PatchInput>)
    ensures r.Some? <==>
              && b.id.Str? && |b.id.text| >= 1
              && b.status.Str? && b.status.text in {"pending", "completed", "approved", "rejected"}
    ensures r.Some? ==> r.value.id == b.id.text && StatusName(r.value.status) == b.status.text
  {
    match (b.id, b.status)
    case (Str(id), Str(text)) =>
      if |id| >= 1 then
        match ParseStatus(text)
        case Some(s) => Some(PatchInput(id, s))
        case None => None
      else None
    case _ => None
  }

  /** The list filter and the patch body accept exactly the same status
      spellings, and read them as the same status. */
  lemma SameStatusSet(id: string, text: string)
    requires |id| >= 1
    ensures ParseStatusFilter(Str(text)).Some? <==> ParsePatchBody(PatchBody(Str(id), Str(text))).Some?
    ensures ParseStatusFilter(Str(text)).Some? ==>
              ParseStatusFilter(Str(text)).value == Some(ParsePatchBody(PatchBody(Str(id), Str(text))).value.status)
  {
  }
}
