/** The handlers of `/api/request`: GET lists one page of requests (filter
    by status, newest first, `skip`/`limit`), PUT creates a request, PATCH
    changes the status of one request. Each validates, performs one store
    operation and maps the outcome to a response code. */
module RequestRoute {
  import opened Common
  import opened Text
  import opened RequestSchemas
  import opened RequestModel
  import opened RequestStore

  /** `PAGINATION_PAGE_SIZE`. Its module is not part of this model; every
      property below holds for any positive page size, and 10 is the page
      size the admin page assumes before its first answer. */
  const PageSize: nat := 10

  function Min(a: nat, b: nat): nat
  {
    if a <= b then a else b
  }

  // ----------------------------------------------------------- pagination

  /** `skip = (page - 1) * limit`: how many documents the pages before
      `page` hold. Written as repeated addition so that proofs about pages
      see no product; SkipIsProduct shows it is the product. */
  function Skip(page: nat, limit: nat): nat
    requires page >= 1
  {
    if page == 1 then 0 else Skip(page - 1, limit) + limit
  }

  lemma {:induction false} SkipIsProduct(page: nat, limit: nat)
    requires page >= 1
    ensures Skip(page, limit) == (page - 1) * limit
  {
    if page > 1 {
      SkipIsProduct(page - 1, limit);
      assert (page - 1) * limit == (page - 2) * limit + limit;
    }
  }

  /** Later pages start further on. */
  lemma {:induction false} SkipMonotone(a: nat, b: nat, limit: nat)
    requires 1 <= a <= b
    ensures Skip(a, limit) <= Skip(b, limit)
  {
    if a < b {
      SkipMonotone(a, b - 1, limit);
    }
  }

  /** `Math.max(1, Math.ceil(total / limit))`: the fewest pages, at least
      one, whose `limit` slots hold all `total` documents. */
  function TotalPages(total: nat, limit: nat): (pages: nat)
    requires limit > 0
    ensures pages >= 1
    ensures Skip(pages + 1, limit) >= total
    ensures total > 0 ==> Skip(pages, limit) < total
    ensures total == 0 ==> pages == 1
  {
    var q := (total + limit - 1) / limit;
    CeilingBounds(total, limit);
    if q >= 1 then q else 1
  }

  /** `q = ceil(total / limit)`, computed as `(total + limit - 1) / limit`:
      `q` pages hold `total`, and `q - 1` do not. */
  lemma CeilingBounds(total: nat, limit: nat)
    requires limit > 0
    ensures Skip((total + limit - 1) / limit + 1, limit) >= total
    ensures total > 0 ==> (total + limit - 1) / limit >= 1 && Skip((total + limit - 1) / limit, limit) < total
    ensures total == 0 ==> (total + limit - 1) / limit == 0
  {
    var n := total + limit - 1;
    var q := n / limit;
    var p := q * limit;
    assert n == p + n % limit;
    SkipIsProduct(q + 1, limit);
    if q >= 1 {
      SkipIsProduct(q, limit);
      assert (q - 1) * limit == p - limit;
    }
    if total == 0 {
      assert n < limit;
    }
  }

  /** The same bounds as products: `totalPages * limit >= total`, and one
      page fewer would not do. */
  lemma TotalPagesBounds(total: nat, limit: nat)
    requires limit > 0
    ensures TotalPages(total, limit) * limit >= total
    ensures total > 0 ==> (TotalPages(total, limit) - 1) * limit < total
  {
    SkipIsProduct(TotalPages(total, limit), limit);
    SkipIsProduct(TotalPages(total, limit) + 1, limit);
  }

  /** The documents a status filter selects: all of them without a filter. */
  predicate Matches(r: Request, status: Option<Status>)
  {
    status.None? || r.status == status.value
  }

  /** `find(filter)` before sorting, in natural order. */
  function FilterByStatus(docs: seq<Request>, status: Option<Status>): (r: seq<Request>)
    ensures |r| <= |docs|
    ensures status.None? ==> r == docs
  {
    if docs == [] then []
    else if Matches(docs[0], status) then [docs[0]] + FilterByStatus(docs[1..], status)
    else FilterByStatus(docs[1..], status)
  }

  /** The filter keeps exactly the documents that match. */
  lemma {:induction false} FilterMembers(docs: seq<Request>, status: Option<Status>)
    ensures forall x :: x in FilterByStatus(docs, status) <==> x in docs && Matches(x, status)
  {
    if docs != [] {
      FilterMembers(docs[1..], status);
      assert docs == [docs[0]] + docs[1..];
    }
  }

  /** Ordered by `createdDate`, newest first. */
  predicate NewestFirst(s: seq<Request>)
  {
    forall i, j :: 0 <= i < j < |s| ==> s[i].createdDate >= s[j].createdDate
  }

  /** Puts `x` before the first document that is not newer than it. */
  function InsertByDate(x: Request, s: seq<Request>): (r: seq<Request>)
    ensures |r| == |s| + 1
    ensures multiset(r) == multiset(s) + multiset{x}
    ensures forall y :: y in r <==> y == x || y in s
  {
    if s == [] || x.createdDate >= s[0].createdDate then
      [x] + s
    else
      assert s == [s[0]] + s[1..];
      [s[0]] + InsertByDate(x, s[1..])
  }

  /** Inserting into a list ordered newest first keeps it ordered. */
  lemma {:induction false} InsertKeepsOrder(x: Request, s: seq<Request>)
    requires NewestFirst(s)
    ensures NewestFirst(InsertByDate(x, s))
  {
    if s == [] || x.createdDate >= s[0].createdDate {
      ConsOrdered(x, s);
    } else {
      InsertKeepsOrder(x, s[1..]);
      InsertNoNewer(x, s[1..], s[0].createdDate);
      ConsOrdered(s[0], InsertByDate(x, s[1..]));
    }
  }

  /** Inserting into a list with nothing newer than `d` something not newer
      than `d` leaves nothing newer than `d`. */
  lemma {:induction false} InsertNoNewer(x: Request, s: seq<Request>, d: Time)
    requires x.createdDate <= d
    requires forall k :: 0 <= k < |s| ==> s[k].createdDate <= d
    ensures forall k :: 0 <= k < |InsertByDate(x, s)| ==> InsertByDate(x, s)[k].createdDate <= d
  {
    if s != [] && x.createdDate < s[0].createdDate {
      InsertNoNewer(x, s[1..], d);
    }
  }

  /** A newest-first list stays so behind a document at least as new as its head. */
  lemma ConsOrdered(h: Request, t: seq<Request>)
    requires NewestFirst(t)
    requires t == [] || h.createdDate >= t[0].createdDate || forall k :: 0 <= k < |t| ==> t[k].createdDate <= h.createdDate
    ensures NewestFirst([h] + t)
  {
    var r := [h] + t;
    forall i, j | 0 <= i < j < |r|
      ensures r[i].createdDate >= r[j].createdDate
    {
      if i > 0 {
        assert r[i] == t[i - 1] && r[j] == t[j - 1];
      } else {
        assert r[j] == t[j - 1];
      }
    }
  }

  /** `.sort({createdDate: -1})`: a stable sort over the natural order.
      SortByDateSpec states what it achieves. */
  function SortByDate(s: seq<Request>): (r: seq<Request>)
    ensures |r| == |s|
  {
    if s == [] then [] else InsertByDate(s[0], SortByDate(s[1..]))
  }

  /** The sort answers the same documents, newest first. */
  lemma {:induction false} SortByDateSpec(s: seq<Request>)
    ensures multiset(SortByDate(s)) == multiset(s)
    ensures NewestFirst(SortByDate(s))
  {
    if s != [] {
      assert s == [s[0]] + s[1..];
      SortByDateSpec(s[1..]);
      InsertKeepsOrder(s[0], SortByDate(s[1..]));
    }
  }

  /** `.skip(skip).limit(limit)`. */
  function PageOf(s: seq<Request>, skip: nat, limit: nat): (r: seq<Request>)
    ensures |r| <= limit
    ensures skip >= |s| ==> r == []
    ensures skip < |s| ==> |r| == Min(limit, |s| - skip)
    ensures forall k :: 0 <= k < |r| ==> skip + k < |s| && r[k] == s[skip + k]
  {
    if skip >= |s| then [] else s[skip..skip + Min(limit, |s| - skip)]
  }

  /** A page of an ordered list is ordered and holds only items of the list. */
  lemma PageOfSorted(s: seq<Request>, skip: nat, limit: nat)
    requires NewestFirst(s)
    ensures NewestFirst(PageOf(s, skip, limit))
    ensures forall x :: x in PageOf(s, skip, limit) ==> x in s
  {
    var r := PageOf(s, skip, limit);
    forall i, j | 0 <= i < j < |r|
      ensures r[i].createdDate >= r[j].createdDate
    {
      assert r[i] == s[skip + i] && r[j] == s[skip + j];
    }
  }

  /** Sorting neither adds nor drops documents. */
  lemma SortedMembers(s: seq<Request>)
    ensures forall x :: x in SortByDate(s) <==> x in s
    ensures |SortByDate(s)| == |s|
  {
    var r := SortByDate(s);
    SortByDateSpec(s);
    assert forall x :: x in r <==> x in multiset(r);
    assert |r| == |multiset(r)|;
  }

  /** A page past `totalPages` starts past the last matching document, so it is empty. */
  lemma PastLastPage(s: seq<Request>, page: nat, pages: nat, limit: nat)
    requires page >= 1 && pages >= 1 && Skip(pages + 1, limit) >= |s|
    ensures page > pages ==> PageOf(s, Skip(page, limit), limit) == []
  {
    if page > pages {
      SkipMonotone(pages + 1, page, limit);
    }
  }

  /** The success body of GET. */
  datatype ListBody = ListBody(data: seq<Request>, page: nat, limit: nat, total: nat, totalPages: nat)

  /** The documents on page `page`: those matching `status`, newest first,
      from `skip = (page - 1) * limit` on, at most `limit` of them. */
  function PageData(docs: seq<Request>, status: Option<Status>, page: nat, limit: nat): (data: seq<Request>)
    requires page >= 1
    ensures |data| <= limit
  {
    PageOf(SortByDate(FilterByStatus(docs, status)), Skip(page, limit), limit)
  }

  /** The body GET answers for query `q`: one page and the counts of all
      matching documents and of all pages. */
  function ListPage(docs: seq<Request>, q: ListQuery, limit: nat): (b: ListBody)
    requires q.page >= 1 && limit > 0
    ensures b.page == q.page && b.limit == limit
    ensures b.total == |FilterByStatus(docs, q.status)|
    ensures b.totalPages >= 1 && Skip(b.totalPages + 1, limit) >= b.total
    ensures |b.data| <= limit
  {
    var total := |FilterByStatus(docs, q.status)|;
    ListBody(PageData(docs, q.status, q.page, limit), q.page, limit, total, TotalPages(total, limit))
  }

  /** A page is ordered newest first and holds only stored documents that
      match the filter. */
  lemma PageDataOrdered(docs: seq<Request>, status: Option<Status>, page: nat, limit: nat)
    requires page >= 1
    ensures NewestFirst(PageData(docs, status, page, limit))
    ensures forall x :: x in PageData(docs, status, page, limit) ==> x in docs && Matches(x, status)
  {
    var matching := FilterByStatus(docs, status);
    SortedMembers(matching);
    SortByDateSpec(matching);
    FilterMembers(docs, status);
    PageOfSorted(SortByDate(matching), Skip(page, limit), limit);
  }

  /** A page past the last one is empty (and `totalPages` is still at least 1). */
  lemma PageBeyondLastIsEmpty(docs: seq<Request>, q: ListQuery, limit: nat)
    requires q.page >= 1 && limit > 0
    ensures q.page > ListPage(docs, q, limit).totalPages ==> ListPage(docs, q, limit).data == []
  {
    var matching := FilterByStatus(docs, q.status);
    SortedMembers(matching);
    PastLastPage(SortByDate(matching), q.page, TotalPages(|matching|, limit), limit);
  }

  /** Every matching document is on the page its rank says: the document
      of rank `Skip(page, limit) + index` among the matching ones, newest
      first, is item `index` of page `page`, and that page is within
      `totalPages`. */
  lemma RecordOnItsPage(docs: seq<Request>, status: Option<Status>, limit: nat, page: nat, index: nat)
    requires limit > 0 && page >= 1 && index < limit
    requires Skip(page, limit) + index < |FilterByStatus(docs, status)|
    ensures page <= ListPage(docs, ListQuery(page, status), limit).totalPages
    ensures index < |ListPage(docs, ListQuery(page, status), limit).data|
    ensures ListPage(docs, ListQuery(page, status), limit).data[index]
            == SortByDate(FilterByStatus(docs, status))[Skip(page, limit) + index]
  {
    ListPageShape(docs, ListQuery(page, status), limit);
    PageRank(SortByDate(FilterByStatus(docs, status)), limit, page, index);
  }

  /** GET's body, taken apart: the page of the sorted matching documents
      and the page count of all matching documents. */
  lemma ListPageShape(docs: seq<Request>, q: ListQuery, limit: nat)
    requires q.page >= 1 && limit > 0
    ensures ListPage(docs, q, limit).data
            == PageOf(SortByDate(FilterByStatus(docs, q.status)), Skip(q.page, limit), limit)
    ensures ListPage(docs, q, limit).totalPages == TotalPages(|FilterByStatus(docs, q.status)|, limit)
  {
  }

  /** A page that starts before the last matching document is within `totalPages`. */
  lemma PageWithinTotal(total: nat, limit: nat, page: nat)
    requires limit > 0 && page >= 1 && Skip(page, limit) < total
    ensures page <= TotalPages(total, limit)
  {
    var pages := TotalPages(total, limit);
    if page > pages {
      SkipMonotone(pages + 1, page, limit);
    }
  }

  /** In any list, the item of rank `Skip(page, limit) + index` is item
      `index` of page `page`, and that page is within the page count. */
  lemma PageRank(s: seq<Request>, limit: nat, page: nat, index: nat)
    requires limit > 0 && page >= 1 && index < limit
    requires Skip(page, limit) + index < |s|
    ensures page <= TotalPages(|s|, limit)
    ensures index < |PageOf(s, Skip(page, limit), limit)|
    ensures PageOf(s, Skip(page, limit), limit)[index] == s[Skip(page, limit) + index]
  {
    PageWithinTotal(|s|, limit, page);
  }

  /** The stored ids, among those in `order`, whose document matches `status`. */
  function StoredMatching(order: seq<Id>, records: map<Id, Request>, status: Option<Status>): set<Id>
  {
    set id | id in records && id in order && Matches(records[id], status)
  }

  /** With a filter, `total` counts exactly the stored documents with that status. */
  lemma {:induction false} TotalCountsStored(order: seq<Id>, records: map<Id, Request>, status: Option<Status>)
    requires Distinct(order)
    requires forall id :: id in order ==> id in records
    ensures |FilterByStatus(Documents(order, records), status)| == |StoredMatching(order, records, status)|
  {
    if order == [] {
      assert StoredMatching(order, records, status) == {};
    } else {
      assert Distinct(order[1..]);
      TotalCountsStored(order[1..], records, status);
      FilterStep(order, records, status);
      StoredStep(order, records, status);
    }
  }

  lemma FilterStep(order: seq<Id>, records: map<Id, Request>, status: Option<Status>)
    requires order != []
    requires forall id :: id in order ==> id in records
    ensures |FilterByStatus(Documents(order, records), status)|
            == |FilterByStatus(Documents(order[1..], records), status)| + (if Matches(records[order[0]], status) then 1 else 0)
  {
    var docs := Documents(order, records);
    assert docs[1..] == Documents(order[1..], records);
  }

  lemma StoredStep(order: seq<Id>, records: map<Id, Request>, status: Option<Status>)
    requires order != [] && Distinct(order)
    requires forall id :: id in order ==> id in records
    ensures |StoredMatching(order, records, status)|
            == |StoredMatching(order[1..], records, status)| + (if Matches(records[order[0]], status) then 1 else 0)
  {
    var now := StoredMatching(order, records, status);
    var before := StoredMatching(order[1..], records, status);
    assert order[0] !in order[1..];
    assert order == [order[0]] + order[1..];
    if Matches(records[order[0]], status) {
      assert now == before + {order[0]};
    } else {
      assert now == before;
    }
  }

  // ------------------------------------------------------------------ GET

  /** `url.searchParams.get("page")`: a string, or `null` when absent. */
  function PageInput(param: Option<string>): Input
  {
    if param.None? then Null else Str(param.value)
  }

  /** `statusParam || undefined`: an absent or empty status is undefined. */
  function StatusInput(param: Option<string>): Input
  {
    if param.None? || param.value == "" then Undefined else Str(param.value)
  }

  /** GET /api/request?page=&status=. */
  function Get(store: Collection, pageParam: Option<string>, statusParam: Option<string>): (r: Response<ListBody>)
    reads store
    requires store.Valid()
    ensures pageParam.None? ==> r == Fail(BadRequestCode, InvalidInput)
    ensures r.Fail? <==> ParseListQuery(PageInput(pageParam), StatusInput(statusParam)).None?
    ensures r.Fail? ==> r == Fail(BadRequestCode, InvalidInput)
    ensures r.Ok? ==> r.code == OkCode && r.value.limit == PageSize && r.value.page >= 1
    ensures r.Ok? ==> forall x :: x in r.value.data ==> x.id in store.records && store.records[x.id] == x
    ensures r.Ok? ==> NewestFirst(r.value.data) && |r.value.data| <= PageSize
  {
    match ParseListQuery(PageInput(pageParam), StatusInput(statusParam))
    case None => Fail(BadRequestCode, InvalidInput)
    case Some(q) =>
      var docs := store.Docs();
      PageDataOrdered(docs, q.status, q.page, PageSize);
      Ok(OkCode, ListPage(docs, q, PageSize))
  }

  /** A GET that succeeds reports as `total` the number of stored requests
      with the requested status (all of them without one), and as
      `totalPages` the pages those fill. */
  lemma GetCountsStored(store: Collection, pageParam: Option<string>, statusParam: Option<string>)
    requires store.Valid()
    requires Get(store, pageParam, statusParam).Ok?
    ensures var status := ParseListQuery(PageInput(pageParam), StatusInput(statusParam)).value.status;
            && Get(store, pageParam, statusParam).value.total == |StoredMatching(store.order, store.records, status)|
            && Get(store, pageParam, statusParam).value.totalPages
               == TotalPages(|StoredMatching(store.order, store.records, status)|, PageSize)
  {
    var q := ParseListQuery(PageInput(pageParam), StatusInput(statusParam)).value;
    TotalCountsStored(store.order, store.records, q.status);
  }

  /** An empty status parameter is the same as none at all. */
  lemma EmptyStatusIsNoFilter(store: Collection, pageParam: Option<string>)
    requires store.Valid()
    ensures Get(store, pageParam, Some("")) == Get(store, pageParam, None)
  {
  }

  // ------------------------------------------------------------------ PUT

  /** The fields PUT hands to `RequestModel.create`. */
  function CreateFields(input: CreateInput, now: Time): DocInput
  {
    DocInput(Some(input.requestorName), Some(input.itemRequested), Some(now), Some(now), Some("pending"))
  }

  /** What the schema makes of PUT's fields: a pending record created and
      edited at `now`, with trimmed texts, whenever the trimmed texts are
      within bounds. */
  lemma CreatedRecord(input: CreateInput, id: Id, now: Time)
    ensures Cast(CreateFields(input, now), id, now).Some? <==>
              && RequestModel.NameMinLength <= |Trim(input.requestorName)| <= RequestModel.NameMaxLength
              && RequestModel.ItemMinLength <= |Trim(input.itemRequested)| <= RequestModel.ItemMaxLength
    ensures Cast(CreateFields(input, now), id, now).Some? ==>
              Cast(CreateFields(input, now), id, now).value
              == Request(id, Trim(input.requestorName), Trim(input.itemRequested), now, Some(now), Pending)
  {
    ParseStatusName(Pending);
  }

  /** Without padding, the body check and the schema agree: a body zod
      accepts is stored as it was sent. */
  lemma UnpaddedBodyCreates(b: CreateBody, id: Id, now: Time)
    requires ParseCreateBody(b).Some?
    requires IsTrimmed(b.requestorName.text) && IsTrimmed(b.itemRequested.text)
    ensures Cast(CreateFields(ParseCreateBody(b).value, now), id, now).Some?
    ensures Cast(CreateFields(ParseCreateBody(b).value, now), id, now).value.requestorName == b.requestorName.text
    ensures Cast(CreateFields(ParseCreateBody(b).value, now), id, now).value.itemRequested == b.itemRequested.text
  {
    TrimOfTrimmed(b.requestorName.text);
    TrimOfTrimmed(b.itemRequested.text);
    ParseStatusName(Pending);
  }

  /** The body check counts padding, the schema does not: a name that is
      long enough only with its white-space padding (such as " ab") passes
      the body check and is refused by `RequestModel.create`. */
  lemma PaddedNameRefusedAtCreate(lead: string, name: string, trail: string, item: string, id: Id, now: Time)
    requires AllSpaces(lead) && AllSpaces(trail) && IsTrimmed(name)
    requires |name| < RequestSchemas.NameMinLength <= |lead + name + trail| <= RequestSchemas.NameMaxLength
    requires RequestSchemas.ItemMinLength <= |item| <= RequestSchemas.ItemMaxLength
    ensures ParseCreateBody(CreateBody(Str(lead + name + trail), Str(item))).Some?
    ensures Cast(CreateFields(CreateInput(lead + name + trail, item), now), id, now).None?
  {
    TrimPadded(lead, name, trail);
  }

  /** PUT /api/request with the identifier the store assigns to a new document. */
  method Put(store: Collection, body: CreateBody, now: Time, newId: Id) returns (r: Response<Request>)
    requires store.Valid()
    modifies store
    ensures store.Valid()
    ensures ParseCreateBody(body).None? ==> r == Fail(BadRequestCode, InvalidInput)
    ensures (ParseCreateBody(body).Some? && Cast(CreateFields(ParseCreateBody(body).value, now), newId, now).None?)
              ==> r == Fail(ServerErrorCode, UnknownError)
    ensures ParseCreateBody(body).Some? && newId in old(store.records) ==> r == Fail(ServerErrorCode, UnknownError)
    ensures && ParseCreateBody(body).Some?
            && Cast(CreateFields(ParseCreateBody(body).value, now), newId, now).Some?
            && newId !in old(store.records)
            ==> r == Ok(CreatedCode, Cast(CreateFields(ParseCreateBody(body).value, now), newId, now).value)
    ensures r.Fail? ==> store.records == old(store.records) && store.order == old(store.order)
    ensures r.Ok? ==> r.code == CreatedCode && r.value.id == newId && newId !in old(store.records)
    ensures r.Ok? ==> r.value.status == Pending && r.value.createdDate == now && r.value.lastEditedDate == Some(now)
    ensures r.Ok? ==> r.value.requestorName == Trim(body.requestorName.text)
    ensures r.Ok? ==> r.value.itemRequested == Trim(body.itemRequested.text)
    ensures r.Ok? ==> store.records == old(store.records)[newId := r.value]
    ensures r.Ok? ==> store.order == old(store.order) + [newId]
  {
    var parsed := ParseCreateBody(body);
    if parsed.None? {
      return Fail(BadRequestCode, InvalidInput);
    }
    CreatedRecord(parsed.value, newId, now);
    var created := store.Create(CreateFields(parsed.value, now), newId, now);
    match created
    case Created(doc) => r := Ok(CreatedCode, doc);
    case _ => r := Fail(ServerErrorCode, UnknownError);
  }

  // ---------------------------------------------------------------- PATCH

  const NotFound := "Not found"

  /** PATCH /api/request: set the status and the edit time of one request. */
  method Patch(store: Collection, body: PatchBody, now: Time) returns (r: Response<Request>)
    requires store.Valid()
    modifies store
    ensures store.Valid() && store.order == old(store.order)
    ensures ParsePatchBody(body).None? ==> r == Fail(BadRequestCode, InvalidInput) && store.records == old(store.records)
    ensures ParsePatchBody(body).Some? && body.id.text !in old(store.records) ==>
              r == Fail(NotFoundCode, NotFound) && store.records == old(store.records)
    ensures ParsePatchBody(body).Some? && body.id.text in old(store.records) ==>
              var id := body.id.text;
              var updated := SetStatus(old(store.records)[id], ParsePatchBody(body).value.status, now);
              r == Ok(OkCode, updated) && store.records == old(store.records)[id := updated]
  {
    var parsed := ParsePatchBody(body);
    if parsed.None? {
      return Fail(BadRequestCode, InvalidInput);
    }
    var updated := store.FindByIdAndUpdate(parsed.value.id, parsed.value.status, now);
    if updated.None? {
      return Fail(NotFoundCode, NotFound);
    }
    r := Ok(OkCode, updated.value);
  }

  /** Two status changes to the same status: the status stays, only the
      edit time moves to the second call's time. */
  lemma PatchTwice(r: Request, status: Status, first: Time, second: Time)
    ensures SetStatus(SetStatus(r, status, first), status, second).status == SetStatus(r, status, first).status
    ensures SetStatus(SetStatus(r, status, first), status, second) == SetStatus(r, status, second)
  {
  }
}
