/** The admin page's view state: the displayed page of requests, the
    selected ids, the current page and status tab, the pagination counts and
    the error message, and how each handler changes them. The server calls
    themselves are not modelled; each handler receives their outcome. */
module AdminPage {
  import opened Common
  import opened RequestModel
  import opened RequestStore
  import opened RequestSchemas
  import opened RequestRoute
  import BatchRoute

  /** A status tab: all requests, or those with one status. */
  datatype StatusFilter = All | Only(status: Status)

  /** `status === "all" ? undefined : status`: the status sent with a fetch. */
  function StatusParam(f: StatusFilter): (r: Option<Status>)
    ensures r.None? <==> f == All
    ensures f.Only? ==> r == Some(f.status)
  {
    match f
    case All => None
    case Only(s) => Some(s)
  }

  /** The parameters `getRequests(page, statusParam)` puts in the query:
      the page always, written in decimal, and the status only when there is
      one. */
  function PageQuery(page: nat): Option<string>
  {
    Some(BatchRoute.NatToString(page))
  }

  function StatusQuery(f: StatusFilter): Option<string>
  {
    match StatusParam(f)
    case None => None
    case Some(s) => Some(StatusName(s))
  }

  /** What GET reads from the page's query: the page it asked for, and the
      tab's status, with the "all" tab read as no filter. */
  lemma FetchQueryParsed(page: nat, f: StatusFilter)
    requires page >= 1
    ensures ParseListQuery(PageInput(PageQuery(page)), StatusInput(StatusQuery(f)))
            == Some(ListQuery(page, StatusParam(f)))
  {
    PageQueryParsed(page);
    StatusQueryParsed(f);
  }

  lemma PageQueryParsed(page: nat)
    requires page >= 1
    ensures ParsePage(PageInput(PageQuery(page))) == Some(page)
  {
    BatchRoute.NatToStringNumber(page);
  }

  lemma StatusQueryParsed(f: StatusFilter)
    ensures ParseStatusFilter(StatusInput(StatusQuery(f))) == Some(StatusParam(f))
  {
    if f.Only? {
      ParseStatusName(f.status);
      assert StatusName(f.status) != "";
    }
  }

  /** A fetch of page `page` on tab `f` is answered with that page, counting
      the stored requests the tab shows. */
  lemma FetchAnswersTab(store: Collection, page: nat, f: StatusFilter)
    requires store.Valid() && page >= 1
    ensures Get(store, PageQuery(page), StatusQuery(f)).Ok?
    ensures Get(store, PageQuery(page), StatusQuery(f)).value.page == page
    ensures Get(store, PageQuery(page), StatusQuery(f)).value.total
            == |StoredMatching(store.order, store.records, StatusParam(f))|
  {
    FetchQueryParsed(page, f);
    GetCountsStored(store, PageQuery(page), StatusQuery(f));
  }

  /** The page's own initial `limit`. */
  const InitialLimit := 10

  /** How a server call ended: with its result, or by throwing; a thrown
      `Error` carries a message, anything else thrown does not. */
  datatype Outcome<+T> = Succeeded(value: T) | Threw(message: Option<string>)

  const FetchFailed := "Failed to fetch requests"
  const StatusChangeFailed := "Failed to update request status"
  const BatchUpdateFailed := "Failed to batch update requests"
  const BatchDeleteFailed := "Failed to batch delete requests"

  /** `err instanceof Error ? err.message : fallback`. */
  function ErrorText(message: Option<string>, fallback: string): (s: string)
    ensures message.Some? ==> s == message.value
    ensures message.None? ==> s == fallback
  {
    if message.Some? then message.value else fallback
  }

  /** The pagination counts the page shows. */
  datatype Pagination = Pagination(page: int, limit: nat, total: nat, totalPages: nat)

  // ------------------------------------------------------ list functions

  /** `requests.map(req => req._id)`. */
  function Ids(reqs: seq<Request>): (ids: seq<Id>)
    ensures |ids| == |reqs|
    ensures forall i :: 0 <= i < |reqs| ==> ids[i] == reqs[i].id
  {
    if reqs == [] then [] else [reqs[0].id] + Ids(reqs[1..])
  }

  /** `prev.filter(selectedId => selectedId !== id)`. */
  function Without(sel: seq<Id>, id: Id): (r: seq<Id>)
    ensures |r| <= |sel|
    ensures forall x :: x in r <==> x in sel && x != id
    ensures Distinct(sel) ==> Distinct(r)
  {
    if sel == [] then []
    else if sel[0] == id then Without(sel[1..], id)
    else
      var rest := Without(sel[1..], id);
      assert Distinct(sel) ==> sel[0] !in sel[1..];
      [sel[0]] + rest
  }

  /** `handleSelectRequest`'s update: remove the id when selected, append it otherwise. */
  function Toggle(sel: seq<Id>, id: Id): seq<Id>
  {
    if id in sel then Without(sel, id) else sel + [id]
  }

  /** `handleSelectAll`'s update: clear the selection when it is as long as
      the displayed list, otherwise select every displayed id in order. */
  function SelectAllOf(sel: seq<Id>, reqs: seq<Request>): (r: seq<Id>)
    ensures |sel| == |reqs| ==> r == []
    ensures |sel| != |reqs| ==> r == Ids(reqs)
  {
    if |sel| == |reqs| then [] else Ids(reqs)
  }

  /** `handleStatusChange`'s update: the record with id `id` is replaced by
      the server's record, every other record stays where it is. */
  function ReplaceById(reqs: seq<Request>, id: Id, updated: Request): (r: seq<Request>)
    ensures |r| == |reqs|
    ensures forall i :: 0 <= i < |reqs| && reqs[i].id == id ==> r[i] == updated
    ensures forall i :: 0 <= i < |reqs| && reqs[i].id != id ==> r[i] == reqs[i]
  {
    if reqs == [] then []
    else [if reqs[0].id == id then updated else reqs[0]] + ReplaceById(reqs[1..], id, updated)
  }

  /** `handleBatchUpdate`'s update: every listed record gets the new status
      and the edit time, every other record stays as it was. */
  function PatchLocal(reqs: seq<Request>, ids: seq<Id>, status: Status, now: Time): (r: seq<Request>)
    ensures |r| == |reqs|
    ensures forall i :: 0 <= i < |reqs| && reqs[i].id in ids ==> r[i] == SetStatus(reqs[i], status, now)
    ensures forall i :: 0 <= i < |reqs| && reqs[i].id !in ids ==> r[i] == reqs[i]
  {
    if reqs == [] then []
    else [if reqs[0].id in ids then SetStatus(reqs[0], status, now) else reqs[0]]
         + PatchLocal(reqs[1..], ids, status, now)
  }

  /** `handleBatchDelete`'s update: `prev.filter(request => !ids.includes(request._id))`. */
  function RemoveLocal(reqs: seq<Request>, ids: seq<Id>): (r: seq<Request>)
    ensures |r| <= |reqs|
    ensures forall x :: x in r <==> x in reqs && x.id !in ids
  {
    if reqs == [] then []
    else if reqs[0].id in ids then RemoveLocal(reqs[1..], ids)
    else [reqs[0]] + RemoveLocal(reqs[1..], ids)
  }

  // -------------------------------------------------------------- lemmas

  /** The local delete works row by row: removing from two lists one after
      the other is removing from each and keeping the order. */
  lemma {:induction false} RemoveLocalAppend(a: seq<Request>, b: seq<Request>, ids: seq<Id>)
    ensures RemoveLocal(a + b, ids) == RemoveLocal(a, ids) + RemoveLocal(b, ids)
  {
    if a != [] {
      assert (a + b)[1..] == a[1..] + b;
      RemoveLocalAppend(a[1..], b, ids);
    } else {
      assert a + b == b;
    }
  }

  /** A single row is kept exactly when its id is not listed. */
  lemma RemoveLocalOne(x: Request, ids: seq<Id>)
    ensures RemoveLocal([x], ids) == if x.id in ids then [] else [x]
  {
    assert [x][1..] == [];
  }

  /** Toggling flips the membership of that id and of no other. */
  lemma ToggleFlips(sel: seq<Id>, id: Id)
    ensures id in Toggle(sel, id) <==> id !in sel
    ensures forall x :: x != id ==> (x in Toggle(sel, id) <==> x in sel)
    ensures Distinct(sel) ==> Distinct(Toggle(sel, id))
  {
  }

  /** Toggling an unselected id twice restores the selection exactly. */
  lemma ToggleTwice(sel: seq<Id>, id: Id)
    requires id !in sel
    ensures Toggle(Toggle(sel, id), id) == sel
  {
    WithoutAppended(sel, id);
  }

  lemma {:induction false} WithoutAppended(sel: seq<Id>, id: Id)
    requires id !in sel
    ensures Without(sel + [id], id) == sel
  {
    if sel != [] {
      assert (sel + [id])[1..] == sel[1..] + [id];
      WithoutAppended(sel[1..], id);
    } else {
      assert sel + [id] == [id];
    }
  }

  /** The selection only ever holds displayed ids, each once. */
  predicate SelectionShown(sel: seq<Id>, reqs: seq<Request>)
  {
    Distinct(sel) && forall id :: id in sel ==> id in Ids(reqs)
  }

  /** When the selection holds only displayed ids, each once, and the
      displayed ids are distinct, the length test of select-all means "every
      displayed row is selected": the button clears a full selection and
      fills any other. */
  lemma {:induction false} FullSelectionByLength(sel: seq<Id>, reqs: seq<Request>)
    requires SelectionShown(sel, reqs) && Distinct(Ids(reqs))
    ensures |sel| == |reqs| <==> forall id :: id in Ids(reqs) ==> id in sel
  {
    var s := set x | x in sel;
    var d := set x | x in Ids(reqs);
    DistinctCardinality(sel);
    DistinctCardinality(Ids(reqs));
    assert s <= d;
    if |sel| == |reqs| {
      SubsetOfSameSize(s, d);
      forall id | id in Ids(reqs)
        ensures id in sel
      {
        assert id in d;
      }
    }
    if forall id :: id in Ids(reqs) ==> id in sel {
      assert d <= s;
      assert s == d;
    }
  }

  lemma SubsetOfSameSize(s: set<Id>, d: set<Id>)
    requires s <= d && |s| == |d|
    ensures s == d
  {
    assert s * d == s;
    assert |d - s| == |d| - |d * s|;
    assert d * s == s;
    assert d - s == {};
  }

  /** Select-all on a selection that holds only displayed rows leaves again
      such a selection. */
  lemma SelectAllShown(sel: seq<Id>, reqs: seq<Request>)
    requires Distinct(Ids(reqs))
    ensures SelectionShown(SelectAllOf(sel, reqs), reqs)
  {
  }

  /** Replacing a record by one with the same id keeps the displayed ids. */
  lemma ReplaceKeepsIds(reqs: seq<Request>, id: Id, updated: Request)
    requires updated.id == id
    ensures Ids(ReplaceById(reqs, id, updated)) == Ids(reqs)
  {
  }

  /** A local batch patch keeps the displayed ids. */
  lemma PatchKeepsIds(reqs: seq<Request>, ids: seq<Id>, status: Status, now: Time)
    ensures Ids(PatchLocal(reqs, ids, status, now)) == Ids(reqs)
  {
  }

  /** The local batch patch agrees with the store: a displayed record that
      was current before the batch status change equals the stored record
      after it, provided the page's clock reads the server's time. */
  lemma PatchMatchesStore(reqs: seq<Request>, records: map<Id, Request>, ids: seq<Id>, status: Status, now: Time)
    requires forall i :: 0 <= i < |reqs| ==> reqs[i].id in records && records[reqs[i].id] == reqs[i]
    ensures forall i :: 0 <= i < |reqs| ==>
              PatchLocal(reqs, ids, status, now)[i] == UpdateWhere(records, ids, status, now)[reqs[i].id]
  {
  }

  /** The local delete agrees with the store: removing the listed records
      from the stored documents in natural order leaves the documents that
      the batch delete keeps, in the order the store keeps them. */
  lemma {:induction false} RemoveMatchesStore(order: seq<Id>, records: map<Id, Request>, ids: seq<Id>)
    requires forall id :: id in order ==> id in records && records[id].id == id
    ensures RemoveLocal(Documents(order, records), ids)
            == Documents(KeepOthers(order, ids), DeleteWhere(records, ids))
  {
    if order != [] {
      var deleted := DeleteWhere(records, ids);
      DocumentsCons(order, records);
      RemoveMatchesStore(order[1..], records, ids);
      if order[0] !in ids {
        DocumentsCons([order[0]] + KeepOthers(order[1..], ids), deleted);
        assert ([order[0]] + KeepOthers(order[1..], ids))[1..] == KeepOthers(order[1..], ids);
      }
    }
  }

  lemma DocumentsCons(order: seq<Id>, records: map<Id, Request>)
    requires order != [] && forall id :: id in order ==> id in records
    ensures Documents(order, records) == [records[order[0]]] + Documents(order[1..], records)
  {
  }

  // ---------------------------------------------------------- the view

  class AdminView {
    var requests: seq<Request>
    var selectedIds: seq<Id>
    var currentPage: int
    var currentStatus: StatusFilter
    var error: Option<string>
    var pagination: Pagination

    /** The state before the first fetch answers. */
    constructor ()
      ensures requests == [] && selectedIds == []
      ensures currentPage == 1 && currentStatus == All && error == None
      ensures pagination == Pagination(1, InitialLimit, 0, 1)
    {
      requests := [];
      selectedIds := [];
      currentPage := 1;
      currentStatus := All;
      error := None;
      pagination := Pagination(1, InitialLimit, 0, 1);
    }

    /** `fetchRequests`: clear the error, then show the fetched page and its
        counts, or keep the old page and show why the fetch failed. */
    method ApplyFetch(outcome: Outcome<ListBody>)
      modifies this
      ensures outcome.Succeeded? ==>
                && requests == outcome.value.data && error == None
                && pagination == Pagination(outcome.value.page, outcome.value.limit,
                                            outcome.value.total, outcome.value.totalPages)
      ensures outcome.Threw? ==>
                && requests == old(requests) && pagination == old(pagination)
                && error == Some(ErrorText(outcome.message, FetchFailed))
      ensures selectedIds == old(selectedIds)
      ensures currentPage == old(currentPage) && currentStatus == old(currentStatus)
    {
      error := None;
      match outcome
      case Succeeded(body) =>
        requests := body.data;
        pagination := Pagination(body.page, body.limit, body.total, body.totalPages);
      case Threw(message) =>
        error := Some(ErrorText(message, FetchFailed));
    }

    /** `handleStatusChange` once the single status change has answered: the
        server's record replaces the row with that id; a failure only sets
        the error. A success leaves an earlier error as it was. */
    method StatusChange(id: Id, outcome: Outcome<Request>)
      modifies this
      ensures outcome.Succeeded? ==> requests == ReplaceById(old(requests), id, outcome.value) && error == old(error)
      ensures outcome.Threw? ==>
                requests == old(requests) && error == Some(ErrorText(outcome.message, StatusChangeFailed))
      ensures selectedIds == old(selectedIds) && pagination == old(pagination)
      ensures currentPage == old(currentPage) && currentStatus == old(currentStatus)
    {
      match outcome
      case Succeeded(updated) =>
        requests := ReplaceById(requests, id, updated);
      case Threw(message) =>
        error := Some(ErrorText(message, StatusChangeFailed));
    }

    /** `handleBatchUpdate` once the batch status change has answered, with
        `now` the page's clock: patch the listed rows, clear the selection
        and the error; a failure only sets the error. */
    method BatchUpdate(ids: seq<Id>, status: Status, outcome: Outcome<string>, now: Time)
      modifies this
      ensures outcome.Succeeded? ==>
                && requests == PatchLocal(old(requests), ids, status, now)
                && selectedIds == [] && error == None
      ensures outcome.Threw? ==>
                && requests == old(requests) && selectedIds == old(selectedIds)
                && error == Some(ErrorText(outcome.message, BatchUpdateFailed))
      ensures pagination == old(pagination)
      ensures currentPage == old(currentPage) && currentStatus == old(currentStatus)
    {
      match outcome
      case Succeeded(_) =>
        requests := PatchLocal(requests, ids, status, now);
        selectedIds := [];
        error := None;
      case Threw(message) =>
        error := Some(ErrorText(message, BatchUpdateFailed));
    }

    /** `handleBatchDelete` once the batch delete has answered: drop the
        listed rows, clear the selection and the error; a failure only sets
        the error. */
    method BatchDelete(ids: seq<Id>, outcome: Outcome<string>)
      modifies this
      ensures outcome.Succeeded? ==>
                && requests == RemoveLocal(old(requests), ids)
                && selectedIds == [] && error == None
      ensures outcome.Threw? ==>
                && requests == old(requests) && selectedIds == old(selectedIds)
                && error == Some(ErrorText(outcome.message, BatchDeleteFailed))
      ensures pagination == old(pagination)
      ensures currentPage == old(currentPage) && currentStatus == old(currentStatus)
    {
      match outcome
      case Succeeded(_) =>
        requests := RemoveLocal(requests, ids);
        selectedIds := [];
        error := None;
      case Threw(message) =>
        error := Some(ErrorText(message, BatchDeleteFailed));
    }

    /** `handleSelectRequest`: toggle one row. Selecting a displayed row
        keeps the selection within the displayed rows. */
    method SelectRequest(id: Id)
      modifies this
      ensures selectedIds == Toggle(old(selectedIds), id)
      ensures old(SelectionShown(selectedIds, requests)) && id in Ids(requests) ==> SelectionShown(selectedIds, requests)
      ensures requests == old(requests) && error == old(error) && pagination == old(pagination)
      ensures currentPage == old(currentPage) && currentStatus == old(currentStatus)
    {
      ToggleFlips(selectedIds, id);
      selectedIds := Toggle(selectedIds, id);
    }

    /** `handleSelectAll`. */
    method SelectAll()
      modifies this
      ensures selectedIds == SelectAllOf(old(selectedIds), requests)
      ensures requests == old(requests) && error == old(error) && pagination == old(pagination)
      ensures currentPage == old(currentPage) && currentStatus == old(currentStatus)
    {
      selectedIds := SelectAllOf(selectedIds, requests);
    }

    /** `handlePageChange`: go to `page` and clear the selection; the tab stays. */
    method PageChange(page: int)
      modifies this
      ensures currentPage == page && selectedIds == []
      ensures currentStatus == old(currentStatus)
      ensures requests == old(requests) && error == old(error) && pagination == old(pagination)
    {
      currentPage := page;
      selectedIds := [];
    }

    /** `handleStatusTabChange`: switch tab, back to page 1, clear the selection. */
    method StatusTabChange(status: StatusFilter)
      modifies this
      ensures currentStatus == status && currentPage == 1 && selectedIds == []
      ensures requests == old(requests) && error == old(error) && pagination == old(pagination)
    {
      currentStatus := status;
      currentPage := 1;
      selectedIds := [];
    }
  }
}
