/** The admin list of warranty registrations: the status update, the
    delete, the serial search and the per-row actions. */
module EWarrantyManagement {
  import opened Base
  import opened Text
  import Seqs

  datatype Registration = Registration(
    id: nat,
    serial: string,
    productName: string,
    userName: string,
    userEmail: string,
    userPhone: string,
    registeredAt: string,
    status: string)

  datatype Page = Page(requests: seq<Registration>, error: Option<string>, searchTerm: string)

  /** `prev.map((r: Registration) => r.id === id ? { ...r, status } : r)`. */
  function SetStatus(rs: seq<Registration>, id: nat, status: string): (r: seq<Registration>)
    ensures |r| == |rs|
    ensures forall k :: 0 <= k < |rs| ==> r[k] == (if rs[k].id == id then rs[k].(status := status) else rs[k])
  {
    seq(|rs|, k requires 0 <= k < |rs| => if rs[k].id == id then rs[k].(status := status) else rs[k])
  }

  /** `handleUpdateStatus`: the list changes only once the server has
      accepted the update. */
  function UpdateStatus(p: Page, id: nat, status: string, result: ApiResult<()>): (r: Page)
    ensures r.searchTerm == p.searchTerm
    ensures result.ApiOk? ==> r.error.None?
    ensures result.ApiFailed? ==> r.requests == p.requests
    ensures result.ApiFailed? ==> r.error == Some("Failed to update status: " + result.message)
  {
    match result
    case ApiOk(_) => p.(requests := SetStatus(p.requests, id, status), error := None)
    case ApiFailed(msg) => p.(error := Some("Failed to update status: " + msg))
  }

  /** A status update keeps every field but the status, changes the status
      of exactly the records with the id, and keeps length and order. */
  lemma UpdateStatusTouchesOnlyId(p: Page, id: nat, status: string)
    ensures var rs := UpdateStatus(p, id, status, ApiOk(())).requests;
      |rs| == |p.requests| &&
      (forall k :: 0 <= k < |rs| ==> rs[k].(status := p.requests[k].status) == p.requests[k]) &&
      (forall k :: 0 <= k < |rs| ==> (rs[k].status == p.requests[k].status || p.requests[k].id == id)) &&
      (forall k :: 0 <= k < |rs| && p.requests[k].id == id ==> rs[k].status == status)
  {
  }

  /** Setting the same status twice is the same as setting it once. */
  lemma SetStatusIdempotent(rs: seq<Registration>, id: nat, status: string)
    ensures SetStatus(SetStatus(rs, id, status), id, status) == SetStatus(rs, id, status)
  {
  }

  /** `prev.filter((r: Registration) => r.id !== id)`. */
  function WithoutId(rs: seq<Registration>, id: nat): seq<Registration>
  {
    Seqs.Filter(rs, (r: Registration) => r.id != id)
  }

  /** `handleDelete`: nothing happens unless the admin confirms; the list
      changes only once the server has deleted the record. */
  function Delete(p: Page, id: nat, confirmed: bool, result: ApiResult<()>): (r: Page)
    ensures !confirmed ==> r == p
    ensures confirmed && result.ApiFailed? ==> r.requests == p.requests
    ensures confirmed && result.ApiFailed? ==> r.error == Some("Failed to delete request: " + result.message)
    ensures confirmed && result.ApiFailed? ==> r.searchTerm == p.searchTerm
    ensures confirmed && result.ApiOk? ==> r.error.None? && r.searchTerm == p.searchTerm
  {
    if !confirmed then p
    else match result
      case ApiOk(_) => p.(requests := WithoutId(p.requests, id), error := None)
      case ApiFailed(msg) => p.(error := Some("Failed to delete request: " + msg))
  }

  /** A confirmed delete removes exactly the records with the id and keeps
      the others in their order. */
  lemma DeleteRemovesExactlyId(p: Page, id: nat)
    ensures var rs := Delete(p, id, true, ApiOk(())).requests;
      Seqs.IsSubsequence(rs, p.requests) &&
      (forall r :: r in rs <==> r in p.requests && r.id != id)
  {
    Seqs.FilterIsSubsequence(p.requests, (r: Registration) => r.id != id);
  }

  /** Deleting a record makes any earlier status change to it irrelevant. */
  lemma {:induction false} DeleteAfterSetStatus(rs: seq<Registration>, id: nat, status: string)
    ensures WithoutId(SetStatus(rs, id, status), id) == WithoutId(rs, id)
    decreases |rs|
  {
    if |rs| > 0 {
      assert SetStatus(rs, id, status)[1..] == SetStatus(rs[1..], id, status);
      DeleteAfterSetStatus(rs[1..], id, status);
    }
  }

  /** `r.serial.toUpperCase().includes(key)`, `key` being the upper-cased term. */
  predicate MatchesKey(r: Registration, key: string)
  {
    Contains(Upper(r.serial), key)
  }

  /** `r.serial.toUpperCase().includes(searchTerm.toUpperCase())`. */
  predicate Matches(r: Registration, term: string)
  {
    MatchesKey(r, Upper(term))
  }

  function VisibleFor(rs: seq<Registration>, key: string): seq<Registration>
  {
    Seqs.Filter(rs, (r: Registration) => MatchesKey(r, key))
  }

  /** `filteredRequests`. */
  function Visible(p: Page): seq<Registration>
  {
    VisibleFor(p.requests, Upper(p.searchTerm))
  }

  /** The search keeps exactly the matching records, in their order. */
  lemma VisibleIsMatchingSubsequence(p: Page)
    ensures Seqs.IsSubsequence(Visible(p), p.requests)
    ensures forall r :: r in Visible(p) <==> r in p.requests && Matches(r, p.searchTerm)
  {
    Seqs.FilterIsSubsequence(p.requests, (r: Registration) => MatchesKey(r, Upper(p.searchTerm)));
  }

  /** An empty search shows every record. */
  lemma EmptySearchShowsAll(p: Page)
    requires p.searchTerm == ""
    ensures Visible(p) == p.requests
  {
    assert Upper("") == "";
    forall k | 0 <= k < |p.requests| ensures MatchesKey(p.requests[k], "") {
      ContainsEmpty(Upper(p.requests[k].serial));
    }
    Seqs.FilterKeepsAll(p.requests, (r: Registration) => MatchesKey(r, ""));
  }

  /** The case of the search term does not matter. */
  lemma SearchIgnoresTermCase(p: Page)
    ensures Visible(p.(searchTerm := Lower(p.searchTerm))) == Visible(p)
    ensures Visible(p.(searchTerm := Upper(p.searchTerm))) == Visible(p)
  {
    UpperOfLower(p.searchTerm);
    UpperIdempotent(p.searchTerm);
  }

  datatype RowAction = Accept | Reject | Remove

  /** The buttons a row offers: Accept and Reject only while pending. */
  function RowActions(r: Registration): (acts: seq<RowAction>)
    ensures Remove in acts
    ensures Accept in acts <==> r.status == "pending"
    ensures Reject in acts <==> r.status == "pending"
  {
    if r.status == "pending" then [Accept, Reject, Remove] else [Remove]
  }

  /** The status an Accept or Reject button sends. */
  function ActionStatus(a: RowAction): string
    requires a != Remove
  {
    if a == Accept then "accepted" else "rejected"
  }

  /** Pressing a row's Accept or Reject button; absent buttons do nothing. */
  function PressStatus(p: Page, row: Registration, a: RowAction, result: ApiResult<()>): (r: Page)
    requires a != Remove
    ensures row.status != "pending" ==> r == p
  {
    if a in RowActions(row) then UpdateStatus(p, row.id, ActionStatus(a), result) else p
  }

  /** Only a pending record can be accepted or rejected, and then it gets
      the new status. */
  lemma StatusChangesOnlyFromPending(p: Page, k: nat, a: RowAction)
    requires k < |p.requests| && a != Remove
    requires p.requests[k].status == "pending"
    ensures PressStatus(p, p.requests[k], a, ApiOk(())).requests[k].status == ActionStatus(a)
  {
  }
}
