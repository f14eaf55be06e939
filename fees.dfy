/** The fees page (src/routes/Fees/FeesInfo.jsx): the query string of the
    tenant list request and the reconciliation of the tenant list after a
    payment transaction is deleted. Its `retryRequest` is module `Retry`. */
module Fees {
  import opened Wrappers
  import opened JsValues
  import opened Seqs

  // ---------------------------------------------------------------------
  // Query parameters of fetchTenantsData

  /** The names the tenant query can carry. */
  datatype QueryName = Page | Limit | Search | Room | Month | Year {
    /** The name as it appears in the query string. */
    function Text(): string {
      match this
      case Page => "page"
      case Limit => "limit"
      case Search => "search"
      case Room => "room"
      case Month => "month"
      case Year => "year"
    }
  }

  /** One `name=value` pair of a `URLSearchParams`, in insertion order. */
  type Param = (QueryName, string)

  /** The room filter's initial choice, "Room 201". It is also one of the
      rooms in the select, next to "Room 101", "Room 104" and "Select Room"
      (the empty value). Only this choice sends no `room` pair, so picking
      Room 201 lists the tenants of every room, while "Select Room" sends
      an empty `room`. */
  const InitialRoom: string := "Room 201"

  /** How many pairs `params` holds under `name`. */
  function Count(params: seq<Param>, name: QueryName): nat {
    if params == [] then 0
    else Count(params[..|params| - 1], name) + (if params[|params| - 1].0 == name then 1 else 0)
  }

  /** `params.get(name)`: the first value appended under `name`. */
  function Get(params: seq<Param>, name: QueryName): Option<string> {
    if params == [] then None
    else
      var earlier := Get(params[..|params| - 1], name);
      if earlier.Some? then earlier
      else if params[|params| - 1].0 == name then Some(params[|params| - 1].1)
      else None
  }

  /** What one append does to the count and the first value of `name`. */
  lemma AppendOne(params: seq<Param>, p: Param, name: QueryName)
    ensures Count(params + [p], name) == Count(params, name) + (if p.0 == name then 1 else 0)
    ensures Get(params + [p], name) == if Get(params, name).Some? || p.0 != name then Get(params, name) else Some(p.1)
  {
    assert (params + [p])[..|params|] == params;
  }

  /** The query of the tenant list request, built by appending one pair at
      a time. It carries `page` and `limit` once each; `search` is sent
      trimmed and only when something is left; `room` without its "Room "
      prefix unless it is `InitialRoom`; `month` and `year`
      together, and only when both are non-empty. No name is sent twice. */
  method TenantQuery(pageNumber: int, tenantPerPage: int, search: string, room: string, month: string, year: string)
    returns (params: seq<Param>)
    ensures Count(params, Page) == 1 && Get(params, Page) == Some(IntToString(pageNumber))
    ensures Count(params, Limit) == 1 && Get(params, Limit) == Some(IntToString(tenantPerPage))
    ensures Count(params, Search) == (if Trim(search) == "" then 0 else 1)
    ensures Trim(search) != "" ==> Get(params, Search) == Some(Trim(search))
    ensures Count(params, Room) == (if room == InitialRoom then 0 else 1)
    ensures room != InitialRoom ==> Get(params, Room) == Some(ReplaceFirst(room, "Room ", ""))
    ensures Count(params, Month) == Count(params, Year) == (if month != "" && year != "" then 1 else 0)
    ensures month != "" && year != "" ==> Get(params, Month) == Some(month) && Get(params, Year) == Some(year)
  {
    params := [];
    params := Append(params, (Page, IntToString(pageNumber)));
    params := Append(params, (Limit, IntToString(tenantPerPage)));
    params := AddSearch(params, search);
    params := AddRoom(params, room);
    params := AddPeriod(params, month, year);
  }

  /** The `search` step: the trimmed text, when something is left. */
  method AddSearch(params: seq<Param>, search: string) returns (r: seq<Param>)
    ensures forall name :: Count(r, name) == Count(params, name) + (if name == Search && Trim(search) != "" then 1 else 0)
    ensures forall name :: Get(r, name) == if name == Search && Trim(search) != "" && Get(params, name).None?
      then Some(Trim(search)) else Get(params, name)
  {
    r := params;
    var trimmed := Trim(search);
    if trimmed != "" {
      r := Append(r, (Search, trimmed));
    }
  }

  /** The `room` step: the room without "Room ", unless it is the
      `InitialRoom` choice. */
  method AddRoom(params: seq<Param>, room: string) returns (r: seq<Param>)
    ensures forall name :: Count(r, name) == Count(params, name) + (if name == Room && room != InitialRoom then 1 else 0)
    ensures forall name :: Get(r, name) == if name == Room && room != InitialRoom && Get(params, name).None?
      then Some(ReplaceFirst(room, "Room ", "")) else Get(params, name)
  {
    r := params;
    if room != InitialRoom {
      r := Append(r, (Room, ReplaceFirst(room, "Room ", "")));
    }
  }

  /** The `month`/`year` step: both, and only when both are non-empty. */
  method AddPeriod(params: seq<Param>, month: string, year: string) returns (r: seq<Param>)
    ensures forall name :: (Count(r, name)
      == Count(params, name) + (if (name == Month || name == Year) && month != "" && year != "" then 1 else 0))
    ensures forall name :: (Get(r, name)
      == if month != "" && year != "" && Get(params, name).None? && name == Month then Some(month)
         else if month != "" && year != "" && Get(params, name).None? && name == Year then Some(year)
         else Get(params, name))
  {
    r := params;
    if month != "" && year != "" {
      r := Append(r, (Month, month));
      r := Append(r, (Year, year));
    }
  }

  /** `params.append(name, value)`: one more pair under `name`, whose first
      value it becomes if it had none; no other name changes. */
  method Append(params: seq<Param>, p: Param) returns (r: seq<Param>)
    ensures r == params + [p]
    ensures forall name :: Count(r, name) == Count(params, name) + (if p.0 == name then 1 else 0)
    ensures forall name :: Get(r, name) == if Get(params, name).Some? || p.0 != name then Get(params, name) else Some(p.1)
  {
    r := params + [p];
    forall name {
      AppendOne(params, p, name);
    }
  }

  /** A room choice "Room <n>" is sent as just `<n>`. */
  lemma RoomSentWithoutPrefix(n: string)
    ensures ReplaceFirst("Room " + n, "Room ", "") == n
  {
    ReplaceLeading("Room ", n, "");
  }

  // ---------------------------------------------------------------------
  // onDeleteTransaction

  /** A payment transaction; `createdAt` is its creation time in
      milliseconds, and `dueDate` is absent when null. */
  datatype Transaction = Transaction(
    id: string, tenantId: string, createdAt: int, rentStatus: string, dueDate: Option<string>)

  /** A tenant row of the fees table; `name` and `room` stand for the fields
      the reconciliation copies unchanged. */
  datatype Tenant = Tenant(id: string, name: string, room: string, status: string, dueDate: Option<string>)

  /** The part of the page state that a delete touches. */
  datatype FeesState = FeesState(
    transactions: seq<Transaction>, tenants: seq<Tenant>, selected: Option<Tenant>)

  function CreatedAt(t: Transaction): int {
    t.createdAt
  }

  /** The filter of the tenant's own transactions. */
  function OfTenant(tenantId: string): Transaction -> bool {
    (t: Transaction) => t.tenantId == tenantId
  }

  /** The filter that drops the deleted transaction. */
  function Kept(id: string): Transaction -> bool {
    (t: Transaction) => t.id != id
  }

  /** The transactions of `tenantId`, newest first. */
  function NewestFirst(txs: seq<Transaction>, tenantId: string): (r: seq<Transaction>)
    ensures multiset(r) == multiset(Filter(txs, OfTenant(tenantId)))
    ensures SortedDesc(r, CreatedAt)
  {
    SortDesc(Filter(txs, OfTenant(tenantId)), CreatedAt)
  }

  /** `tenantRemainingTransactions[0]`: a transaction of `tenantId` with the
      greatest creation time, absent when the tenant has none. */
  function Newest(txs: seq<Transaction>, tenantId: string): (r: Option<Transaction>)
    ensures r.None? <==> forall t :: t in txs ==> t.tenantId != tenantId
    ensures r.Some? ==> r.value in txs && r.value.tenantId == tenantId
    ensures r.Some? ==> forall t :: t in txs && t.tenantId == tenantId ==> t.createdAt <= r.value.createdAt
  {
    var sorted := NewestFirst(txs, tenantId);
    HeadIsNewest(txs, tenantId);
    if sorted == [] then None else Some(sorted[0])
  }

  /** The head of the newest-first list is a transaction of the tenant
      that no other one of its transactions postdates. */
  lemma HeadIsNewest(txs: seq<Transaction>, tenantId: string)
    ensures var sorted := NewestFirst(txs, tenantId);
      && (sorted == [] <==> forall t :: t in txs ==> t.tenantId != tenantId)
      && (sorted != [] ==> sorted[0] in txs && sorted[0].tenantId == tenantId)
      && (sorted != [] ==> forall t :: t in txs && t.tenantId == tenantId ==> t.createdAt <= sorted[0].createdAt)
  {
    var sorted := NewestFirst(txs, tenantId);
    MembersOfTenant(txs, tenantId, sorted);
    if sorted != [] {
      assert sorted[0] in sorted;
      forall t | t in txs && t.tenantId == tenantId ensures t.createdAt <= sorted[0].createdAt {
        assert t in sorted;
        var j :| 0 <= j < |sorted| && sorted[j] == t;
        if j > 0 {
          assert CreatedAt(sorted[0]) >= CreatedAt(sorted[j]);
        }
      }
    }
  }

  /** The members of the newest-first list are the tenant's transactions. */
  lemma MembersOfTenant(txs: seq<Transaction>, tenantId: string, sorted: seq<Transaction>)
    requires multiset(sorted) == multiset(Filter(txs, OfTenant(tenantId)))
    ensures forall t :: t in sorted <==> t in txs && t.tenantId == tenantId
  {
    FilterCount(txs, OfTenant(tenantId));
    forall t
      ensures t in sorted <==> t in txs && t.tenantId == tenantId
    {
      calc <==> {
        t in sorted;
        multiset(sorted)[t] > 0;
        multiset(Filter(txs, OfTenant(tenantId)))[t] > 0;
        t.tenantId == tenantId && multiset(txs)[t] > 0;
      }
    }
  }

  /** The tenant's status and due date taken from its newest remaining
      transaction: an empty `rentStatus` or no transaction gives "Due", an
      empty or missing due date gives null. */
  function Refresh(tenant: Tenant, latest: Option<Transaction>): Tenant {
    var status := if latest.Some? && latest.value.rentStatus != "" then latest.value.rentStatus else "Due";
    var due := if latest.Some? && latest.value.dueDate.Some? && latest.value.dueDate.value != ""
      then latest.value.dueDate else None;
    tenant.(status := status, dueDate := due)
  }

  /** `prevTenants.map(...)`: only rows whose id is `tenantId` are refreshed. */
  function RefreshTenants(tenants: seq<Tenant>, tenantId: string, latest: Option<Transaction>): (r: seq<Tenant>)
    ensures |r| == |tenants|
    ensures forall i :: 0 <= i < |r| ==>
      r[i] == if tenants[i].id == tenantId then Refresh(tenants[i], latest) else tenants[i]
  {
    if tenants == [] then []
    else
      var head := if tenants[0].id == tenantId then Refresh(tenants[0], latest) else tenants[0];
      [head] + RefreshTenants(tenants[1..], tenantId, latest)
  }

  /** `onDeleteTransaction(transaction)` after `deleteTransaction` reported
      `deleted`. */
  function OnDeleteTransaction(state: FeesState, transaction: Transaction, deleted: bool): (r: FeesState)
    ensures !deleted ==> r == state
    ensures deleted ==> r.transactions == Filter(state.transactions, Kept(transaction.id))
    ensures deleted ==> r.tenants == RefreshTenants(state.tenants, transaction.tenantId,
      Newest(r.transactions, transaction.tenantId))
    ensures deleted ==>
      r.selected == (if state.selected.Some? && state.selected.value.id == transaction.tenantId then None else state.selected)
  {
    if !deleted then state
    else
      var remaining := Filter(state.transactions, Kept(transaction.id));
      var latest := Newest(remaining, transaction.tenantId);
      var selected := if state.selected.Some? && state.selected.value.id == transaction.tenantId
        then None else state.selected;
      FeesState(remaining, RefreshTenants(state.tenants, transaction.tenantId, latest), selected)
  }

  /** After a successful delete, exactly the transactions with the deleted
      id are gone and every other one keeps its multiplicity. */
  lemma {:induction false} DeleteRemovesExactly(state: FeesState, transaction: Transaction)
    ensures var r := OnDeleteTransaction(state, transaction, true);
      && (forall t :: t in r.transactions ==> t.id != transaction.id)
      && (forall t: Transaction :: t.id != transaction.id ==> multiset(r.transactions)[t] == multiset(state.transactions)[t])
  {
    var r := OnDeleteTransaction(state, transaction, true);
    FilterCount(state.transactions, Kept(transaction.id));
    forall t | t in r.transactions ensures t.id != transaction.id {
      var j :| 0 <= j < |r.transactions| && r.transactions[j] == t;
    }
  }

  /** A delete keeps the remaining transactions in the order they had:
      two survivors appear in the new list in the same order as before. */
  lemma {:induction false} DeleteKeepsOrder(state: FeesState, transaction: Transaction, i: nat, j: nat)
    requires i < j < |state.transactions|
    requires state.transactions[i].id != transaction.id && state.transactions[j].id != transaction.id
    ensures var r := OnDeleteTransaction(state, transaction, true).transactions;
      exists k, l :: 0 <= k < l < |r| && r[k] == state.transactions[i] && r[l] == state.transactions[j]
  {
    FilterKeepsOrder(state.transactions, Kept(transaction.id), i, j);
  }

  /** Deleting an id no transaction carries leaves the list as it was. */
  lemma DeleteOfAbsentIdKeepsAll(state: FeesState, transaction: Transaction)
    requires forall t :: t in state.transactions ==> t.id != transaction.id
    ensures OnDeleteTransaction(state, transaction, true).transactions == state.transactions
  {
    FilterAll(state.transactions, Kept(transaction.id));
  }

  /** After a successful delete the tenant list keeps its length, rows of
      other tenants are unchanged, and the deleted transaction's tenant
      changes only in `status` and `dueDate`. */
  lemma DeleteTouchesOneTenant(state: FeesState, transaction: Transaction)
    ensures var r := OnDeleteTransaction(state, transaction, true);
      && |r.tenants| == |state.tenants|
      && (forall i :: 0 <= i < |r.tenants| && state.tenants[i].id != transaction.tenantId ==>
            r.tenants[i] == state.tenants[i])
      && (forall i :: 0 <= i < |r.tenants| ==>
            r.tenants[i].id == state.tenants[i].id && r.tenants[i].name == state.tenants[i].name
            && r.tenants[i].room == state.tenants[i].room)
  {
    var remaining := Filter(state.transactions, Kept(transaction.id));
    var refreshed := RefreshTenants(state.tenants, transaction.tenantId, Newest(remaining, transaction.tenantId));
    assert OnDeleteTransaction(state, transaction, true).tenants == refreshed;
  }

  /** The refreshed tenant takes the status of the newest transaction that
      remains for it, or "Due" when none remains. */
  lemma {:induction false} RefreshedStatus(state: FeesState, transaction: Transaction, i: nat)
    requires i < |state.tenants| && state.tenants[i].id == transaction.tenantId
    ensures var r := OnDeleteTransaction(state, transaction, true);
      var latest := Newest(r.transactions, transaction.tenantId);
      && (latest.None? ==> r.tenants[i].status == "Due" && r.tenants[i].dueDate.None?)
      && (latest.Some? ==>
            && latest.value.id != transaction.id
            && (forall t :: t in state.transactions && t.tenantId == transaction.tenantId && t.id != transaction.id
                  ==> t.createdAt <= latest.value.createdAt)
            && r.tenants[i].status == (if latest.value.rentStatus == "" then "Due" else latest.value.rentStatus)
            && r.tenants[i].dueDate
              == (if latest.value.dueDate.Some? && latest.value.dueDate.value != "" then latest.value.dueDate else None))
  {
    var r := OnDeleteTransaction(state, transaction, true);
    var latest := Newest(r.transactions, transaction.tenantId);
    FilterCount(state.transactions, Kept(transaction.id));
    if latest.Some? {
      assert latest.value in r.transactions;
      forall t | t in state.transactions && t.tenantId == transaction.tenantId && t.id != transaction.id
        ensures t.createdAt <= latest.value.createdAt
      {
        assert multiset(r.transactions)[t] == multiset(state.transactions)[t];
        assert t in r.transactions;
      }
    }
  }
}
