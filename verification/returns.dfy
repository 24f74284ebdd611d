/** Return requests: the request shape with returned items, whose edit copies
    the quantity, order item and remarks of a matched item, whose deletion is
    allowed in any status, and which are listed by status. */
module Returns {
  import opened Common
  import ItemSync
  import Requests
  import Paging

  /** A returned item; `remarks` holds the per-item note an edit copies. */
  datatype ReturnItem = ReturnItem(
    id: Id,
    returnId: Id,
    orderItemId: Id,
    returnedQuantity: int,
    refundableAmount: Money,
    remarks: Option<string>)

  type Return = Requests.Request<ReturnItem>
  type ReturnEdit = Requests.Edit<ReturnItem>
  type Store = Requests.Store<ReturnItem>

  function ItemKey(item: ReturnItem): Id { item.id }

  /** A matched item takes the incoming quantity, order item and remarks. */
  function Patch(existing: ReturnItem, incoming: ReturnItem): (r: ReturnItem)
    ensures r.returnedQuantity == incoming.returnedQuantity && r.orderItemId == incoming.orderItemId
    ensures r.remarks == incoming.remarks
    ensures r.id == existing.id && r.returnId == existing.returnId
    ensures r.refundableAmount == existing.refundableAmount
  {
    existing.(returnedQuantity := incoming.returnedQuantity, orderItemId := incoming.orderItemId,
              remarks := incoming.remarks)
  }

  /** A new item is attached to the return being edited. */
  function Adopt(incoming: ReturnItem, returnId: Id): (r: ReturnItem)
    ensures r.returnId == returnId
    ensures r.id == incoming.id && r.orderItemId == incoming.orderItemId && r.remarks == incoming.remarks
    ensures r.returnedQuantity == incoming.returnedQuantity && r.refundableAmount == incoming.refundableAmount
  {
    incoming.(returnId := returnId)
  }

  function Owner(item: ReturnItem): Id { item.returnId }

  const Rules: Requests.ItemRules<ReturnItem> := Requests.ItemRules(ItemKey, Patch, Adopt, Owner)

  lemma RulesLawful()
    ensures Requests.Lawful(Rules)
  {
  }

  /** `AddAsync`: a new return is stored as Pending, not deleted and requested
      at `now`, with each of its items attached to it. */
  function Add(store: Store, req: Return, now: Instant): (r: Outcome<Store, Return>)
    ensures r.Ok? <==> req.id !in store
    ensures r.Ok? ==>
      && req.id in r.store && r.store[req.id] == r.value
      && r.value.status == Requests.Pending && !r.value.isDeleted && r.value.requestedAt == now
      && |r.value.items| == |req.items|
      && forall i :: 0 <= i < |req.items| ==> r.value.items[i] == req.items[i].(returnId := req.id)
  {
    Requests.Add(store, req, now, Rules)
  }

  /** `UpdateAsync`: null for a return that is missing, deleted or no longer
      Pending; otherwise the stored return carries exactly the incoming item ids. */
  function Update(store: Store, edit: ReturnEdit): (r: Outcome<Store, Option<Return>>)
    ensures r.Ok?
    ensures r.value.Some? <==> Requests.Editable(store, edit.id)
    ensures r.value.None? ==> r.store == store
    ensures r.value.Some? ==>
      && edit.id in r.store && r.store[edit.id] == r.value.value
      && ItemSync.Keys(r.value.value.items, ItemKey) ==
           (if edit.items.Some? then ItemSync.Keys(edit.items.value, ItemKey) else {})
  {
    RulesLawful();
    Requests.Update(store, edit, Rules)
  }

  /** `ApproveAsync`: only a Pending return can be approved; it then records
      the approver and the refundable amount and keeps its items. */
  function Approve(store: Store, id: Id, approvedBy: string, refundableAmount: Money,
                   remarks: Option<string>, now: Instant): (r: Outcome<Store, ()>)
    ensures r.Ok? <==> id in store && store[id].status == Requests.Pending
    ensures r.Ok? ==>
      && id in r.store && r.store[id].status == Requests.Approved
      && r.store[id].processedBy == Some(approvedBy)
      && r.store[id].totalRefundableAmount == refundableAmount
      && r.store[id].items == store[id].items
  {
    Requests.Approve(store, id, approvedBy, refundableAmount, remarks, now)
  }

  /** `RejectAsync`: only a Pending return can be rejected; it then records the
      rejecter and keeps its refundable amount and items. */
  function Reject(store: Store, id: Id, rejectedBy: string, remarks: Option<string>, now: Instant): (r: Outcome<Store, ()>)
    ensures r.Ok? <==> id in store && store[id].status == Requests.Pending
    ensures r.Ok? ==>
      && id in r.store && r.store[id].status == Requests.Rejected
      && r.store[id].processedBy == Some(rejectedBy)
      && r.store[id].totalRefundableAmount == store[id].totalRefundableAmount
      && r.store[id].items == store[id].items
  {
    Requests.Reject(store, id, rejectedBy, remarks, now)
  }

  /** With distinct incoming ids, each incoming item is stored after the edit as
      the first stored item with its id, taking the incoming quantity, order item
      and remarks and keeping its refundable amount; or, when the return had no
      item with that id, as sent and attached to the return. */
  lemma UpdateItemContents(store: Store, edit: ReturnEdit)
    requires Requests.Editable(store, edit.id)
    requires edit.items.Some? && ItemSync.UniqueKeys(edit.items.value, ItemKey)
    ensures var c := store[edit.id];
            var u := Update(store, edit).value.value;
            forall x :: x in edit.items.value ==>
              ItemSync.Lookup(u.items, x.id, ItemKey) == Some(
                match ItemSync.Lookup(c.items, x.id, ItemKey)
                case Some(e) => e.(returnedQuantity := x.returnedQuantity, orderItemId := x.orderItemId,
                                   remarks := x.remarks)
                case None => x.(returnId := c.id))
  {
    RulesLawful();
    var c := store[edit.id];
    ItemSync.SyncContents(c.items, edit.items.value, c.id, ItemKey, Patch, Adopt);
  }

  /** Editing a return keeps the store well filed. */
  lemma UpdateKeepsFiling(store: Store, edit: ReturnEdit)
    requires Requests.WellFiled(store, Rules)
    ensures Requests.WellFiled(Update(store, edit).store, Rules)
  {
    RulesLawful();
    Requests.UpdateKeepsFiling(store, edit, Rules);
  }

  /** `DeleteAsync`: nothing happens for an unknown id; any other return is
      soft-deleted at `now`, whatever its status, and otherwise left as it was. */
  function Delete(store: Store, id: Id, now: Instant): (r: Outcome<Store, ()>)
    ensures r.Ok?
    ensures id !in store ==> r.store == store
    ensures id in store ==>
      && r.store.Keys == store.Keys
      && (forall k :: k in store && k != id ==> r.store[k] == store[k])
      && r.store[id].isDeleted && r.store[id].deletedAt == Some(now)
      && r.store[id] == store[id].(isDeleted := true, deletedAt := r.store[id].deletedAt)
  {
    if id !in store then Ok(store, ()) else Ok(Requests.SoftDelete(store, id, now), ())
  }

  /** A decided return can no longer be edited, but unlike a cancellation it
      can still be soft-deleted, and its decision is kept. */
  lemma DecidedRequestIsFrozen(store: Store, id: Id, edit: ReturnEdit, now: Instant)
    requires id in store && store[id].status != Requests.Pending
    requires edit.id == id
    ensures Update(store, edit) == Ok(store, None)
    ensures Delete(store, id, now).store[id].isDeleted
    ensures Delete(store, id, now).store[id].status == store[id].status
  {
  }

  /** Approval looks the return up by id alone, so a deleted return that was
      still Pending can be approved, although an edit of it is refused. */
  lemma DeletedRequestCanBeApproved(store: Store, id: Id, now: Instant,
                                    approvedBy: string, amount: Money, edit: ReturnEdit)
    requires id in store && store[id].status == Requests.Pending
    requires edit.id == id
    ensures var s1 := Delete(store, id, now).store;
            && s1[id].isDeleted
            && Update(s1, edit) == Ok(s1, None)
            && Approve(s1, id, approvedBy, amount, None, now).Ok?
  {
  }

  function RequestedAt(r: Return): int { r.requestedAt }

  /** `GetByStatusAsync`: the returns with the given status that are not
      deleted, most recently requested first, cut to page `pageNumber` of
      `pageSize`. `rows` is the return table. */
  function GetByStatus(rows: seq<Return>, status: Requests.RequestStatus, pageNumber: int, pageSize: int): (r: seq<Return>)
    ensures exists s :: && Paging.SortingOf(s, Paging.Where(rows, (x: Return) => x.status == status && !x.isDeleted),
                                            RequestedAt)
                        && r == Paging.Page(s, pageNumber, pageSize)
    ensures forall i :: 0 <= i < |r| ==> r[i].status == status && !r[i].isDeleted && r[i] in rows
    ensures Paging.SortedDescending(r, RequestedAt)
    ensures pageSize <= 0 ==> r == []
    ensures pageSize > 0 ==> |r| <= pageSize
    ensures pageNumber == 1 && pageSize >= |rows| ==>
              forall i :: 0 <= i < |rows| && rows[i].status == status && !rows[i].isDeleted ==> rows[i] in r
  {
    Paging.Listing(rows, (x: Return) => x.status == status && !x.isDeleted, RequestedAt, pageNumber, pageSize)
  }
}
