/** Cancellation requests: the request shape with cancellation items, whose edit
    copies the quantity and order item of a matched item, and whose withdrawal is
    refused once the request has been decided. */
module Cancellations {
  import opened Common
  import ItemSync
  import Requests

  datatype CancellationItem = CancellationItem(
    id: Id,
    cancellationId: Id,
    orderItemId: Id,
    cancelledQuantity: int,
    refundableAmount: Money)

  type Cancellation = Requests.Request<CancellationItem>
  type CancellationEdit = Requests.Edit<CancellationItem>
  type Store = Requests.Store<CancellationItem>

  function ItemKey(item: CancellationItem): Id { item.id }

  /** A matched item takes the incoming quantity and order item, nothing else. */
  function Patch(existing: CancellationItem, incoming: CancellationItem): (r: CancellationItem)
    ensures r.cancelledQuantity == incoming.cancelledQuantity && r.orderItemId == incoming.orderItemId
    ensures r.id == existing.id && r.cancellationId == existing.cancellationId
    ensures r.refundableAmount == existing.refundableAmount
  {
    existing.(cancelledQuantity := incoming.cancelledQuantity, orderItemId := incoming.orderItemId)
  }

  /** A new item is attached to the request being edited. */
  function Adopt(incoming: CancellationItem, cancellationId: Id): (r: CancellationItem)
    ensures r.cancellationId == cancellationId
    ensures r.id == incoming.id && r.orderItemId == incoming.orderItemId
    ensures r.cancelledQuantity == incoming.cancelledQuantity && r.refundableAmount == incoming.refundableAmount
  {
    incoming.(cancellationId := cancellationId)
  }

  function Owner(item: CancellationItem): Id { item.cancellationId }

  const Rules: Requests.ItemRules<CancellationItem> := Requests.ItemRules(ItemKey, Patch, Adopt, Owner)

  lemma RulesLawful()
    ensures Requests.Lawful(Rules)
  {
  }

  /** `AddAsync`: a new cancellation is stored as Pending, not deleted and
      requested at `now`, with each of its items attached to it. */
  function Add(store: Store, c: Cancellation, now: Instant): (r: Outcome<Store, Cancellation>)
    ensures r.Ok? <==> c.id !in store
    ensures r.Ok? ==>
      && c.id in r.store && r.store[c.id] == r.value
      && r.value.status == Requests.Pending && !r.value.isDeleted && r.value.requestedAt == now
      && |r.value.items| == |c.items|
      && forall i :: 0 <= i < |c.items| ==> r.value.items[i] == c.items[i].(cancellationId := c.id)
  {
    Requests.Add(store, c, now, Rules)
  }

  /** `UpdateAsync`: null for a cancellation that is missing, withdrawn or no
      longer Pending; otherwise the stored request carries exactly the incoming
      item ids. */
  function Update(store: Store, edit: CancellationEdit): (r: Outcome<Store, Option<Cancellation>>)
    ensures r.Ok?
    ensures r.value.Some? <==> Requests.Editable(store, edit.id)
    ensures r.value.None? ==> r.store == store
    ensures r.value.Some? ==>
      && edit.id in r.store && r.store[edit.id] == r.value.value
      && ItemSync.Keys(r.value.value.items, ItemKey) ==
           (if edit.items.Some? then ItemSync.Keys(edit.items.value, ItemKey) else {})
  {
    RulesLawful();
    Requests.Update(store, edit, Rules)
  }

  /** `ApproveAsync`: only a Pending cancellation can be approved; it then
      records the approver and the refundable amount and keeps its items. */
  function Approve(store: Store, id: Id, approvedBy: string, refundableAmount: Money,
                   remarks: Option<string>, now: Instant): (r: Outcome<Store, ()>)
    ensures r.Ok? <==> id in store && store[id].status == Requests.Pending
    ensures r.Ok? ==>
      && id in r.store && r.store[id].status == Requests.Approved
      && r.store[id].processedBy == Some(approvedBy)
      && r.store[id].totalRefundableAmount == refundableAmount
      && r.store[id].items == store[id].items
  {
    Requests.Approve(store, id, approvedBy, refundableAmount, remarks, now)
  }

  /** `RejectAsync`: only a Pending cancellation can be rejected; it then
      records the rejecter and keeps its refundable amount and items. */
  function Reject(store: Store, id: Id, rejectedBy: string, remarks: Option<string>, now: Instant): (r: Outcome<Store, ()>)
    ensures r.Ok? <==> id in store && store[id].status == Requests.Pending
    ensures r.Ok? ==>
      && id in r.store && r.store[id].status == Requests.Rejected
      && r.store[id].processedBy == Some(rejectedBy)
      && r.store[id].totalRefundableAmount == store[id].totalRefundableAmount
      && r.store[id].items == store[id].items
  {
    Requests.Reject(store, id, rejectedBy, remarks, now)
  }

  /** With distinct incoming ids, each incoming item is stored after the edit as
      the first stored item with its id, taking the incoming quantity and order
      item and keeping its refundable amount; or, when the request had no item
      with that id, as sent and attached to the request. */
  lemma UpdateItemContents(store: Store, edit: CancellationEdit)
    requires Requests.Editable(store, edit.id)
    requires edit.items.Some? && ItemSync.UniqueKeys(edit.items.value, ItemKey)
    ensures var c := store[edit.id];
            var u := Update(store, edit).value.value;
            forall x :: x in edit.items.value ==>
              ItemSync.Lookup(u.items, x.id, ItemKey) == Some(
                match ItemSync.Lookup(c.items, x.id, ItemKey)
                case Some(e) => e.(cancelledQuantity := x.cancelledQuantity, orderItemId := x.orderItemId)
                case None => x.(cancellationId := c.id))
  {
    RulesLawful();
    var c := store[edit.id];
    ItemSync.SyncContents(c.items, edit.items.value, c.id, ItemKey, Patch, Adopt);
  }

  /** Editing a request keeps the store well filed. */
  lemma UpdateKeepsFiling(store: Store, edit: CancellationEdit)
    requires Requests.WellFiled(store, Rules)
    ensures Requests.WellFiled(Update(store, edit).store, Rules)
  {
    RulesLawful();
    Requests.UpdateKeepsFiling(store, edit, Rules);
  }

  /** `DeleteAsync`: nothing happens for an unknown id; a request that is no
      longer Pending throws; a Pending request is withdrawn (soft-deleted at
      `now`, even when it already was) and otherwise left as it was. */
  function Delete(store: Store, id: Id, now: Instant): (r: Outcome<Store, ()>)
    ensures id !in store ==> r == Ok(store, ())
    ensures r.Threw? <==> id in store && store[id].status != Requests.Pending
    ensures r.Threw? ==> r.failure == InvalidOperation
    ensures id in store && r.Ok? ==>
      && r.store.Keys == store.Keys
      && (forall k :: k in store && k != id ==> r.store[k] == store[k])
      && r.store[id].isDeleted && r.store[id].deletedAt == Some(now)
      && r.store[id] == store[id].(isDeleted := true, deletedAt := r.store[id].deletedAt)
  {
    if id !in store then Ok(store, ())
    else if store[id].status != Requests.Pending then Threw(InvalidOperation)
    else Ok(Requests.SoftDelete(store, id, now), ())
  }

  /** A decided request can no longer be edited, and no longer withdrawn. */
  lemma DecidedRequestIsFrozen(store: Store, id: Id, edit: CancellationEdit, now: Instant)
    requires id in store && store[id].status != Requests.Pending
    requires edit.id == id
    ensures Update(store, edit) == Ok(store, None)
    ensures Delete(store, id, now) == Threw(InvalidOperation)
  {
  }

  /** Approval looks the request up by id alone, so a withdrawn request that was
      still Pending when withdrawn can be approved, although an edit of it is
      refused. */
  lemma WithdrawnRequestCanBeApproved(store: Store, id: Id, now: Instant,
                                      approvedBy: string, amount: Money, edit: CancellationEdit)
    requires id in store && store[id].status == Requests.Pending
    requires edit.id == id
    ensures var s1 := Delete(store, id, now).store;
            && s1[id].isDeleted
            && Update(s1, edit) == Ok(s1, None)
            && Approve(s1, id, approvedBy, amount, None, now).Ok?
  {
  }
}
