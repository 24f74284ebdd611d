/** The refund lifecycle: the refund transition table, creation with forced
    defaults, and the update that copies payment fields only together with an
    allowed status change. */
module Refunds {
  import opened Common
  import Transitions

  datatype RefundStatus = Pending | Processing | Completed | Failed | PartiallyRefunded | Cancelled

  /** The refund transition table, entry for entry; PartiallyRefunded has no entry. */
  const Table: Transitions.Table<RefundStatus> := map[
    Pending    := [Processing, Cancelled],
    Processing := [Completed, Failed],
    Failed     := [Completed],
    Cancelled  := [],
    Completed  := []
  ]

  /** The refund graph read by the status a move enters: a refund is taken up
      (Processing) or withdrawn (Cancelled) only while Pending, fails only while
      Processing, and completes only from Processing or after a failure. Nothing
      ever enters Pending or PartiallyRefunded. */
  function Allowed(from: RefundStatus, to: RefundStatus): (ok: bool)
    ensures ok <==>
      || ((to == Processing || to == Cancelled) && from == Pending)
      || (to == Failed && from == Processing)
      || (to == Completed && (from == Processing || from == Failed))
  {
    Transitions.Allowed(Table, from, to)
  }

  /** Completed, Cancelled and PartiallyRefunded have no exits; the first two by
      their empty entries, the last because the table has no entry for it. */
  lemma NoExitFrom(s: RefundStatus)
    requires s in {Completed, Cancelled, PartiallyRefunded}
    ensures Transitions.Terminal(Table, s)
    ensures forall t :: !Allowed(s, t)
  {
  }

  datatype RefundItem = RefundItem(
    id: Id,
    refundId: Id,
    orderItemId: Id,
    refundedQuantity: int,
    refundedAmount: Money)

  datatype Refund = Refund(
    id: Id,
    orderId: Id,
    cancellationId: Option<Id>,
    returnId: Option<Id>,
    baseAmount: Money,
    taxAmount: Money,
    discountAmount: Money,
    shippingCharges: Money,
    refundAmount: Money,
    paymentMethod: string,
    refundDate: Instant,
    status: RefundStatus,
    transactionReference: Option<string>,
    isDeleted: bool,
    items: seq<RefundItem>)

  type Store = map<Id, Refund>

  /** Every refund is filed under its own id and owns the items filed with it. */
  predicate WellFiled(store: Store) {
    forall k :: k in store ==>
      store[k].id == k && forall i :: 0 <= i < |store[k].items| ==> store[k].items[i].refundId == k
  }

  function Adopt(item: RefundItem, refundId: Id): RefundItem {
    item.(refundId := refundId)
  }

  /** `AddAsync`: the refund is stored as Pending, not deleted, dated `now`,
      whatever status, flag and date it arrived with; its items are attached to it. */
  function Add(store: Store, refund: Refund, now: Instant): (r: Outcome<Store, Refund>)
    ensures refund.id in store <==> r.Threw?
    ensures r.Threw? ==> r.failure == DuplicateKey
    ensures r.Ok? ==>
      && r.store.Keys == store.Keys + {refund.id}
      && r.store[refund.id] == r.value
      && (forall k :: k in store ==> r.store[k] == store[k])
      && r.value.status == Pending && !r.value.isDeleted && r.value.refundDate == now
      && |r.value.items| == |refund.items|
      && (forall i :: 0 <= i < |refund.items| ==> r.value.items[i] == refund.items[i].(refundId := refund.id))
      && r.value == refund.(status := r.value.status, isDeleted := r.value.isDeleted,
                            refundDate := r.value.refundDate, items := r.value.items)
    ensures WellFiled(store) && r.Ok? ==> WellFiled(r.store)
  {
    if refund.id in store then Threw(DuplicateKey)
    else
      var items := seq(|refund.items|, i requires 0 <= i < |refund.items| => Adopt(refund.items[i], refund.id));
      var added := refund.(refundDate := now, isDeleted := false, status := Pending, items := items);
      Ok(store[refund.id := added], added)
  }

  /** The fields `UpdateAsync` leaves alone whatever happens. */
  predicate KeepsUncopied(before: Refund, after: Refund) {
    && after.id == before.id
    && after.orderId == before.orderId
    && after.cancellationId == before.cancellationId
    && after.returnId == before.returnId
    && after.baseAmount == before.baseAmount
    && after.isDeleted == before.isDeleted
    && after.items == before.items
  }

  /** `UpdateAsync`: null for an unknown id; the stored refund, untouched, when the
      status is the same; an exception when the table refuses the move; otherwise
      the new status together with the transaction reference, refund date,
      amounts and payment method of `incoming`. */
  function Update(store: Store, incoming: Refund): (r: Outcome<Store, Option<Refund>>)
    ensures incoming.id !in store ==> r == Ok(store, None)
    ensures incoming.id in store && store[incoming.id].status == incoming.status ==>
              r == Ok(store, Some(store[incoming.id]))
    ensures r.Threw? <==>
      && incoming.id in store
      && store[incoming.id].status != incoming.status
      && !Allowed(store[incoming.id].status, incoming.status)
    ensures r.Threw? ==> r.failure == InvalidOperation
    ensures incoming.id in store && store[incoming.id].status != incoming.status
              && Allowed(store[incoming.id].status, incoming.status) ==>
      && r.Ok? && r.value.Some?
      && var u := r.value.value;
      && r.store == store[incoming.id := u]
      && KeepsUncopied(store[incoming.id], u)
      && u.status == incoming.status
      && u.transactionReference == incoming.transactionReference
      && u.refundDate == incoming.refundDate
      && u.refundAmount == incoming.refundAmount
      && u.taxAmount == incoming.taxAmount
      && u.discountAmount == incoming.discountAmount
      && u.shippingCharges == incoming.shippingCharges
      && u.paymentMethod == incoming.paymentMethod
  {
    if incoming.id !in store then Ok(store, None)
    else
      var existing := store[incoming.id];
      if existing.status == incoming.status then Ok(store, Some(existing))
      else if !Allowed(existing.status, incoming.status) then Threw(InvalidOperation)
      else
        var u := existing.(
          status := incoming.status,
          transactionReference := incoming.transactionReference,
          refundDate := incoming.refundDate,
          refundAmount := incoming.refundAmount,
          taxAmount := incoming.taxAmount,
          discountAmount := incoming.discountAmount,
          shippingCharges := incoming.shippingCharges,
          paymentMethod := incoming.paymentMethod);
        Ok(store[incoming.id := u], Some(u))
  }

  /** Whatever happens, an update keeps every refund filed under its id with its items. */
  lemma UpdateKeepsFiling(store: Store, incoming: Refund)
    requires WellFiled(store)
    requires Update(store, incoming).Ok?
    ensures WellFiled(Update(store, incoming).store)
  {
  }

  /** Sending the same update twice has the effect of sending it once: the
      second call finds the status already set and changes nothing. */
  lemma UpdateIdempotent(store: Store, incoming: Refund)
    requires Update(store, incoming).Ok?
    ensures var s1 := Update(store, incoming).store;
            Update(s1, incoming).Ok? && Update(s1, incoming).store == s1
  {
  }

  /** Scenario: a Pending refund cannot be completed without being processed first,
      and once processed it can. */
  lemma CompletionNeedsProcessing(store: Store, incoming: Refund)
    requires incoming.id in store && store[incoming.id].status == Pending
    requires incoming.status == Completed
    ensures Update(store, incoming) == Threw(InvalidOperation)
    ensures var s1 := Update(store, incoming.(status := Processing)).store;
            Update(s1, incoming).Ok? && Update(s1, incoming).value.value.status == Completed
  {
  }

  /** A refund in Completed, Cancelled or PartiallyRefunded keeps its status and
      every field: any update asking for another status throws. */
  lemma StuckStatuses(store: Store, incoming: Refund)
    requires incoming.id in store
    requires store[incoming.id].status in {Completed, Cancelled, PartiallyRefunded}
    requires incoming.status != store[incoming.id].status
    ensures Update(store, incoming) == Threw(InvalidOperation)
  {
  }
}
