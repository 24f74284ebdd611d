/** The order lifecycle: the order transition table, the guarded status change
    that records an audit entry, and the listing of orders by status. */
module Orders {
  import opened Common
  import Transitions
  import Paging

  datatype OrderStatus = Pending | Confirmed | Packed | Shipped | Delivered | Cancelled | Returned

  /** The order transition table, entry for entry. */
  const Table: Transitions.Table<OrderStatus> := map[
    Pending   := [Confirmed, Cancelled],
    Confirmed := [Packed, Cancelled],
    Packed    := [Shipped, Cancelled],
    Shipped   := [Delivered, Cancelled],
    Delivered := [Returned],
    Cancelled := [],
    Returned  := []
  ]

  /** The fulfilment path an order walks when nothing goes wrong. */
  const Path: seq<OrderStatus> := [Pending, Confirmed, Packed, Shipped, Delivered, Returned]

  /** `to` comes right after `from` on the fulfilment path. */
  predicate NextOnPath(from: OrderStatus, to: OrderStatus) {
    exists i :: 0 <= i < |Path| - 1 && Path[i] == from && Path[i + 1] == to
  }

  /** An order can still be cancelled: it has not been delivered yet. */
  predicate Cancellable(s: OrderStatus) {
    s in Path[..4]
  }

  /** The order table allows exactly the next step on the fulfilment path and a
      cancellation of an order that has not been delivered. */
  function Allowed(from: OrderStatus, to: OrderStatus): (ok: bool)
    ensures ok <==> NextOnPath(from, to) || (to == Cancelled && Cancellable(from))
  {
    assert Path[0] == Pending && Path[1] == Confirmed && Path[2] == Packed;
    assert Path[3] == Shipped && Path[4] == Delivered && Path[5] == Returned;
    Transitions.Allowed(Table, from, to)
  }

  /** How far along its life an order is; every allowed move strictly increases it. */
  function Progress(s: OrderStatus): nat {
    match s
    case Pending => 0
    case Confirmed => 1
    case Packed => 2
    case Shipped => 3
    case Delivered => 4
    case Cancelled => 5
    case Returned => 5
  }

  lemma AllowedAdvances(from: OrderStatus, to: OrderStatus)
    requires Allowed(from, to)
    ensures Progress(from) < Progress(to)
  {
  }

  /** One audit entry of the order's status history. */
  datatype HistoryEntry = HistoryEntry(
    id: Id,
    orderId: Id,
    oldStatus: OrderStatus,
    newStatus: OrderStatus,
    changedBy: Option<string>,
    remarks: Option<string>,
    changedAt: Instant)

  /** The parts of an order the lifecycle reads and writes. */
  datatype Order = Order(
    id: Id,
    userId: Id,
    orderDate: Instant,
    status: OrderStatus,
    history: seq<HistoryEntry>)

  type Store = map<Id, Order>

  /** Every order is filed under its own id. */
  predicate WellFiled(store: Store) {
    forall k :: k in store ==> store[k].id == k
  }

  /** The ledger of an order tells its story: each entry records an allowed move of
      this order, each entry starts where the previous one ended, and the last one
      ends at the current status. */
  predicate Chained(o: Order) {
    && (forall i :: 0 <= i < |o.history| ==>
          o.history[i].orderId == o.id && Allowed(o.history[i].oldStatus, o.history[i].newStatus))
    && (forall i :: 1 <= i < |o.history| ==> o.history[i - 1].newStatus == o.history[i].oldStatus)
    && (|o.history| > 0 ==> o.history[|o.history| - 1].newStatus == o.status)
  }

  /** `ChangeOrderStatusAsync`: returns false for an unknown order, true without
      change when the order already has the status, throws on a move the table
      does not allow, and otherwise sets the status and appends one history entry.
      `entryId` and `now` stand for the fresh GUID and the clock reading. */
  function ChangeStatus(store: Store, orderId: Id, newStatus: OrderStatus,
                        changedBy: Option<string>, remarks: Option<string>,
                        entryId: Id, now: Instant): (r: Outcome<Store, bool>)
    ensures orderId !in store ==> r == Ok(store, false)
    ensures orderId in store && store[orderId].status == newStatus ==> r == Ok(store, true)
    ensures r.Threw? <==>
      orderId in store && store[orderId].status != newStatus && !Allowed(store[orderId].status, newStatus)
    ensures r.Threw? ==> r.failure == InvalidOperation
    ensures orderId in store && store[orderId].status != newStatus && Allowed(store[orderId].status, newStatus) ==>
      var o := store[orderId];
      && r.Ok? && r.value
      && orderId in r.store
      && var o' := r.store[orderId];
      && r.store == store[orderId := o']
      && o' == o.(status := newStatus, history := o'.history)
      && |o'.history| == |o.history| + 1
      && o'.history[..|o.history|] == o.history
      && o'.history[|o.history|] ==
           HistoryEntry(entryId, o.id, o.status, newStatus, changedBy, remarks, now)
  {
    if orderId !in store then Ok(store, false)
    else
      var o := store[orderId];
      if o.status == newStatus then Ok(store, true)
      else if !Allowed(o.status, newStatus) then Threw(InvalidOperation)
      else
        var entry := HistoryEntry(entryId, o.id, o.status, newStatus, changedBy, remarks, now);
        Ok(store[orderId := o.(status := newStatus, history := o.history + [entry])], true)
  }

  /** Asking for the status an order already has changes nothing, so repeating
      a successful change is a no-op that adds no second history entry. */
  lemma ChangeStatusIdempotent(store: Store, orderId: Id, newStatus: OrderStatus,
                               changedBy: Option<string>, remarks: Option<string>,
                               id1: Id, t1: Instant, id2: Id, t2: Instant)
    requires ChangeStatus(store, orderId, newStatus, changedBy, remarks, id1, t1).Ok?
    ensures var s1 := ChangeStatus(store, orderId, newStatus, changedBy, remarks, id1, t1).store;
            ChangeStatus(s1, orderId, newStatus, changedBy, remarks, id2, t2)
              == ChangeStatus(store, orderId, newStatus, changedBy, remarks, id1, t1)
  {
  }

  /** Cancelled and Returned are final: every attempt to leave them throws. */
  lemma FinalStatusesAreFinal(store: Store, orderId: Id, newStatus: OrderStatus,
                              changedBy: Option<string>, remarks: Option<string>, entryId: Id, now: Instant)
    requires orderId in store && store[orderId].status in {Cancelled, Returned}
    requires newStatus != store[orderId].status
    ensures ChangeStatus(store, orderId, newStatus, changedBy, remarks, entryId, now) == Threw(InvalidOperation)
    ensures Transitions.Terminal(Table, store[orderId].status)
  {
  }

  /** A status change keeps every ledger chained and every order filed under its id. */
  lemma ChangeStatusKeepsLedger(store: Store, orderId: Id, newStatus: OrderStatus,
                                changedBy: Option<string>, remarks: Option<string>, entryId: Id, now: Instant)
    requires WellFiled(store)
    requires forall k :: k in store ==> Chained(store[k])
    requires ChangeStatus(store, orderId, newStatus, changedBy, remarks, entryId, now).Ok?
    ensures var s := ChangeStatus(store, orderId, newStatus, changedBy, remarks, entryId, now).store;
            WellFiled(s) && forall k :: k in s ==> Chained(s[k])
  {
    if orderId in store && store[orderId].status != newStatus && Allowed(store[orderId].status, newStatus) {
      var o := store[orderId];
      var entry := HistoryEntry(entryId, o.id, o.status, newStatus, changedBy, remarks, now);
      AppendKeepsChained(o, newStatus, entry);
    }
  }

  lemma AppendKeepsChained(o: Order, newStatus: OrderStatus, entry: HistoryEntry)
    requires Chained(o)
    requires entry.orderId == o.id && entry.oldStatus == o.status && entry.newStatus == newStatus
    requires Allowed(o.status, newStatus)
    ensures Chained(o.(status := newStatus, history := o.history + [entry]))
  {
    var o' := o.(status := newStatus, history := o.history + [entry]);
    var n := |o.history|;
    assert o'.history[n] == entry;
    forall i | 0 <= i < n + 1
      ensures o'.history[i].orderId == o'.id && Allowed(o'.history[i].oldStatus, o'.history[i].newStatus)
    {
      if i < n {
        assert o'.history[i] == o.history[i];
      }
    }
    forall i | 1 <= i < n + 1
      ensures o'.history[i - 1].newStatus == o'.history[i].oldStatus
    {
      assert o'.history[i - 1] == o.history[i - 1];
      if i < n {
        assert o'.history[i] == o.history[i];
      }
    }
  }

  /** Each ledger entry moves the order strictly further along its life. */
  lemma {:induction false} LedgerAdvances(o: Order, i: nat)
    requires Chained(o)
    requires i < |o.history|
    ensures Progress(o.history[i].newStatus) >= i + 1
  {
    AllowedAdvances(o.history[i].oldStatus, o.history[i].newStatus);
    if i > 0 {
      LedgerAdvances(o, i - 1);
    }
  }

  /** Since every move advances the order and the longest life is Pending through
      Returned, a chained ledger never holds more than five entries. */
  lemma LedgerIsShort(o: Order)
    requires Chained(o)
    ensures |o.history| <= 5
  {
    if |o.history| > 0 {
      LedgerAdvances(o, |o.history| - 1);
    }
  }

  function OrderDate(o: Order): int { o.orderDate }

  /** `GetByStatusAsync`: the orders with the given status, newest order date
      first, cut to page `pageNumber` of `pageSize`. `rows` is the order table. */
  function GetByStatus(rows: seq<Order>, status: OrderStatus, pageNumber: int, pageSize: int): (r: seq<Order>)
    ensures exists s :: && Paging.SortingOf(s, Paging.Where(rows, (o: Order) => o.status == status), OrderDate)
                        && r == Paging.Page(s, pageNumber, pageSize)
    ensures forall i :: 0 <= i < |r| ==> r[i].status == status && r[i] in rows
    ensures Paging.SortedDescending(r, OrderDate)
    ensures pageSize <= 0 ==> r == []
    ensures pageSize > 0 ==> |r| <= pageSize
    ensures pageNumber == 1 && pageSize >= |rows| ==>
              forall i :: 0 <= i < |rows| && rows[i].status == status ==> rows[i] in r
  {
    Paging.Listing(rows, (o: Order) => o.status == status, OrderDate, pageNumber, pageSize)
  }
}
