/** The shipment lifecycle: the shipment transition table, creation with forced
    defaults, the update that validates the status change and always rewrites
    the carrier details, and the lookup by tracking number. */
module Shipments {
  import opened Common
  import Transitions

  datatype ShipmentStatus = Pending | Shipped | InTransit | OutForDelivery | Delivered | Cancelled | Returned

  /** The shipment transition table, entry for entry. */
  const Table: Transitions.Table<ShipmentStatus> := map[
    Pending        := [Shipped, Cancelled],
    Shipped        := [InTransit, Cancelled],
    InTransit      := [OutForDelivery, Cancelled],
    OutForDelivery := [Delivered, Returned],
    Delivered      := [],
    Cancelled      := [],
    Returned       := []
  ]

  /** The delivery chain a parcel walks when nothing goes wrong. */
  const Chain: seq<ShipmentStatus> := [Pending, Shipped, InTransit, OutForDelivery, Delivered]

  /** `to` comes right after `from` on the delivery chain. */
  predicate NextOnChain(from: ShipmentStatus, to: ShipmentStatus) {
    exists i :: 0 <= i < |Chain| - 1 && Chain[i] == from && Chain[i + 1] == to
  }

  /** The shipment table allows the next step on the delivery chain, a
      cancellation while the parcel has not gone out for delivery, and a return
      only from out-for-delivery. */
  function Allowed(from: ShipmentStatus, to: ShipmentStatus): (ok: bool)
    ensures ok <==>
      || NextOnChain(from, to)
      || (to == Cancelled && from in Chain[..3])
      || (to == Returned && from == OutForDelivery)
  {
    assert Chain[0] == Pending && Chain[1] == Shipped && Chain[2] == InTransit;
    assert Chain[3] == OutForDelivery && Chain[4] == Delivered;
    Transitions.Allowed(Table, from, to)
  }

  /** Delivered, Cancelled and Returned have no exits. */
  lemma FinalStatuses(s: ShipmentStatus)
    requires s in {Delivered, Cancelled, Returned}
    ensures Transitions.Terminal(Table, s)
    ensures Transitions.Exits(Table, s) == {}
  {
  }

  datatype Shipment = Shipment(
    id: Id,
    orderId: Id,
    carrierName: string,
    trackingNumber: Option<string>,
    status: ShipmentStatus,
    estimatedDeliveryDate: Option<Instant>,
    deliveredAt: Option<Instant>,
    isDeleted: bool)

  type Store = map<Id, Shipment>

  predicate WellFiled(store: Store) {
    forall k :: k in store ==> store[k].id == k
  }

  /** `AddAsync`: the shipment is stored as Pending and not deleted, whatever it
      arrived with; every other field is kept. */
  function Add(store: Store, shipment: Shipment): (r: Outcome<Store, Shipment>)
    ensures shipment.id in store <==> r.Threw?
    ensures r.Threw? ==> r.failure == DuplicateKey
    ensures r.Ok? ==>
      && r.store.Keys == store.Keys + {shipment.id}
      && r.store[shipment.id] == r.value
      && (forall k :: k in store ==> r.store[k] == store[k])
      && r.value.status == Pending && !r.value.isDeleted
      && r.value == shipment.(status := r.value.status, isDeleted := r.value.isDeleted)
    ensures WellFiled(store) && r.Ok? ==> WellFiled(r.store)
  {
    if shipment.id in store then Threw(DuplicateKey)
    else
      var added := shipment.(isDeleted := false, status := Pending);
      Ok(store[shipment.id := added], added)
  }

  /** `UpdateAsync`: null for an unknown id and an exception for a status move the
      table refuses, with nothing written in either case. Otherwise the status
      takes the incoming value (allowed or unchanged), and the carrier, tracking
      number, estimated date and delivery instant are copied from `incoming`
      even when the status is the same. */
  function Update(store: Store, incoming: Shipment): (r: Outcome<Store, Option<Shipment>>)
    ensures incoming.id !in store ==> r == Ok(store, None)
    ensures r.Threw? <==>
      && incoming.id in store
      && store[incoming.id].status != incoming.status
      && !Allowed(store[incoming.id].status, incoming.status)
    ensures r.Threw? ==> r.failure == InvalidOperation
    ensures incoming.id in store && r.Ok? ==>
      && r.value.Some?
      && var u := r.value.value;
      && var prev := store[incoming.id];
      && r.store == store[incoming.id := u]
      && (prev.status == u.status || Allowed(prev.status, u.status))
      && u.status == incoming.status
      && u.carrierName == incoming.carrierName
      && u.trackingNumber == incoming.trackingNumber
      && u.estimatedDeliveryDate == incoming.estimatedDeliveryDate
      && u.deliveredAt == incoming.deliveredAt
      && u.id == prev.id && u.orderId == prev.orderId && u.isDeleted == prev.isDeleted
  {
    if incoming.id !in store then Ok(store, None)
    else
      var existing := store[incoming.id];
      if existing.status != incoming.status && !Allowed(existing.status, incoming.status) then
        Threw(InvalidOperation)
      else
        var u := existing.(
          status := incoming.status,
          carrierName := incoming.carrierName,
          trackingNumber := incoming.trackingNumber,
          estimatedDeliveryDate := incoming.estimatedDeliveryDate,
          deliveredAt := incoming.deliveredAt);
        Ok(store[incoming.id := u], Some(u))
  }

  /** Repeating an update leaves the store as the first one left it. */
  lemma UpdateIdempotent(store: Store, incoming: Shipment)
    requires Update(store, incoming).Ok?
    ensures var s1 := Update(store, incoming).store;
            Update(s1, incoming) == Update(store, incoming)
  {
    var r1 := Update(store, incoming);
    if incoming.id in store {
      var u := r1.value.value;
      assert r1.store[incoming.id] == u;
      assert u.(status := incoming.status, carrierName := incoming.carrierName,
                 trackingNumber := incoming.trackingNumber,
                 estimatedDeliveryDate := incoming.estimatedDeliveryDate,
                 deliveredAt := incoming.deliveredAt) == u;
      assert r1.store[incoming.id := u] == r1.store;
    }
  }

  /** A shipment that is Delivered, Cancelled or Returned never changes status
      again: any update asking for another status throws, carrier details and all. */
  lemma FinalShipmentsStay(store: Store, incoming: Shipment)
    requires incoming.id in store
    requires store[incoming.id].status in {Delivered, Cancelled, Returned}
    requires incoming.status != store[incoming.id].status
    ensures Update(store, incoming) == Threw(InvalidOperation)
  {
  }

  /** `char.IsWhiteSpace`: the Unicode space, line and paragraph separators plus
      the control characters tab through carriage return and next-line. */
  predicate IsWhiteSpace(c: char) {
    || ('\U{0009}' <= c <= '\U{000D}')
    || c == '\U{0020}' || c == '\U{0085}' || c == '\U{00A0}' || c == '\U{1680}'
    || ('\U{2000}' <= c <= '\U{200A}')
    || c == '\U{2028}' || c == '\U{2029}' || c == '\U{202F}' || c == '\U{205F}' || c == '\U{3000}'
  }

  /** `string.IsNullOrWhiteSpace`. */
  predicate IsBlank(s: Option<string>) {
    s.None? || forall i :: 0 <= i < |s.value| ==> IsWhiteSpace(s.value[i])
  }

  /** `GetByTrackingNumberAsync`: null for a null, empty or blank tracking number;
      otherwise the first row carrying exactly that tracking number, if any.
      `rows` is the shipment table. */
  function GetByTrackingNumber(rows: seq<Shipment>, trackingNumber: Option<string>): (r: Option<Shipment>)
    ensures IsBlank(trackingNumber) ==> r == None
    ensures r.Some? ==> r.value in rows && r.value.trackingNumber == trackingNumber
    ensures !IsBlank(trackingNumber) && r.None? ==>
              forall i :: 0 <= i < |rows| ==> rows[i].trackingNumber != trackingNumber
  {
    if IsBlank(trackingNumber) then None
    else
      match FirstWithTracking(rows, trackingNumber)
      case Some(i) => Some(rows[i])
      case None => None
  }

  /** The position of the first row carrying `trackingNumber`. */
  function FirstWithTracking(rows: seq<Shipment>, trackingNumber: Option<string>): (r: Option<nat>)
    ensures r.Some? ==> r.value < |rows| && rows[r.value].trackingNumber == trackingNumber
    ensures r.Some? ==> forall j :: 0 <= j < r.value ==> rows[j].trackingNumber != trackingNumber
    ensures r.None? ==> forall i :: 0 <= i < |rows| ==> rows[i].trackingNumber != trackingNumber
  {
    if rows == [] then None
    else if rows[0].trackingNumber == trackingNumber then Some(0)
    else
      match FirstWithTracking(rows[1..], trackingNumber)
      case Some(i) => Some(i + 1)
      case None => None
  }
}
