/** The request shape that cancellation and return requests share: the same
    header fields, the same creation with forced defaults, the same edit of a
    Pending request with synchronisation of its items, and the same one-shot
    approval or rejection. The two repositories differ only in their item type,
    in which item fields an edit copies, and in whether deletion checks the status;
    those differences live in the Cancellations and Returns modules. */
module Requests {
  import opened Common
  import ItemSync

  /** The statuses the request repositories read and write. */
  datatype RequestStatus = Pending | Approved | Rejected

  /** How a request's items are handled: `key` reads an item's id, `patch(e, x)`
      copies the editable fields of incoming `x` onto stored `e`, `adopt(x, p)`
      attaches a new item to request `p`, and `owner` reads the request an item
      belongs to. */
  datatype ItemRules<!I> = ItemRules(key: I -> Id, patch: (I, I) -> I, adopt: (I, Id) -> I, owner: I -> Id)

  /** Patching keeps an item's id and owner; adopting keeps its id and makes the
      given request its owner. */
  ghost predicate Lawful<I(!new)>(rules: ItemRules<I>) {
    && ItemSync.KeepsKeys(rules.key, rules.patch, rules.adopt)
    && (forall e, x :: rules.owner(rules.patch(e, x)) == rules.owner(e))
    && (forall x, p :: rules.owner(rules.adopt(x, p)) == p)
  }

  datatype Request<I> = Request(
    id: Id,
    orderId: Id,
    status: RequestStatus,
    reasonId: Id,
    isPartial: bool,
    policyId: Option<Id>,
    remarks: Option<string>,
    requestedAt: Instant,
    processedAt: Option<Instant>,
    processedBy: Option<string>,
    approvedBy: Option<string>,
    approvalRemarks: Option<string>,
    approvedAt: Option<Instant>,
    rejectedBy: Option<string>,
    rejectionRemarks: Option<string>,
    rejectedAt: Option<Instant>,
    totalRefundableAmount: Money,
    isDeleted: bool,
    deletedAt: Option<Instant>,
    items: seq<I>)

  /** The fields of the incoming entity that `UpdateAsync` reads; `items` is
      None when the incoming item collection is null. */
  datatype Edit<I> = Edit(
    id: Id,
    remarks: Option<string>,
    reasonId: Id,
    isPartial: bool,
    policyId: Option<Id>,
    items: Option<seq<I>>)

  type Store<I> = map<Id, Request<I>>

  /** Every request is filed under its own id, owns its items, and no two of its
      items share an id. */
  predicate WellFiled<I>(store: Store<I>, rules: ItemRules<I>) {
    forall k :: k in store ==>
      && store[k].id == k
      && (forall i :: 0 <= i < |store[k].items| ==> rules.owner(store[k].items[i]) == k)
      && ItemSync.UniqueKeys(store[k].items, rules.key)
  }

  /** `AddAsync`: the request is stored as Pending and not deleted, requested at
      `now`, whatever it arrived with; its items are attached to it. */
  function Add<I(==)>(store: Store<I>, c: Request<I>, now: Instant, rules: ItemRules<I>): (r: Outcome<Store<I>, Request<I>>)
    ensures c.id in store <==> r.Threw?
    ensures r.Threw? ==> r.failure == DuplicateKey
    ensures r.Ok? ==>
      && r.store.Keys == store.Keys + {c.id}
      && r.store[c.id] == r.value
      && (forall k :: k in store ==> r.store[k] == store[k])
      && r.value.status == Pending && !r.value.isDeleted && r.value.requestedAt == now
      && |r.value.items| == |c.items|
      && (forall i :: 0 <= i < |c.items| ==> r.value.items[i] == rules.adopt(c.items[i], c.id))
      && r.value == c.(status := r.value.status, isDeleted := r.value.isDeleted,
                       requestedAt := r.value.requestedAt, items := r.value.items)
  {
    if c.id in store then Threw(DuplicateKey)
    else
      var items := seq(|c.items|, i requires 0 <= i < |c.items| => rules.adopt(c.items[i], c.id));
      var added := c.(requestedAt := now, isDeleted := false, status := Pending, items := items);
      Ok(store[c.id := added], added)
  }

  /** The edit is refused (null, nothing changed) unless the request exists, is
      not deleted and is still Pending. */
  predicate Editable<I>(store: Store<I>, id: Id) {
    id in store && !store[id].isDeleted && store[id].status == Pending
  }

  /** A freshly added request is open: it can be edited, approved or rejected. */
  lemma AddedRequestIsOpen<I>(store: Store<I>, c: Request<I>, now: Instant, rules: ItemRules<I>,
                                  actor: string, amount: Money, remarks: Option<string>, later: Instant)
    requires c.id !in store
    ensures var s := Add(store, c, now, rules).store;
            && Editable(s, c.id)
            && Approve(s, c.id, actor, amount, remarks, later).Ok?
            && Reject(s, c.id, actor, remarks, later).Ok?
  {
  }

  /** `UpdateAsync`: null, with nothing changed, unless the request is editable.
      Otherwise the remarks, reason, partial flag and policy are taken from the
      edit, nothing else in the header changes, and the item list is
      synchronised: afterwards it carries exactly the incoming item ids (none for
      a null list). */
  function Update<I(==,!new)>(store: Store<I>, edit: Edit<I>, rules: ItemRules<I>): (r: Outcome<Store<I>, Option<Request<I>>>)
    requires ItemSync.KeepsKeys(rules.key, rules.patch, rules.adopt)
    ensures r.Ok?
    ensures r.value.None? <==> !Editable(store, edit.id)
    ensures r.value.None? ==> r.store == store
    ensures r.value.Some? ==>
      && edit.id in store
      && var c := store[edit.id];
      && var u := r.value.value;
      && r.store == store[edit.id := u]
      && u.remarks == edit.remarks && u.reasonId == edit.reasonId
      && u.isPartial == edit.isPartial && u.policyId == edit.policyId
      && u == c.(remarks := u.remarks, reasonId := u.reasonId, isPartial := u.isPartial,
                 policyId := u.policyId, items := u.items)
      && ItemSync.Keys(u.items, rules.key) ==
           (if edit.items.Some? then ItemSync.Keys(edit.items.value, rules.key) else {})
      && (ItemSync.UniqueKeys(c.items, rules.key) ==> ItemSync.UniqueKeys(u.items, rules.key))
  {
    if !Editable(store, edit.id) then Ok(store, None)
    else
      var c := store[edit.id];
      var items := ItemSync.Sync(c.items, edit.items, c.id, rules.key, rules.patch, rules.adopt);
      var u := c.(remarks := edit.remarks, reasonId := edit.reasonId, isPartial := edit.isPartial,
                  policyId := edit.policyId, items := items);
      Ok(store[edit.id := u], Some(u))
  }

  /** Whatever is edited, the store stays well filed: every item still belongs
      to its request and item ids stay distinct. */
  lemma UpdateKeepsFiling<I(!new)>(store: Store<I>, edit: Edit<I>, rules: ItemRules<I>)
    requires Lawful(rules)
    requires WellFiled(store, rules)
    ensures WellFiled(Update(store, edit, rules).store, rules)
  {
    if Editable(store, edit.id) {
      var c := store[edit.id];
      ItemSync.SyncKeeps(c.items, edit.items, c.id, rules.key, rules.patch, rules.adopt,
                         (item: I) => rules.owner(item) == c.id);
    }
  }

  /** Marks a request deleted at `now`; the guard, if any, is the caller's. */
  function SoftDelete<I>(store: Store<I>, id: Id, now: Instant): Store<I>
    requires id in store
  {
    store[id := store[id].(isDeleted := true, deletedAt := Some(now))]
  }

  /** `ApproveAsync`: the request is found by id alone, deleted or not. An unknown
      id throws KeyNotFound and a request that is not Pending throws
      InvalidOperation. Otherwise the request becomes Approved by `approvedBy`,
      who is also recorded as processor, processed and approved at `now`, with
      the refundable amount supplied by the caller. */
  function Approve<I(==)>(store: Store<I>, id: Id, approvedBy: string, refundableAmount: Money,
                          remarks: Option<string>, now: Instant): (r: Outcome<Store<I>, ()>)
    ensures id !in store <==> r == Threw(KeyNotFound)
    ensures r == Threw(InvalidOperation) <==> id in store && store[id].status != Pending
    ensures r.Ok? <==> id in store && store[id].status == Pending
    ensures r.Ok? ==>
      && id in r.store
      && var c := store[id];
      && var a := r.store[id];
      && r.store == store[id := a]
      && a.status == Approved
      && a.approvedBy == Some(approvedBy) && a.processedBy == a.approvedBy
      && a.approvedAt == Some(now) && a.processedAt == a.approvedAt
      && a.approvalRemarks == remarks
      && a.totalRefundableAmount == refundableAmount
      && a == c.(status := a.status, approvedBy := a.approvedBy, approvalRemarks := a.approvalRemarks,
                 approvedAt := a.approvedAt, processedBy := a.processedBy, processedAt := a.processedAt,
                 totalRefundableAmount := a.totalRefundableAmount)
  {
    if id !in store then Threw(KeyNotFound)
    else
      var c := store[id];
      if c.status != Pending then Threw(InvalidOperation)
      else
        var a := c.(status := Approved, approvedBy := Some(approvedBy), approvalRemarks := remarks,
                    approvedAt := Some(now), processedBy := Some(approvedBy), processedAt := Some(now),
                    totalRefundableAmount := refundableAmount);
        Ok(store[id := a], ())
  }

  /** `RejectAsync`: the same guards as approval. Otherwise the request becomes
      Rejected by `rejectedBy`, who is also recorded as processor, processed and
      rejected at `now`; the refundable amount is left as it was. */
  function Reject<I(==)>(store: Store<I>, id: Id, rejectedBy: string,
                         remarks: Option<string>, now: Instant): (r: Outcome<Store<I>, ()>)
    ensures id !in store <==> r == Threw(KeyNotFound)
    ensures r == Threw(InvalidOperation) <==> id in store && store[id].status != Pending
    ensures r.Ok? <==> id in store && store[id].status == Pending
    ensures r.Ok? ==>
      && id in r.store
      && var c := store[id];
      && var j := r.store[id];
      && r.store == store[id := j]
      && j.status == Rejected
      && j.rejectedBy == Some(rejectedBy) && j.processedBy == j.rejectedBy
      && j.rejectedAt == Some(now) && j.processedAt == j.rejectedAt
      && j.rejectionRemarks == remarks
      && j == c.(status := j.status, rejectedBy := j.rejectedBy, rejectionRemarks := j.rejectionRemarks,
                 rejectedAt := j.rejectedAt, processedBy := j.processedBy, processedAt := j.processedAt)
  {
    if id !in store then Threw(KeyNotFound)
    else
      var c := store[id];
      if c.status != Pending then Threw(InvalidOperation)
      else
        var j := c.(status := Rejected, rejectedBy := Some(rejectedBy), rejectionRemarks := remarks,
                    rejectedAt := Some(now), processedBy := Some(rejectedBy), processedAt := Some(now));
        Ok(store[id := j], ())
  }

  /** A decision is final: once approval or rejection of a request has succeeded,
      every later approval or rejection of it throws InvalidOperation. */
  lemma DecisionIsFinal<I>(store: Store<I>, id: Id, approve: bool, actor: string, amount: Money,
                               remarks: Option<string>, now: Instant,
                               actor2: string, amount2: Money, remarks2: Option<string>, now2: Instant)
    requires (if approve then Approve(store, id, actor, amount, remarks, now)
              else Reject(store, id, actor, remarks, now)).Ok?
    ensures var s1 := (if approve then Approve(store, id, actor, amount, remarks, now)
                       else Reject(store, id, actor, remarks, now)).store;
            && Approve(s1, id, actor2, amount2, remarks2, now2) == Threw(InvalidOperation)
            && Reject(s1, id, actor2, remarks2, now2) == Threw(InvalidOperation)
  {
  }

  /** Deciding a request keeps the store well filed. */
  lemma DecisionKeepsFiling<I>(store: Store<I>, id: Id, approve: bool, actor: string, amount: Money,
                                   remarks: Option<string>, now: Instant, rules: ItemRules<I>)
    requires WellFiled(store, rules)
    requires (if approve then Approve(store, id, actor, amount, remarks, now)
              else Reject(store, id, actor, remarks, now)).Ok?
    ensures WellFiled((if approve then Approve(store, id, actor, amount, remarks, now)
                       else Reject(store, id, actor, remarks, now)).store, rules)
  {
  }
}
