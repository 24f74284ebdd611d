# Order service lifecycles in Dafny

This project models the core of an order-management service's persistence layer. That layer is the set of repositories that move orders, refunds, shipments, cancellation requests and return requests through their lifecycles.

The model covers:

- **Transition tables.** Orders, refunds and shipments each keep a dictionary from a status to the statuses it may move to. A move is allowed when the current status has an entry that lists the new one (`TryGetValue && Contains`). A status with no entry has no exits.
- **Guarded mutations.** Each covered repository call is a pure function from a store to an `Outcome`:
  - `Ok(store', value)`, or
  - `Threw(failure)`, where the failure is `KeyNotFound`, `InvalidOperation` or `DuplicateKey`.

  A C# `null` result is `Ok(store, None)`.
- **Item synchronisation.** Editing a Pending cancellation or return synchronises its child items with the incoming list:
  - items whose id is gone are removed;
  - items whose id matches are patched;
  - new items are attached to the request.
- **Listings.** `GetByStatusAsync` for orders and returns is `Where`, then `OrderByDescending`, then `Skip((pageNumber - 1) * pageSize).Take(pageSize)`. `GetByTrackingNumberAsync` is the shipment lookup.

Ids (GUIDs) are `nat`, and instants and money are `int`. A store is a `map` from id to entity. The clock (`DateTime.UtcNow`) and the fresh GUID of an order history entry (`Guid.NewGuid()`) are parameters. Every other id is taken as the caller gives it. A listing query receives the table contents as a sequence.

Modules:

- `common.dfy`: ids, `Option`, `Failure`, `Outcome`.
- `transitions.dfy`: the generic table lookup.
- `paging.dfy`: the LINQ listing pipeline.
- `item_sync.dfy`: the generic upsert-by-id synchronisation.
- `requests.dfy`: the request shape that cancellation and return requests share. The two repositories implement creation, editing, approval and rejection line for line alike, so these are modelled once, generic in the item type.
- `orders.dfy`, `refunds.dfy`, `shipments.dfy`, `cancellations.dfy`, `returns.dfy`: one module per repository. The last two supply their item type, the item fields an edit copies, and their own deletion rule.

## Model

| member | source | states |
|---|---|---|
| `Transitions.Exits` | OrderService.Infrastructure/Repositories/OrderRepository.cs:87 | the targets a table allows from a status are exactly its listed entries; there are none when the status has no entry or an empty one |
| `Orders.Allowed` | OrderService.Infrastructure/Repositories/OrderRepository.cs:14-34 | the order table allows exactly the next step on the path Pending, Confirmed, Packed, Shipped, Delivered, Returned, plus Cancelled from any status before Delivered |
| `Orders.AllowedAdvances` | OrderService.Infrastructure/Repositories/OrderRepository.cs:14-34 | every allowed order move strictly increases the order's progress rank, so the graph has no cycles |
| `Orders.ChangeStatus` | OrderService.Infrastructure/Repositories/OrderRepository.cs:69-110 | an unknown order gives false and no change; the current status gives true and no change; a move the table refuses throws InvalidOperation; otherwise only that order changes: the new status plus exactly one appended history entry (old status, new status, actor, remarks, instant), with earlier entries kept |
| `Orders.ChangeStatusIdempotent` | OrderService.Infrastructure/Repositories/OrderRepository.cs:78-79 | repeating a successful status change returns the same outcome and adds no second history entry |
| `Orders.FinalStatusesAreFinal` | OrderService.Infrastructure/Repositories/OrderRepository.cs:31-33 | a Cancelled or Returned order is terminal in the table, and any request for another status throws InvalidOperation |
| `Orders.ChangeStatusKeepsLedger` | OrderService.Infrastructure/Repositories/OrderRepository.cs:92-105 | a successful change keeps every order filed under its id and every history chained: each entry is an allowed move of that order, starts where the previous ended, and the last ends at the current status |
| `Orders.LedgerAdvances` | OrderService.Infrastructure/Repositories/OrderRepository.cs:96-105 | the i-th entry of a chained history reaches at least progress rank i+1 |
| `Orders.LedgerIsShort` | OrderService.Infrastructure/Repositories/OrderRepository.cs:14-34 | a chained order history holds at most five entries |
| `Orders.GetByStatus` | OrderService.Infrastructure/Repositories/OrderRepository.cs:163-171 | the result is page pageNumber, at offset (pageNumber-1)*pageSize, of the orders with the requested status sorted newest order date first (tied dates in some order); so every listed order is a row with that status; the page is newest order date first and holds at most pageSize rows (none for pageSize <= 0); page 1 of a size covering the table lists every matching row |
| `Paging.Where` | OrderService.Infrastructure/Repositories/OrderRepository.cs:166 | the filter keeps exactly the rows satisfying the predicate: every kept row satisfies it and comes from the input, every satisfying row is kept |
| `Paging.WhereCounts` | OrderService.Infrastructure/Repositories/OrderRepository.cs:166 | the filter keeps each satisfying row as often as it occurs and drops every other row |
| `Paging.SortDescending` | OrderService.Infrastructure/Repositories/OrderRepository.cs:167 | the ordering has the input's length and keys that never increase |
| `Paging.SortPermutes` | OrderService.Infrastructure/Repositories/OrderRepository.cs:167 | the ordering is a permutation of its input |
| `Paging.Page` | OrderService.Infrastructure/Repositories/OrderRepository.cs:168-169 | a page is the slice starting at (pageNumber-1)*pageSize of at most pageSize elements, and empty past the end; for pageSize <= 0 or a negative offset the model gives `Skip` and `Take` their LINQ meaning (nothing taken; nothing skipped) |
| `Paging.PageKeepsOrder` | OrderService.Infrastructure/Repositories/OrderRepository.cs:167-169 | a page of a sorted listing is itself sorted |
| `Paging.PagesTile` | OrderService.Infrastructure/Repositories/OrderRepository.cs:168-169 | pages 1..n laid end to end are exactly the first n*pageSize elements, with no gap and no overlap |
| `Paging.Listing` | OrderService.Infrastructure/Repositories/ReturnRepository.cs:212-215 | the result is page pageNumber, at offset (pageNumber-1)*pageSize, of some descending-key ordering of exactly the matching rows (the order among equal keys is open); so it holds only matching rows, in descending key order, within the page size, and is complete when page 1 covers the table |
| `Refunds.Allowed` | OrderService.Infrastructure/Repositories/RefundRepository.cs:13-27 | read by the status entered: Processing and Cancelled only from Pending, Failed only from Processing, Completed only from Processing or Failed; nothing enters Pending or PartiallyRefunded |
| `Refunds.NoExitFrom` | OrderService.Infrastructure/Repositories/RefundRepository.cs:24-26 | Completed, Cancelled and PartiallyRefunded (which has no table entry) allow no move at all |
| `Refunds.Add` | OrderService.Infrastructure/Repositories/RefundRepository.cs:60-72 | a new refund is stored as Pending, not deleted, dated now, with its items attached and every other field as sent; an existing id is refused; other refunds are untouched and filing is kept |
| `Refunds.Update` | OrderService.Infrastructure/Repositories/RefundRepository.cs:75-113 | an unknown id gives null; the same status returns the stored refund untouched; a refused move throws InvalidOperation; an allowed move writes the status and copies exactly the transaction reference, date, amounts and payment method, keeping everything else |
| `Refunds.UpdateKeepsFiling` | OrderService.Infrastructure/Repositories/RefundRepository.cs:98-107 | an update keeps every refund filed under its id and owning its items |
| `Refunds.UpdateIdempotent` | OrderService.Infrastructure/Repositories/RefundRepository.cs:87-112 | sending the same update twice leaves the store as one update did |
| `Refunds.CompletionNeedsProcessing` | OrderService.Infrastructure/Repositories/RefundRepository.cs:15-19 | Pending straight to Completed throws, while Pending to Processing to Completed succeeds |
| `Refunds.StuckStatuses` | OrderService.Infrastructure/Repositories/RefundRepository.cs:87-96 | a refund in Completed, Cancelled or PartiallyRefunded rejects every change of status |
| `Shipments.Allowed` | OrderService.Infrastructure/Repositories/ShipmentRepository.cs:14-32 | the shipment table allows the next step on Pending, Shipped, InTransit, OutForDelivery, Delivered; Cancelled before out-for-delivery; Returned only from OutForDelivery |
| `Shipments.FinalStatuses` | OrderService.Infrastructure/Repositories/ShipmentRepository.cs:28-31 | Delivered, Cancelled and Returned have no exits |
| `Shipments.Add` | OrderService.Infrastructure/Repositories/ShipmentRepository.cs:60-72 | a new shipment is stored as Pending and not deleted with every other field as sent; an existing id is refused; filing is kept |
| `Shipments.Update` | OrderService.Infrastructure/Repositories/ShipmentRepository.cs:75-108 | an unknown id gives null; a refused status move throws with nothing written; otherwise the status (allowed or unchanged), carrier, tracking number, estimated date and delivery instant come from the incoming shipment, even when the status is unchanged |
| `Shipments.UpdateIdempotent` | OrderService.Infrastructure/Repositories/ShipmentRepository.cs:91-103 | repeating an update gives the same outcome and store |
| `Shipments.FinalShipmentsStay` | OrderService.Infrastructure/Repositories/ShipmentRepository.cs:91-94 | a Delivered, Cancelled or Returned shipment rejects every change of status |
| `Shipments.GetByTrackingNumber` | OrderService.Infrastructure/Repositories/ShipmentRepository.cs:139-149 | a null, empty or white-space tracking number gives null; otherwise the result is a row with exactly that number, and it is null only when no row has it |
| `Shipments.FirstWithTracking` | OrderService.Infrastructure/Repositories/ShipmentRepository.cs:144-148 | finds the position of the first row carrying the number, with no earlier row carrying it |
| `ItemSync.Lookup` | OrderService.Infrastructure/Repositories/CancellationRepository.cs:100 | the lookup finds nothing exactly when no item carries the id, and otherwise an item of the list carrying it |
| `ItemSync.UniqueKeyLookup` | OrderService.Infrastructure/Repositories/CancellationRepository.cs:100 | in a list with distinct ids, the lookup finds the one item carrying the id |
| `ItemSync.Retain` | OrderService.Infrastructure/Repositories/CancellationRepository.cs:91-93 | removal keeps exactly the items whose id is incoming; it keeps ids distinct and leaves kept items unchanged |
| `ItemSync.Upsert` | OrderService.Infrastructure/Repositories/CancellationRepository.cs:98-112 | merging one incoming item adds its id; the item with that id is the patched existing one, or the adopted new one; no other id's item changes |
| `ItemSync.Merge` | OrderService.Infrastructure/Repositories/CancellationRepository.cs:96-114 | merging a list adds exactly its ids, keeps ids distinct, and leaves items with other ids alone |
| `ItemSync.Sync` | OrderService.Infrastructure/Repositories/CancellationRepository.cs:90-114 | after synchronisation the items carry exactly the incoming ids (none for a null list), still distinct |
| `ItemSync.MergeContents` | OrderService.Infrastructure/Repositories/CancellationRepository.cs:98-113 | with distinct incoming ids, each incoming item is found merged against the list it was merged into |
| `ItemSync.SyncContents` | OrderService.Infrastructure/Repositories/CancellationRepository.cs:90-114 | with distinct incoming ids, each incoming item ends up patched onto the existing item with its id, or adopted when new |
| `ItemSync.SyncKeeps` | OrderService.Infrastructure/Repositories/CancellationRepository.cs:104-111 | a per-item property that existing items have, that patching preserves and that adoption establishes, holds of every synchronised item |
| `Requests.Add` | OrderService.Infrastructure/Repositories/CancellationRepository.cs:46-58 | a new request is stored as Pending, not deleted, requested now, with its items attached and all else as sent; an existing id is refused and other requests are untouched (the return repository's `AddAsync` is the same) |
| `Requests.AddedRequestIsOpen` | OrderService.Infrastructure/Repositories/CancellationRepository.cs:51-53 | a request just added is Pending and not deleted, so it can be edited, approved or rejected |
| `Requests.Update` | OrderService.Infrastructure/Repositories/CancellationRepository.cs:61-118 | null with no change exactly when the request is unknown, deleted or not Pending; otherwise remarks, reason, partial flag and policy come from the edit, the rest of the header is unchanged, and the items carry exactly the incoming ids, still distinct (the return repository's `UpdateAsync` is the same up to its item fields) |
| `Requests.UpdateKeepsFiling` | OrderService.Infrastructure/Repositories/CancellationRepository.cs:104-111 | with item rules that keep ids and owners, an edit keeps every request filed under its id, owning its items, with distinct item ids |
| `Requests.Approve` | OrderService.Infrastructure/Repositories/CancellationRepository.cs:144-167 | an unknown id throws KeyNotFound, a non-Pending request throws InvalidOperation, and a Pending request is always approved: it becomes Approved with approver = processor, approval instant = processing instant, the given remarks and amount, every other field of it and every other request unchanged (the return repository's `ApproveAsync` is the same) |
| `Requests.Reject` | OrderService.Infrastructure/Repositories/CancellationRepository.cs:170-190 | the same guards, and a Pending request is always rejected: it becomes Rejected with rejecter = processor, rejection instant = processing instant and the given remarks, every other field of it (the refundable amount included) and every other request unchanged (the return repository's `RejectAsync` is the same) |
| `Requests.DecisionIsFinal` | OrderService.Infrastructure/Repositories/CancellationRepository.cs:150-178 | after a successful approval or rejection, every further approval or rejection throws InvalidOperation |
| `Requests.DecisionKeepsFiling` | OrderService.Infrastructure/Repositories/CancellationRepository.cs:154-163 | approving or rejecting leaves the items and ids of every request as they were, so filing is kept |
| `Cancellations.Patch` | OrderService.Infrastructure/Repositories/CancellationRepository.cs:100-106 | a matched cancellation item takes the incoming cancelled quantity and order item, and keeps its id, its cancellation and its refundable amount |
| `Cancellations.Adopt` | OrderService.Infrastructure/Repositories/CancellationRepository.cs:107-111 | a new cancellation item is attached to the edited cancellation, every other field as sent |
| `Cancellations.Add` | OrderService.Infrastructure/Repositories/CancellationRepository.cs:46-58 | a cancellation with a new id is stored as Pending, not deleted and requested now, each item attached to it; an existing id is refused |
| `Cancellations.Update` | OrderService.Infrastructure/Repositories/CancellationRepository.cs:61-118 | null with no change exactly when the cancellation is missing, withdrawn or not Pending; otherwise the stored cancellation is returned and its items carry exactly the incoming ids (none for a null list) |
| `Cancellations.Approve` | OrderService.Infrastructure/Repositories/CancellationRepository.cs:144-167 | succeeds exactly for a Pending cancellation, which becomes Approved, processed by the approver, with the given refundable amount and its items kept |
| `Cancellations.Reject` | OrderService.Infrastructure/Repositories/CancellationRepository.cs:170-190 | succeeds exactly for a Pending cancellation, which becomes Rejected, processed by the rejecter, with its refundable amount and items kept |
| `Cancellations.UpdateItemContents` | OrderService.Infrastructure/Repositories/CancellationRepository.cs:98-113 | with distinct incoming ids, each incoming item is stored as the first stored item with its id, taking the new quantity and order item, or, when there is none, as sent and attached to the request |
| `Cancellations.Delete` | OrderService.Infrastructure/Repositories/CancellationRepository.cs:121-141 | an unknown id is ignored; a request that is not Pending throws InvalidOperation; a Pending one is soft-deleted at now and otherwise unchanged |
| `Cancellations.DecidedRequestIsFrozen` | OrderService.Infrastructure/Repositories/CancellationRepository.cs:73-134 | a decided request can no longer be edited, and deleting it throws |
| `Cancellations.WithdrawnRequestCanBeApproved` | OrderService.Infrastructure/Repositories/CancellationRepository.cs:146-152 | a withdrawn Pending request refuses edits but can still be approved, because approval looks it up by id alone |
| `Returns.Patch` | OrderService.Infrastructure/Repositories/ReturnRepository.cs:95-101 | a matched return item takes the incoming returned quantity, order item and remarks, and keeps its id, its return and its refundable amount |
| `Returns.Adopt` | OrderService.Infrastructure/Repositories/ReturnRepository.cs:102-106 | a new return item is attached to the edited return, every other field (its remarks included) as sent |
| `Returns.Add` | OrderService.Infrastructure/Repositories/ReturnRepository.cs:45-58 | a return with a new id is stored as Pending, not deleted and requested now, each item attached to it; an existing id is refused |
| `Returns.Update` | OrderService.Infrastructure/Repositories/ReturnRepository.cs:61-112 | null with no change exactly when the return is missing, deleted or not Pending; otherwise the stored return is returned and its items carry exactly the incoming ids (none for a null list) |
| `Returns.Approve` | OrderService.Infrastructure/Repositories/ReturnRepository.cs:131-150 | succeeds exactly for a Pending return, which becomes Approved, processed by the approver, with the given refundable amount and its items kept |
| `Returns.Reject` | OrderService.Infrastructure/Repositories/ReturnRepository.cs:153-171 | succeeds exactly for a Pending return, which becomes Rejected, processed by the rejecter, with its refundable amount and items kept |
| `Returns.UpdateItemContents` | OrderService.Infrastructure/Repositories/ReturnRepository.cs:93-107 | with distinct incoming ids, each incoming item is stored as the first stored item with its id, taking the new quantity, order item and remarks, or, when there is none, as sent and attached to the return |
| `Returns.Delete` | OrderService.Infrastructure/Repositories/ReturnRepository.cs:115-127 | never throws; an unknown id is ignored; any existing return is soft-deleted at now, whatever its status, and otherwise unchanged |
| `Returns.DecidedRequestIsFrozen` | OrderService.Infrastructure/Repositories/ReturnRepository.cs:73-127 | a decided return can no longer be edited but can still be soft-deleted, keeping its decision |
| `Returns.DeletedRequestCanBeApproved` | OrderService.Infrastructure/Repositories/ReturnRepository.cs:115-140 | a deleted Pending return refuses edits but can still be approved |
| `Returns.GetByStatus` | OrderService.Infrastructure/Repositories/ReturnRepository.cs:206-217 | the result is page pageNumber, at offset (pageNumber-1)*pageSize, of the non-deleted returns with the status sorted most recently requested first (tied instants in some order); so every listed return has the status and is not deleted; the page is most recently requested first and within the page size; page 1 of a size covering the table lists every such return |

## Left out

- Entity Framework plumbing is not modelled: tracking, `SaveChangesAsync`, `Include`, `AsNoTracking`, row versions and concurrency conflicts. One call is one atomic step on the store.
- `ArgumentNullException` on a null argument is left out, because a null entity cannot be expressed in the model. Null strings and nullable fields are `Option`.
- Insertion of a refund, shipment or request whose id already exists (`Refunds.Add`, `Shipments.Add`, `Requests.Add`) is modelled as a `DuplicateKey` failure. The repositories do no check of their own; the database refuses such an insertion.
- Item ids are primary keys of the whole item tables, but the model checks them only within one item list. An incoming item whose id already belongs to another request's or refund's item is accepted by `Requests.Add`, `Requests.Update` and `Refunds.Add`, and so are two items with the same id in one added request or refund. Saving would fail in both cases.
- Ids are taken as given. Entity Framework Core, by default, generates a key for an entity added with the empty GUID, and that is not modelled: neither for a refund, shipment or request passed to `AddAsync`, nor for a new item added during an edit. The entity configuration that would switch generation on or off is not part of this model. In the model the empty GUID is an ordinary id: an added entity carrying it can meet `DuplicateKey`, and two new incoming items carrying it are one id to the synchronisation.
- The other reads are not modelled because they carry no lifecycle rule: `GetByIdAsync`, `GetByOrderIdAsync`, `GetByUserIdAsync`, `GetByDateRangeAsync`, `GetAllAsync`, `ExistsAsync`, `GetOrderStatusHistoryAsync`, `GetOrderWithDetailsAsync`, the per-request item listings, and the `GetByStatusAsync` of refunds, shipments and cancellations. Order `AddAsync` and `DeleteAsync` are left out too.
- The payment service client is a network call and is left out.
- Shipment items are not part of this model.
- The cancellation and return status enumerations are not part of this model. Only the three statuses the repositories read and write are modelled: Pending, Approved and Rejected.
- The amount totals, the Delivered-order precondition for returns, quantity limits and the automatic refund trigger are left out. They are described for the service layer; none of the repositories enforces them.
- Return deletion follows the code: it has no Pending check. Cancellation deletion does have one.
- Paging.Page: the offset `(pageNumber - 1) * pageSize` is computed over unbounded integers. The code computes it in unchecked 32-bit `int` arithmetic, so a product above 2^31 - 1 wraps: page 65537 of size 65536 gets offset 0 and returns page 1, where the model returns a later slice or nothing.
- Paging.Page: a negative offset or a page size of zero or less gets the LINQ-to-Objects meaning of `Skip` and `Take`. The query actually runs as SQL, and the database provider decides what happens then (SQL Server refuses a negative OFFSET); that is not modelled.
- Paging.Listing: the order among rows with equal keys is left open, because SQL `ORDER BY` is not stable. Which of the tied rows fall on either side of a page boundary is not determined.
- Orders.GetByStatus: the same tie limit as Paging.Listing, for orders with equal order dates, and the same offset limits as Paging.Page.
- Returns.GetByStatus: the same limits as Orders.GetByStatus, for returns with equal request instants.
- Shipments.GetByTrackingNumber: the query has no ordering. The model takes the first row in table order, and its contract promises only some row with that number.
- String comparison is ordinal equality; database collation is not modelled.
- Cancellations.UpdateItemContents: item contents are stated only for distinct incoming ids. With a repeated non-empty id, a later occurrence updates the item an earlier one inserted, and the id set is still exact. With a repeated empty id, Entity Framework Core would generate a key for each new item and insert them all, whereas the model keeps one item, as the line on generated keys says.
- Returns.UpdateItemContents: the same limit as Cancellations.UpdateItemContents.
