/**
 * The status patch of `updateClientOrderStatusByClientId`: the first
 * pending order whose id equals the given one (Objects.equals, so a null id
 * matches a null id) gets the new status; the scan stops there.
 */
module OrderStatus {
  import opened Wrappers
  import opened ClientModel

  /** The index of the first order with id `orderId`, or `|orders|` when there is none. */
  function FirstMatch(orders: seq<OrderDetail>, orderId: Option<string>): (k: nat)
    ensures k <= |orders|
    ensures forall j :: 0 <= j < k ==> orders[j].id != orderId
    ensures k < |orders| ==> orders[k].id == orderId
  {
    if orders == [] then 0
    else if orders[0].id == orderId then 0
    else 1 + FirstMatch(orders[1..], orderId)
  }

  /** The orders after the first match, if any, has its status replaced. */
  function PatchStatus(orders: seq<OrderDetail>, orderId: Option<string>, newStatus: Option<string>): (patched: seq<OrderDetail>)
    ensures |patched| == |orders|
    ensures forall j :: 0 <= j < |orders| ==> patched[j].id == orders[j].id && patched[j].total == orders[j].total
    ensures forall j :: 0 <= j < |orders| && j != FirstMatch(orders, orderId) ==> patched[j] == orders[j]
    ensures FirstMatch(orders, orderId) < |orders| ==> patched[FirstMatch(orders, orderId)].orderStatus == newStatus
    ensures (forall j :: 0 <= j < |orders| ==> orders[j].id != orderId) ==> patched == orders
  {
    var k := FirstMatch(orders, orderId);
    if k < |orders| then orders[k := orders[k].(orderStatus := newStatus)] else orders
  }

  /** Patching a status twice with the same values changes nothing more than patching once. */
  lemma PatchStatusIdempotent(orders: seq<OrderDetail>, orderId: Option<string>, newStatus: Option<string>)
    ensures PatchStatus(PatchStatus(orders, orderId, newStatus), orderId, newStatus) == PatchStatus(orders, orderId, newStatus)
  {
  }

  /** A later order with the same id is not touched: only the first match changes. */
  lemma LaterDuplicateUntouched(orders: seq<OrderDetail>, orderId: Option<string>, newStatus: Option<string>, i: nat, j: nat)
    requires i < j < |orders|
    requires orders[i].id == orderId && orders[j].id == orderId
    ensures PatchStatus(orders, orderId, newStatus)[j] == orders[j]
  {
  }
}
