/**
 * The client objects the service mutates. ClientEntity and ClientDTO are
 * one class here (the mapper is the identity); a client's pending orders
 * are a separate list object, so two clients can share one list, as they
 * do in Java after `setPendingOrders(request.getPendingOrders())`.
 */
module Entities {
  import opened Wrappers
  import opened ClientModel
  import opened FieldTable

  /** A mutable java.util.List<OrderDetails>. */
  class OrderList {
    var items: seq<OrderDetail>

    constructor (items: seq<OrderDetail>)
      ensures this.items == items
    {
      this.items := items;
    }
  }

  /** A client object; `pendingOrders` may be null. */
  class Client {
    var id: Option<string>
    var firstName: Option<string>
    var lastName: Option<string>
    var email: Option<string>
    var address: Option<string>
    var pendingOrders: OrderList?

    /** The value the object currently holds. */
    function Record(): ClientRecord
      reads this, pendingOrders
    {
      ClientRecord(id, firstName, lastName, email, address,
                   if pendingOrders == null then None else Some(pendingOrders.items))
    }

    /** A fresh object, with a fresh list, holding `rec` (a load, or a deserialised request). */
    constructor FromRecord(rec: ClientRecord)
      ensures Record() == rec
      ensures pendingOrders != null ==> fresh(pendingOrders)
    {
      id, firstName, lastName, email, address := rec.id, rec.firstName, rec.lastName, rec.email, rec.address;
      if rec.pendingOrders.Some? {
        pendingOrders := new OrderList(rec.pendingOrders.value);
      } else {
        pendingOrders := null;
      }
    }
  }

  /**
   * The table entry for `field`, run on `entity` with `request`, mutating
   * `entity` in place. The entity ends up holding what ApplyEntry says; the
   * request's list object, when the entity ends up sharing it, has had the
   * request's own items appended to it.
   */
  method ApplyField(field: ClientField, entity: Client, request: Client) returns (outcome: Outcome<Failure>)
    requires entity != request
    modifies entity, entity.pendingOrders, request.pendingOrders
    ensures outcome.Pass? <==> ApplyEntry(field, old(entity.Record()), old(request.Record())).Success?
    ensures outcome.Pass? ==> entity.Record() == ApplyEntry(field, old(entity.Record()), old(request.Record())).value
    ensures outcome.Fail? ==> outcome.error == ApplyEntry(field, old(entity.Record()), old(request.Record())).error
    // a throwing entry has changed nothing
    ensures outcome.Fail? ==> entity.Record() == old(entity.Record()) && entity.pendingOrders == old(entity.pendingOrders)
    // a list the entity lets go of keeps its items
    ensures old(entity.pendingOrders) != null && entity.pendingOrders != old(entity.pendingOrders) ==>
              old(entity.pendingOrders).items == old(entity.pendingOrders.items)
    // the request object keeps its fields and its list object
    ensures request.id == old(request.id) && request.firstName == old(request.firstName) && request.lastName == old(request.lastName)
    ensures request.email == old(request.email) && request.address == old(request.address)
    ensures request.pendingOrders == old(request.pendingOrders)
    // a string entry leaves both lists alone
    ensures field.IsScalar() ==> entity.pendingOrders == old(entity.pendingOrders)
    ensures field.IsScalar() && entity.pendingOrders != null ==> entity.pendingOrders.items == old(entity.pendingOrders.items)
    ensures field.IsScalar() && request.pendingOrders != null ==> request.pendingOrders.items == old(request.pendingOrders.items)
    // the entity keeps its list object or takes the request's
    ensures entity.pendingOrders == old(entity.pendingOrders) || entity.pendingOrders == request.pendingOrders
    // ORDER_DETAILS on an empty entity list: the entity now shares the request's list
    ensures field == OrderDetails && outcome.Pass? && request.pendingOrders != null && old(entity.pendingOrders) != null ==>
              (entity.pendingOrders == request.pendingOrders <==>
                 old(entity.pendingOrders.items) == [] || old(entity.pendingOrders) == request.pendingOrders)
    ensures field == OrderDetails && request.pendingOrders != null ==>
              request.pendingOrders.items ==
                if entity.pendingOrders == request.pendingOrders then entity.pendingOrders.items
                else old(request.pendingOrders.items)
  {
    outcome := Pass;
    match field
    case Id =>
      if request.id.Some? { entity.id := request.id; }
    case FirstName =>
      if request.firstName.Some? { entity.firstName := request.firstName; }
    case LastName =>
      if request.lastName.Some? { entity.lastName := request.lastName; }
    case Email =>
      if request.email.Some? { entity.email := request.email; }
    case Address =>
      if request.address.Some? { entity.address := request.address; }
    case OrderDetails =>
      if request.pendingOrders != null {
        if entity.pendingOrders == null {
          // entity.getPendingOrders().isEmpty() on a null list
          outcome := Fail(NullPointerException);
          return;
        }
        if entity.pendingOrders.items == [] {
          entity.pendingOrders := request.pendingOrders;
        }
        var target := entity.pendingOrders;
        target.items := target.items + request.pendingOrders.items;
      }
  }
}
