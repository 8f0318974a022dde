/**
 * ClientServiceImpl: the service object over its repository. Each method
 * follows the Java method step by step on client objects, and is proved to
 * agree with the operation of the same name in ClientServiceSpec. Two
 * differences from Java: SaveClient's duplicate check uses the intended
 * binding of the query's arguments (ClientServiceSpec.ExistsMatching), and
 * UpdateClientOrdersByClientId on an empty list yields the order twice,
 * where Java's `addAll` on the immutable `List.of` list throws.
 */
module ClientServiceImpl {
  import opened Wrappers
  import opened ClientModel
  import opened FieldTable
  import opened OrderStatus
  import opened Entities
  import Spec = ClientServiceSpec

  /** The method returned (or threw) what the specification says, and left the store as it says. */
  predicate Committed<T(==)>(spec: Result<(Spec.Store, T), Failure>, r: Result<T, Failure>, before: Spec.Store, after: Spec.Store) {
    match spec
    case Failure(e) => r == Failure(e) && after == before
    case Success(p) => r == Success(p.1) && after == p.0
  }

  /**
   * The loop of `updateClient` over the table's entries, on the loaded
   * entity and the request object. It leaves the entity as ApplyAll says
   * and the request as Spec.SavedRequest says.
   */
  method RunTable(entity: Client, request: Client) returns (outcome: Outcome<Failure>)
    requires entity != request
    requires entity.pendingOrders == null || entity.pendingOrders != request.pendingOrders
    modifies entity, entity.pendingOrders, request.pendingOrders
    ensures outcome.Pass? <==> ApplyAll(old(entity.Record()), old(request.Record()), TableOrder).Success?
    ensures outcome.Fail? ==> outcome.error == NullPointerException
    ensures outcome.Pass? ==> entity.Record() == ApplyAll(old(entity.Record()), old(request.Record()), TableOrder).value
    ensures outcome.Pass? ==> request.Record() == Spec.SavedRequest(old(entity.Record()), old(request.Record()))
  {
    ghost var e0, q := entity.Record(), request.Record();
    ghost var list0 := entity.pendingOrders;
    for i := 0 to |TableOrder|
      invariant entity.pendingOrders == list0 || entity.pendingOrders == request.pendingOrders
      invariant request.pendingOrders == old(request.pendingOrders)
      invariant ApplyAll(e0, q, TableOrder[..i]) == Success(entity.Record())
      invariant i < |TableOrder| ==> entity.pendingOrders == list0 && entity.Record().pendingOrders == e0.pendingOrders
      invariant request.Record() == if i == |TableOrder| then Spec.SavedRequest(e0, q) else q
    {
      assert TableOrder[..i + 1] == TableOrder[..i] + [TableOrder[i]];
      ApplyAllAppend(e0, q, TableOrder[..i], [TableOrder[i]]);
      outcome := ApplyField(TableOrder[i], entity, request);
      if outcome.Fail? {
        assert TableOrder == TableOrder[..i + 1] + TableOrder[i + 1..];
        ApplyAllAppend(e0, q, TableOrder[..i + 1], TableOrder[i + 1..]);
        return;
      }
    }
    assert TableOrder[..|TableOrder|] == TableOrder;
    outcome := Pass;
  }

  class ClientService {
    /** The client repository. */
    var store: Spec.Store

    constructor (initial: Spec.Store)
      ensures store == initial
    {
      store := initial;
    }

    /** `repository.save`; mirrors ClientServiceSpec.Save on the stored map. */
    method Persist(rec: ClientRecord, generatedId: string) returns (saved: ClientRecord)
      requires rec.id.None? ==> generatedId !in store
      modifies this
      ensures (store, saved) == Spec.Save(old(store), rec, generatedId)
    {
      var key := if rec.id.Some? then rec.id.value else generatedId;
      saved := rec.(id := Some(key));
      store := store[key := saved];
    }

    /** `getClientById`; mirrors ClientServiceSpec.GetClientById on the stored map. */
    method GetClientById(id: string) returns (r: Result<ClientRecord, Failure>)
      ensures r == Spec.GetClientById(store, id)
    {
      if id in store {
        r := Success(store[id]);
      } else {
        r := Failure(ClientException(UserNotFound));
      }
    }

    method SaveClient(dto: Option<ClientRecord>) returns (r: Result<ClientRecord, Failure>)
      modifies this
      ensures Committed(Spec.SaveClient(old(store), dto), r, old(store), store)
    {
      if dto.None? {
        return Failure(NullPointerException);
      }
      var c := dto.value;
      if c.id.Some? && c.firstName.Some? && c.email.Some? {
        if Spec.ExistsMatching(store, c.id.value, c.firstName.value, c.email.value) {
          return Failure(ClientException(UserAlreadyExists));
        }
        var saved := Persist(c, c.id.value);
        return Success(saved);
      }
      return Failure(ClientException(RequiredFieldsEmpty));
    }

    method UpdateClient(request: Option<ClientRecord>, id: string, generatedId: string) returns (r: Result<ClientRecord, Failure>)
      requires generatedId !in store
      modifies this
      ensures Committed(Spec.UpdateClient(old(store), request, id, generatedId), r, old(store), store)
    {
      if request.None? {
        return Failure(ClientException(RequestNull));
      }
      var loaded := GetClientById(id);
      if loaded.Failure? {
        return Failure(loaded.error);
      }
      var entity := new Client.FromRecord(loaded.value);
      var dto := new Client.FromRecord(request.value);
      var outcome := RunTable(entity, dto);
      if outcome.Fail? {
        return Failure(outcome.error);
      }
      assert store == old(store);
      var saved := Persist(dto.Record(), generatedId);
      assert (store, saved) == Spec.Save(old(store), Spec.SavedRequest(loaded.value, request.value), generatedId);
      return Success(saved);
    }

    method UpdateClientOrdersByClientId(orderDetails: Option<OrderDetail>, id: string) returns (r: Result<ClientRecord, Failure>)
      modifies this
      ensures Committed(Spec.UpdateClientOrders(old(store), orderDetails, id), r, old(store), store)
    {
      if orderDetails.None? {
        return Failure(ClientException(OrderDetailsEmpty));
      }
      var loaded := GetClientById(id);
      if loaded.Failure? {
        return Failure(loaded.error);
      }
      var entity := new Client.FromRecord(loaded.value);
      var dto := new Client.FromRecord(Spec.OrdersRequest(orderDetails.value));
      var outcome := ApplyField(OrderDetails, entity, dto);
      if outcome.Fail? {
        return Failure(outcome.error);
      }
      var saved := Persist(entity.Record(), id);
      return Success(saved);
    }

    method UpdateClientOrderStatusByClientId(orderId: Option<string>, newOrderStatus: Option<string>, clientId: string)
      returns (r: Result<ClientRecord, Failure>)
      ensures r == Spec.UpdateClientOrderStatus(store, orderId, newOrderStatus, clientId)
    {
      var loaded := GetClientById(clientId);
      if loaded.Failure? {
        return Failure(loaded.error);
      }
      var entity := new Client.FromRecord(loaded.value);
      var orders := entity.pendingOrders;
      if orders == null {
        // iterating over a null list
        return Failure(NullPointerException);
      }
      ghost var before := orders.items;
      var i := 0;
      while i < |orders.items|
        invariant 0 <= i <= |orders.items|
        invariant orders.items == before && entity.pendingOrders == orders
        invariant entity.Record() == loaded.value
        invariant forall j :: 0 <= j < i ==> before[j].id != orderId
      {
        if orders.items[i].id == orderId {
          assert FirstMatch(before, orderId) == i;
          orders.items := orders.items[i := orders.items[i].(orderStatus := newOrderStatus)];
          break;
        }
        i := i + 1;
      }
      return Success(entity.Record());
    }

    method DeleteClientById(id: string) returns (r: Result<string, Failure>)
      modifies this
      ensures Committed(Spec.DeleteClientById(old(store), id), r, old(store), store)
    {
      var loaded := GetClientById(id);
      if loaded.Failure? {
        return Failure(loaded.error);
      }
      var entity := new Client.FromRecord(loaded.value);
      // `clientEntity != null` always holds here; the "not found" throw after it cannot be reached
      store := store - {entity.id.value};
      return Success("Client with id: " + id + " was successfully deleted");
    }
  }
}
