/**
 * The client service's operations on values: a store of client records
 * keyed by id (the repository), and for each operation the result it
 * returns or the exception it throws, with the store afterwards.
 */
module ClientServiceSpec {
  import opened Wrappers
  import opened ClientModel
  import opened FieldTable
  import opened OrderStatus

  /** Every stored record carries its own key as its id (the document's `_id`). */
  predicate Keyed(m: map<string, ClientRecord>) {
    forall k :: k in m ==> m[k].id == Some(k)
  }

  /** The client repository's contents. */
  type Store = m: map<string, ClientRecord> | Keyed(m) witness map[]

  /**
   * `repository.save`: an upsert by id. A record with a null id is stored
   * under `generatedId`, the id the database assigns, and comes back with it.
   */
  function Save(store: Store, rec: ClientRecord, generatedId: string): (out: (Store, ClientRecord))
    requires rec.id.None? ==> generatedId !in store
    ensures rec.id.None? ==> out.0.Keys == store.Keys + {generatedId}
    ensures out.1.id == Some(if rec.id.Some? then rec.id.value else generatedId)
    ensures out.1 == rec.(id := out.1.id)
    ensures out.1.id.value in out.0 && out.0[out.1.id.value] == out.1
    ensures out.0.Keys == store.Keys + {out.1.id.value}
    ensures forall k :: k in store && Some(k) != out.1.id ==> out.0[k] == store[k]
  {
    var key := rec.id.GetOr(generatedId);
    var saved := rec.(id := Some(key));
    (store[key := saved], saved)
  }

  /** `getClientById` (the mapper is the identity). */
  function GetClientById(store: Store, id: string): (r: Result<ClientRecord, Failure>)
    ensures r.Success? <==> id in store
    ensures r.Success? ==> r.value == store[id] && r.value.id == Some(id)
    ensures r.Failure? ==> r.error == ClientException(UserNotFound)
  {
    if id in store then Success(store[id]) else Failure(ClientException(UserNotFound))
  }

  /** The three fields `saveClient` insists on are non-null. */
  predicate HasRequiredFields(c: ClientRecord) {
    c.id.Some? && c.firstName.Some? && c.email.Some?
  }

  /**
   * `findByIdAndEmailAndFirstName(id, firstName, email) != null`, as
   * evidently intended: some stored record has this id, first name and email.
   */
  function ExistsMatching(store: Store, id: string, firstName: string, email: string): (found: bool)
    ensures found <==> exists k :: k in store && store[k].id == Some(id) && store[k].firstName == Some(firstName) && store[k].email == Some(email)
  {
    if id in store then
      assert store[id].id == Some(id);
      store[id].firstName == Some(firstName) && store[id].email == Some(email)
    else
      false
  }

  /**
   * The same query as the derived query binds its arguments: positionally
   * in the order of the properties in its name (Id, Email, FirstName), so the
   * first name passed at the second position is compared with the email and
   * the email with the first name.
   */
  function ExistsMatchingAsWritten(store: Store, id: string, firstName: string, email: string): (found: bool)
    ensures found <==> id in store && store[id].email == Some(firstName) && store[id].firstName == Some(email)
  {
    ExistsMatching(store, id, email, firstName)
  }

  /** With the arguments bound as written, re-saving a stored client is not reported as a duplicate. */
  lemma SwappedQueryMissesDuplicate()
    ensures var c := ClientRecord(Some("c1"), Some("Ann"), None, Some("ann@example.com"), None, Some([]));
            var store: Store := map["c1" := c];
            ExistsMatching(store, "c1", "Ann", "ann@example.com") && !ExistsMatchingAsWritten(store, "c1", "Ann", "ann@example.com")
  {
  }

  /** `saveClient`. A null request throws on its first getter. */
  function SaveClient(store: Store, dto: Option<ClientRecord>): (r: Result<(Store, ClientRecord), Failure>)
    ensures dto.None? ==> r == Failure(NullPointerException)
    ensures dto.Some? && !HasRequiredFields(dto.value) ==> r == Failure(ClientException(RequiredFieldsEmpty))
    ensures dto.Some? && HasRequiredFields(dto.value) &&
            ExistsMatching(store, dto.value.id.value, dto.value.firstName.value, dto.value.email.value) ==>
              r == Failure(ClientException(UserAlreadyExists))
    ensures r.Success? <==> dto.Some? && HasRequiredFields(dto.value) &&
                             !ExistsMatching(store, dto.value.id.value, dto.value.firstName.value, dto.value.email.value)
    // on success the record is stored, under its own id, exactly as sent, and nothing else changes
    ensures r.Success? ==> r.value.1 == dto.value && dto.value.id.value in r.value.0 && r.value.0[dto.value.id.value] == dto.value
    ensures r.Success? ==> r.value.0.Keys == store.Keys + {dto.value.id.value}
    ensures r.Success? ==> forall k :: k in store && k != dto.value.id.value ==> r.value.0[k] == store[k]
  {
    if dto.None? then Failure(NullPointerException)
    else
      var c := dto.value;
      if HasRequiredFields(c) then
        if ExistsMatching(store, c.id.value, c.firstName.value, c.email.value) then Failure(ClientException(UserAlreadyExists))
        else Success(Save(store, c, c.id.value))
      else Failure(ClientException(RequiredFieldsEmpty))
  }

  /** A stored client that differs in first name or email is replaced, not reported. */
  lemma SaveClientReplacesPartialMatch(store: Store, c: ClientRecord)
    requires HasRequiredFields(c) && c.id.value in store
    requires store[c.id.value].email != c.email
    ensures SaveClient(store, Some(c)).Success?
    ensures SaveClient(store, Some(c)).value.0[c.id.value] == c
  {
  }

  /**
   * The request object as `updateClient` saves it. When the loaded list was
   * empty, the ORDER_DETAILS entry made the entity share the request's list
   * and appended that list to itself, so the request's list is doubled too.
   */
  function SavedRequest(entity: ClientRecord, request: ClientRecord): (saved: ClientRecord)
    ensures saved == request.(pendingOrders := saved.pendingOrders)
    ensures saved.pendingOrders.Some? <==> request.pendingOrders.Some?
    ensures request.pendingOrders.Some? && entity.pendingOrders == Some([]) ==>
              saved.pendingOrders.value == request.pendingOrders.value + request.pendingOrders.value
    ensures entity.pendingOrders != Some([]) ==> saved == request
  {
    if request.pendingOrders.Some? && entity.pendingOrders == Some([])
    then request.(pendingOrders := Some(MergeOrders([], request.pendingOrders.value)))
    else request
  }

  /**
   * `updateClient`: loads the client, runs every table entry on the loaded
   * entity, then saves and returns the request object rather than the entity.
   */
  function UpdateClient(store: Store, request: Option<ClientRecord>, id: string, generatedId: string): (r: Result<(Store, ClientRecord), Failure>)
    requires generatedId !in store
    ensures request.None? ==> r == Failure(ClientException(RequestNull))
    ensures request.Some? && id !in store ==> r == Failure(ClientException(UserNotFound))
    ensures request.Some? && id in store ==>
              (r.Failure? <==> request.value.pendingOrders.Some? && store[id].pendingOrders.None?)
    ensures request.Some? && id in store && r.Failure? ==> r.error == NullPointerException
    // what is saved is the request: none of the loaded record's field values reach the store
    ensures r.Success? ==>
              var q, c := request.value, r.value.1;
              c.id == Some(q.id.GetOr(generatedId)) &&
              c.firstName == q.firstName && c.lastName == q.lastName && c.email == q.email && c.address == q.address &&
              c.pendingOrders == (if q.pendingOrders.Some? && store[id].pendingOrders == Some([])
                                  then Some(q.pendingOrders.value + q.pendingOrders.value)
                                  else q.pendingOrders)
    ensures r.Success? ==> r.value.0 == store[r.value.1.id.value := r.value.1]
  {
    if request.None? then Failure(ClientException(RequestNull))
    else
      match GetClientById(store, id)
      case Failure(e) => Failure(e)
      case Success(entity) =>
        ApplyAllIsOverlay(entity, request.value, TableOrder);
        // the updated entity is computed and then dropped
        match ApplyAll(entity, request.value, TableOrder)
        case Failure(e) => Failure(e)
        case Success(_) => Success(Save(store, SavedRequest(entity, request.value), generatedId))
  }

  /** A request naming another id leaves the loaded client in place and writes under the request's id. */
  lemma UpdateClientWritesUnderRequestId(store: Store, q: ClientRecord, id: string, generatedId: string)
    requires generatedId !in store
    requires q.id.Some? && q.id.value != id
    requires UpdateClient(store, Some(q), id, generatedId).Success?
    ensures var s := UpdateClient(store, Some(q), id, generatedId).value.0;
            id in s && s[id] == store[id] && s[q.id.value].firstName == q.firstName
  {
  }

  /**
   * An all-null update is no no-op: the loaded client stays as it was, and a
   * blank record is inserted under the generated id.
   */
  lemma EmptyUpdateInsertsBlank(store: Store, id: string, generatedId: string)
    requires generatedId !in store && id in store
    ensures var blank := EmptyRequest.(id := Some(generatedId));
            UpdateClient(store, Some(EmptyRequest), id, generatedId) == Success((store[generatedId := blank], blank))
    ensures UpdateClient(store, Some(EmptyRequest), id, generatedId).value.0[id] == store[id]
  {
  }

  /** The order-details request of `updateClientOrdersByClientId`: only the singleton list is set. */
  function OrdersRequest(orderDetails: OrderDetail): (request: ClientRecord)
    ensures forall g: ClientField :: g.IsScalar() ==> Scalar(request, g).None?
    ensures request.pendingOrders == Some([orderDetails])
  {
    EmptyRequest.(pendingOrders := Some([orderDetails]))
  }

  /** `updateClientOrdersByClientId`: runs only the ORDER_DETAILS entry, then saves the entity. */
  function UpdateClientOrders(store: Store, orderDetails: Option<OrderDetail>, id: string): (r: Result<(Store, ClientRecord), Failure>)
    ensures orderDetails.None? ==> r == Failure(ClientException(OrderDetailsEmpty))
    ensures orderDetails.Some? && id !in store ==> r == Failure(ClientException(UserNotFound))
    ensures orderDetails.Some? && id in store ==> (r.Failure? <==> store[id].pendingOrders.None?)
    ensures orderDetails.Some? && id in store && r.Failure? ==> r.error == NullPointerException
    ensures r.Success? ==> r.value.0 == store[id := r.value.1]
    ensures r.Success? ==> r.value.1 == store[id].(pendingOrders := r.value.1.pendingOrders)
    ensures r.Success? ==> r.value.1.pendingOrders.Some?
    ensures r.Success? ==>
              var before, after, o := store[id].pendingOrders.value, r.value.1.pendingOrders.value, orderDetails.value;
              (before != [] ==> after == before + [o]) && (before == [] ==> after == [o, o])
  {
    if orderDetails.None? then Failure(ClientException(OrderDetailsEmpty))
    else
      match GetClientById(store, id)
      case Failure(e) => Failure(e)
      case Success(entity) =>
        match ApplyEntry(OrderDetails, entity, OrdersRequest(orderDetails.value))
        case Failure(e) => Failure(e)
        case Success(updated) => Success(Save(store, updated, id))
  }

  /**
   * No merge by id: an order whose id is already pending is appended again,
   * leaving two pending orders with that id.
   */
  lemma UpdateClientOrdersDuplicatesId(store: Store, o: OrderDetail, id: string, j: nat)
    requires id in store && store[id].pendingOrders.Some?
    requires j < |store[id].pendingOrders.value| && store[id].pendingOrders.value[j].id == o.id
    ensures UpdateClientOrders(store, Some(o), id).Success?
    ensures var after := UpdateClientOrders(store, Some(o), id).value.1.pendingOrders.value;
            |after| == |store[id].pendingOrders.value| + 1 &&
            after[j].id == o.id && after[|after| - 1].id == o.id && j != |after| - 1
  {
  }

  /**
   * `updateClientOrderStatusByClientId`: the loaded client with the first
   * matching order's status set. The store itself is not written.
   */
  function UpdateClientOrderStatus(store: Store, orderId: Option<string>, newStatus: Option<string>, clientId: string): (r: Result<ClientRecord, Failure>)
    ensures clientId !in store ==> r == Failure(ClientException(UserNotFound))
    ensures clientId in store ==> (r.Failure? <==> store[clientId].pendingOrders.None?)
    ensures clientId in store && r.Failure? ==> r.error == NullPointerException
    ensures r.Success? ==> r.value == store[clientId].(pendingOrders := r.value.pendingOrders)
    ensures r.Success? ==> r.value.pendingOrders.Some?
    ensures r.Success? ==>
              var before, after := store[clientId].pendingOrders.value, r.value.pendingOrders.value;
              |after| == |before| &&
              (forall j :: 0 <= j < |before| && j != FirstMatch(before, orderId) ==> after[j] == before[j]) &&
              (FirstMatch(before, orderId) < |before| ==>
                 after[FirstMatch(before, orderId)] == before[FirstMatch(before, orderId)].(orderStatus := newStatus))
  {
    match GetClientById(store, clientId)
    case Failure(e) => Failure(e)
    case Success(entity) =>
      if entity.pendingOrders.None? then Failure(NullPointerException)
      else Success(entity.(pendingOrders := Some(PatchStatus(entity.pendingOrders.value, orderId, newStatus))))
  }

  /** `deleteClientById`: the success message, or "User not found" from the lookup. */
  function DeleteClientById(store: Store, id: string): (r: Result<(Store, string), Failure>)
    ensures r.Success? <==> id in store
    ensures r.Failure? ==> r.error == ClientException(UserNotFound)
    ensures r.Success? ==> r.value.0.Keys == store.Keys - {id} && forall k :: k in r.value.0 ==> r.value.0[k] == store[k]
    ensures r.Success? ==> r.value.1 == "Client with id: " + id + " was successfully deleted"
  {
    match GetClientById(store, id)
    case Failure(e) => Failure(e)
    case Success(entity) => Success((store - {entity.id.value}, "Client with id: " + id + " was successfully deleted"))
  }
}
