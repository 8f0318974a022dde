# Client service of the inventory-management microservices, in Dafny

This project models the client service of the users microservice
(`ClientServiceImpl`) and two small helpers: the role-name prefixing of
`UserEntity` and the `InventoryMapper` of the inventory service.

The client service keeps client records in a document store. A record has an
id, a first name, a last name, an email, an address and a list of pending
orders. Every field is a Java reference that may be null. The service patches
records through a field-update table. The table has one entry per client field
and each entry mutates the loaded entity in place. The model has two layers:

- **Values** (`ClientModel`, `FieldTable`, `OrderStatus`, `ClientServiceSpec`).
  Each table entry and each service operation is a function on records and on
  the store. The store is a map from id to record whose keys are the records'
  own ids. Lemmas state the fields an entry changes, that the entry order does
  not matter, and what each operation writes, returns or throws.
- **Objects** (`Entities`, `ClientServiceImpl`). Clients and their order lists
  are classes, so two clients can share one list object, as in Java. The
  table entries (`ApplyField`) and the service methods (`ClientService`)
  mutate these objects step by step, and each method is proved to agree with
  its value-level function.

The client mapper is taken as the identity, so `ClientDTO` and `ClientEntity`
share one shape. It is `ClientRecord` as a value and `Client` as an object.
The store is modelled as an in-memory map. A load copies a record into fresh
objects. A save writes a record back. A save of a record with a null id stores
it under an id that the database generates; that id is a parameter, and it
must not be in use yet.

### Behaviour of the code that the model preserves

- ORDER_DETAILS does not match orders by id. On a non-empty list it appends the
  request's orders. On an empty list it first makes the request's list the
  entity's list (line 62) and then appends that list to itself (line 64), so
  the request's orders appear twice (`FieldTable.MergeOrders`). This looks like
  a defect; the model keeps it.
- Line 62 makes the entity share the request's list object. So when the stored
  list was empty, the doubling also reaches the request object. `updateClient`
  saves that request object (line 103) and never the patched entity. The
  record it stores therefore has the request's fields, with a doubled list in
  that case (`ClientServiceSpec.SavedRequest`, `ClientServiceSpec.UpdateClient`).
- `updateClient` writes under the request's id, or under a generated id when
  the request's id is null, and not under the path id.
- A null entity list makes ORDER_DETAILS throw a NullPointerException. The same
  holds for the status scan. Records with a null list do reach the store,
  because `updateClient` saves raw requests.
- `updateClientOrderStatusByClientId` patches the first order whose id matches
  and never saves.
- In `deleteClientById` the entity is never null. The "not found" throw at
  line 143 cannot be reached; a missing id is reported by the lookup instead.
- `getRoleWithPrefix` concatenates in Java, so a null role gives "ROLE_null".
  The prefixed name determines the role only among non-null roles.

## Model

| member | source | states |
|---|---|---|
| `FieldTable.MergeOrders` | us-service/src/main/java/com/cesar/usservice/service/implementation/ClientServiceImpl.java:61-64 | on a non-empty list the result is the old list followed by the request's list, so it grows by exactly the request's length; on an empty list it is the request's list twice |
| `FieldTable.ApplyEntry` | us-service/src/main/java/com/cesar/usservice/service/implementation/ClientServiceImpl.java:34-66 | a string entry never throws; with a null request value it leaves the entity unchanged; otherwise its own field takes the request's value and all other fields and the orders stay. ORDER_DETAILS is a no-op for a null request list, throws NullPointerException exactly for a null entity list, and otherwise keeps the string fields and sets the orders to MergeOrders |
| `FieldTable.ApplyAllIsOverlay` | us-service/src/main/java/com/cesar/usservice/service/implementation/ClientServiceImpl.java:99-101 | running any duplicate-free set of entries, in any order, gives the field-by-field overlay of the request on the entity, or NullPointerException exactly when ORDER_DETAILS meets a null entity list |
| `FieldTable.TableOrderIrrelevant` | us-service/src/main/java/com/cesar/usservice/service/implementation/ClientServiceImpl.java:99-101 | every arrangement of the six entries gives the same result as the declaration order, so the map's iteration order does not matter |
| `FieldTable.EmptyRequestIsNoOp` | us-service/src/main/java/com/cesar/usservice/service/implementation/ClientServiceImpl.java:33-66 | a request with every field null leaves the entity exactly as it was |
| `FieldTable.ApplyAllAppend` | us-service/src/main/java/com/cesar/usservice/service/implementation/ClientServiceImpl.java:99-101 | running two lists of entries back to back equals running the first, then the second on its result, stopping at the first exception |
| `FieldTable.ApplyAll` | us-service/src/main/java/com/cesar/usservice/service/implementation/ClientServiceImpl.java:99-101 | running a list of entries can only fail with NullPointerException, only when ORDER_DETAILS is among them, the request has orders and the entity list is null; a list without ORDER_DETAILS always succeeds and leaves the orders alone |
| `Entities.ApplyField` | us-service/src/main/java/com/cesar/usservice/service/implementation/ClientServiceImpl.java:33-66 | the in-place entry leaves the entity object holding what ApplyEntry gives; the request object keeps its fields and its list object; ORDER_DETAILS on an empty entity list makes the entity share the request's list, and the request's list then holds the merged orders; a list the entity lets go of keeps its items; a throwing entry changes nothing |
| `ClientServiceImpl.RunTable` | us-service/src/main/java/com/cesar/usservice/service/implementation/ClientServiceImpl.java:99-101 | the loop over the table succeeds exactly when ApplyAll does; it leaves the entity as ApplyAll gives and the request as SavedRequest gives; its only failure is NullPointerException |
| `OrderStatus.FirstMatch` | us-service/src/main/java/com/cesar/usservice/service/implementation/ClientServiceImpl.java:127-128 | the returned index holds an order with the given id, no order before it does, and it equals the list length when no order matches |
| `OrderStatus.PatchStatus` | us-service/src/main/java/com/cesar/usservice/service/implementation/ClientServiceImpl.java:126-132 | length, every id and every total are kept; only the first match can change, and it gets the new status; with no match the list is unchanged |
| `OrderStatus.PatchStatusIdempotent` | us-service/src/main/java/com/cesar/usservice/service/implementation/ClientServiceImpl.java:128-129 | patching twice with the same order id and status gives the same list as patching once |
| `OrderStatus.LaterDuplicateUntouched` | us-service/src/main/java/com/cesar/usservice/service/implementation/ClientServiceImpl.java:128-130 | because of the break, a later order with the same id is left unchanged |
| `ClientServiceSpec.Save` | us-service/src/main/java/com/cesar/usservice/service/implementation/ClientServiceImpl.java:103 | the save stores the record under its id, or under the generated id when its id is null, returns it with that id, and leaves every other record unchanged; a null id takes a generated id not yet in use, so exactly one key is added |
| `ClientServiceSpec.GetClientById` | us-service/src/main/java/com/cesar/usservice/service/implementation/ClientServiceImpl.java:70-73 | succeeds exactly when the id is stored and then returns that record; otherwise throws "User not found" |
| `ClientServiceSpec.ExistsMatching` | us-service/src/main/java/com/cesar/usservice/service/implementation/ClientServiceImpl.java:83 | true exactly when some stored record has this id, first name and email |
| `ClientServiceSpec.ExistsMatchingAsWritten` | us-service/src/main/java/com/cesar/usservice/service/implementation/ClientServiceImpl.java:83 | with the query's arguments bound by position, it is true exactly when the record under the id has the given first name as its email and the given email as its first name |
| `ClientServiceSpec.SwappedQueryMissesDuplicate` | us-service/src/main/java/com/cesar/usservice/service/implementation/ClientServiceImpl.java:83 | for a stored client sent again unchanged, the intended query finds it and the query as bound does not |
| `ClientServiceSpec.SaveClient` | us-service/src/main/java/com/cesar/usservice/service/implementation/ClientServiceImpl.java:81-89 | throws "cannot be empty" when id, first name or email is null; throws "already exists" when a matching record is stored; otherwise stores the request exactly as sent under its id, returns it and changes no other record; a null request throws NullPointerException |
| `ClientServiceSpec.SaveClientReplacesPartialMatch` | us-service/src/main/java/com/cesar/usservice/service/implementation/ClientServiceImpl.java:83-86 | a stored client with the same id and a different email is overwritten, not reported |
| `ClientServiceSpec.UpdateClient` | us-service/src/main/java/com/cesar/usservice/service/implementation/ClientServiceImpl.java:92-104 | throws on a null request and on an unknown id; throws NullPointerException exactly when the request has orders and the stored list is null; otherwise stores and returns the request, not the patched entity: its string fields, its id (or the generated one), and its orders, doubled when the stored list was empty |
| `ClientServiceSpec.UpdateClientWritesUnderRequestId` | us-service/src/main/java/com/cesar/usservice/service/implementation/ClientServiceImpl.java:103 | a request whose id differs from the path id leaves the loaded client untouched and writes under the request's id |
| `ClientServiceSpec.SavedRequest` | us-service/src/main/java/com/cesar/usservice/service/implementation/ClientServiceImpl.java:62-64 | the request object as saved differs from the request only in its orders; with a stored empty list and request orders it holds those orders twice; in every other case it is the request unchanged |
| `ClientServiceSpec.EmptyUpdateInsertsBlank` | us-service/src/main/java/com/cesar/usservice/service/implementation/ClientServiceImpl.java:92-104 | an update whose every field is null succeeds, keeps the loaded client as it was and inserts a blank record under the generated id |
| `ClientServiceSpec.UpdateClientOrders` | us-service/src/main/java/com/cesar/usservice/service/implementation/ClientServiceImpl.java:107-120 | throws on null order details, an unknown id, or (NullPointerException) a null stored list; otherwise changes only the client's orders, to the old list plus the order (or the order twice when the list was empty), saves and returns the client |
| `ClientServiceSpec.UpdateClientOrdersDuplicatesId` | us-service/src/main/java/com/cesar/usservice/service/implementation/ClientServiceImpl.java:112-117 | an order whose id is already pending is appended again: the list grows by one and then holds two orders with that id |
| `ClientServiceSpec.OrdersRequest` | us-service/src/main/java/com/cesar/usservice/service/implementation/ClientServiceImpl.java:112-114 | the request built for one order has every string field null and the singleton list of that order |
| `ClientServiceSpec.UpdateClientOrderStatus` | us-service/src/main/java/com/cesar/usservice/service/implementation/ClientServiceImpl.java:123-134 | throws on an unknown id or (NullPointerException) a null list; otherwise returns the stored client with only the first matching order's status replaced, the length and all other orders unchanged; it returns no new store |
| `ClientServiceSpec.DeleteClientById` | us-service/src/main/java/com/cesar/usservice/service/implementation/ClientServiceImpl.java:137-144 | throws "User not found" when the id is unknown; otherwise removes exactly that record and returns the success message with the id |
| `ClientServiceImpl.ClientService.GetClientById` | us-service/src/main/java/com/cesar/usservice/service/implementation/ClientServiceImpl.java:70-73 | returns what ClientServiceSpec.GetClientById gives on the current store |
| `ClientServiceImpl.ClientService.Persist` | us-service/src/main/java/com/cesar/usservice/service/implementation/ClientServiceImpl.java:103 | the repository save: stores and returns what ClientServiceSpec.Save gives; a null id needs a generated id not yet in use |
| `ClientServiceImpl.ClientService.SaveClient` | us-service/src/main/java/com/cesar/usservice/service/implementation/ClientServiceImpl.java:81-89 | returns or throws what ClientServiceSpec.SaveClient gives, and leaves the store as it gives |
| `ClientServiceImpl.ClientService.UpdateClient` | us-service/src/main/java/com/cesar/usservice/service/implementation/ClientServiceImpl.java:92-104 | loads into fresh objects, runs the table loop and saves the request object; returns and stores what ClientServiceSpec.UpdateClient gives |
| `ClientServiceImpl.ClientService.UpdateClientOrdersByClientId` | us-service/src/main/java/com/cesar/usservice/service/implementation/ClientServiceImpl.java:107-120 | runs only the ORDER_DETAILS entry with a singleton list and saves the entity; the result and the store are what ClientServiceSpec.UpdateClientOrders gives |
| `ClientServiceImpl.ClientService.UpdateClientOrderStatusByClientId` | us-service/src/main/java/com/cesar/usservice/service/implementation/ClientServiceImpl.java:123-134 | the scan with break returns what ClientServiceSpec.UpdateClientOrderStatus gives; the method may not modify the service, so the store is unchanged |
| `ClientServiceImpl.ClientService.DeleteClientById` | us-service/src/main/java/com/cesar/usservice/service/implementation/ClientServiceImpl.java:137-144 | returns and stores what ClientServiceSpec.DeleteClientById gives |
| `Users.RoleWithPrefix` | us-service/src/main/java/com/cesar/usservice/model/UserEntity.java:26-28 | the result starts with "ROLE_", is 5 characters longer than the role's text, and dropping those 5 gives the role back (or "null" for a null role) |
| `Users.RoleWithPrefixInjective` | us-service/src/main/java/com/cesar/usservice/model/UserEntity.java:26-28 | two non-null roles with the same prefixed name are equal |
| `Users.NullRoleCollides` | us-service/src/main/java/com/cesar/usservice/model/UserEntity.java:27 | a null role and the role "null" both give "ROLE_null" |
| `Inventory.ToDto` | inv-service/src/main/java/com/cesar/invservice/dto/mapper/InventoryMapper.java:17-22 | the transfer object has the entity's item and sale price |
| `Inventory.ToEntity` | inv-service/src/main/java/com/cesar/invservice/dto/mapper/InventoryMapper.java:24-29 | the entity has the transfer object's item and sale price |
| `Inventory.MapperRoundTrips` | inv-service/src/main/java/com/cesar/invservice/dto/mapper/InventoryMapper.java:17-29 | converting an entity to a transfer object and back gives the entity again, and the reverse round trip gives the transfer object again |

## Findings

| source | as written | input that shows it | evidently intended | confidence | as-written member | corrected member |
|---|---|---|---|---|---|---|
| us-service/src/main/java/com/cesar/usservice/service/implementation/ClientServiceImpl.java:83 | `findByIdAndEmailAndFirstName(id, firstName, email)`: a Spring Data derived query binds its arguments by position, in the order of the properties in its name (Id, Email, FirstName), so the first name is compared with the stored email and the email with the stored first name | store holding `c1 = (c1, "Ann", "ann@example.com")`, then `saveClient` of that same record: not reported as existing, saved again | report "User already exists" when a record with this id, first name and email is stored | medium, not executed; it depends on how ClientRepository declares the query, and ClientRepository is not part of this model | `ClientServiceSpec.ExistsMatchingAsWritten`, `ClientServiceSpec.SwappedQueryMissesDuplicate` | `ClientServiceSpec.ExistsMatching` (used by `ClientServiceSpec.SaveClient`) |

## Left out

- ClientServiceSpec.SaveClient: uses the corrected duplicate query (see Findings), not the argument binding as written.
- ClientServiceImpl.ClientService.SaveClient: uses the same corrected duplicate query, through `ClientServiceSpec.ExistsMatching`.
- Java's `List.of` at line 113 returns an immutable list. On a client with an empty list, line 62 installs it and line 64's `addAll` would throw UnsupportedOperationException. The model treats lists as mutable sequences, so `UpdateClientOrders` yields the order twice there instead of throwing.
- `getClientByOrderId` returns null unconditionally (lines 76-78); it has no behaviour to model.
- The repositories are Spring Data / MongoDB interfaces. Only a keyed in-memory map is modelled, with find by id, save (upsert) and delete. Query derivation, document mapping and id generation are out. The generated id is a parameter, and the operations that can save a null-id record require it to be absent from the store, as a database-generated id is.
- The order of `EnumMap` iteration follows the `ClientField` enum's declaration, which is not part of this model. The model assumes the order in which the entries are put. `FieldTable.TableOrderIrrelevant` shows that the order cannot change the outcome.
- Path ids are non-null strings. A null id passed to `findById` is not modelled.
- Order details are values, not objects. The status patch replaces one element. Two list slots holding one shared order object occur only inside `updateClient`, whose list is never patched afterwards. A null element in a pending-orders list is not modelled; `orderDetails.getId()` at ClientServiceImpl.java:128 would throw NullPointerException on it before any match. A null argument to the inventory mapper's `toDTO` or `toEntity` is not modelled either; it would throw at InventoryMapper.java:19 or :26.
- OrderDetails and InventoryEntity are not part of this model beyond the fields the core reads or copies. An order has an id, a status string and an integer total. The inventory item and sale price are opaque type parameters, with no decimal or floating-point semantics.
- Exception classes are reduced to their kinds. A ClientException carries the literal message, and null dereferences become NullPointerException.
- Loads and saves are not atomic, so a concurrent writer could cause a lost update. Concurrency is not modelled.
- Lombok builders and annotations, the Spring bootstrap and admin seeding (AuthServiceApplication.java), BCrypt hashing, UserRepository and OrderService (an interface without bodies) are not part of this model.
- ClientServiceImpl has no keyword search and no single-order deletion; `getClientByOrderId` is covered above.
