/**
 * The client record of the users service. With the client mapper taken as
 * the identity, ClientEntity and ClientDTO have one shape; every field is a
 * Java reference and may be null.
 */
module ClientModel {
  import opened Wrappers

  /** One entry of a client's pending orders. */
  datatype OrderDetail = OrderDetail(id: Option<string>, orderStatus: Option<string>, total: int)

  /** A client as stored, loaded, or sent as a (partial) request. */
  datatype ClientRecord = ClientRecord(
    id: Option<string>,
    firstName: Option<string>,
    lastName: Option<string>,
    email: Option<string>,
    address: Option<string>,
    pendingOrders: Option<seq<OrderDetail>>)

  /** The keys of the field-update table. */
  datatype ClientField = Id | FirstName | LastName | Email | Address | OrderDetails {
    /** The five entries that copy a single string field. */
    predicate IsScalar() { !OrderDetails? }
  }

  /** The order in which `updateClient` visits the table (the enum's declaration order). */
  const TableOrder: seq<ClientField> := [Id, FirstName, LastName, Email, Address, OrderDetails]

  /** The value of a string field of a record. */
  function Scalar(c: ClientRecord, f: ClientField): Option<string>
    requires f.IsScalar()
  {
    match f
    case Id => c.id
    case FirstName => c.firstName
    case LastName => c.lastName
    case Email => c.email
    case Address => c.address
    case OrderDetails => None
  }

  /** A request in which every field is null. */
  const EmptyRequest: ClientRecord := ClientRecord(None, None, None, None, None, None)

  /** The exceptions the service lets escape. */
  datatype Failure = ClientException(message: string) | NullPointerException

  const UserNotFound := "User not found"
  const UserAlreadyExists := "User already exists"
  const RequiredFieldsEmpty := "User id, email and first name cannot be empty"
  const RequestNull := "User request cannot be null"
  const OrderDetailsEmpty := "The order details cannot be empty"
}
