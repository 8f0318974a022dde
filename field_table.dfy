/**
 * The field-update table of the client service, on values: one entry per
 * client field, each taking the loaded entity and the request and giving
 * the entity as the entry leaves it (or the exception it throws).
 */
module FieldTable {
  import opened Wrappers
  import opened ClientModel

  /**
   * The ORDER_DETAILS entry's list update: when the entity's list is empty
   * the request's list becomes the entity's list, and then the request's
   * list is appended to whatever the entity's list now is. Nothing is
   * matched by order id.
   */
  function MergeOrders(current: seq<OrderDetail>, incoming: seq<OrderDetail>): (merged: seq<OrderDetail>)
    ensures current != [] ==> |merged| == |current| + |incoming|
    ensures current != [] ==> merged[..|current|] == current && merged[|current|..] == incoming
    ensures current == [] ==> |merged| == 2 * |incoming|
    ensures current == [] ==> merged[..|incoming|] == incoming && merged[|incoming|..] == incoming
  {
    var target := if current == [] then incoming else current;
    target + incoming
  }

  /** One entry of the table, applied to `entity` with `request`. */
  function ApplyEntry(f: ClientField, entity: ClientRecord, request: ClientRecord): (r: Result<ClientRecord, Failure>)
    // a string entry never throws, changes at most its own field, and copies only a non-null value
    ensures f.IsScalar() ==> r.Success? && r.value.pendingOrders == entity.pendingOrders
    ensures f.IsScalar() ==> Scalar(r.value, f) == (if Scalar(request, f).Some? then Scalar(request, f) else Scalar(entity, f))
    ensures f.IsScalar() ==> forall g: ClientField :: g.IsScalar() && g != f ==> Scalar(r.value, g) == Scalar(entity, g)
    ensures f.IsScalar() && Scalar(request, f).None? ==> r == Success(entity)
    // the ORDER_DETAILS entry: a no-op for a null request list, a NullPointerException for a null entity list
    ensures f == OrderDetails && request.pendingOrders.None? ==> r == Success(entity)
    ensures f == OrderDetails ==> (r.Failure? <==> request.pendingOrders.Some? && entity.pendingOrders.None?)
    ensures f == OrderDetails && r.Failure? ==> r.error == NullPointerException
    ensures f == OrderDetails && r.Success? ==> forall g: ClientField :: g.IsScalar() ==> Scalar(r.value, g) == Scalar(entity, g)
    ensures f == OrderDetails && r.Success? && request.pendingOrders.Some? ==>
              r.value.pendingOrders == Some(MergeOrders(entity.pendingOrders.value, request.pendingOrders.value))
  {
    match f
    case Id => Success(if request.id.Some? then entity.(id := request.id) else entity)
    case FirstName => Success(if request.firstName.Some? then entity.(firstName := request.firstName) else entity)
    case LastName => Success(if request.lastName.Some? then entity.(lastName := request.lastName) else entity)
    case Email => Success(if request.email.Some? then entity.(email := request.email) else entity)
    case Address => Success(if request.address.Some? then entity.(address := request.address) else entity)
    case OrderDetails =>
      if request.pendingOrders.None? then Success(entity)
      else if entity.pendingOrders.None? then Failure(NullPointerException)
      else Success(entity.(pendingOrders := Some(MergeOrders(entity.pendingOrders.value, request.pendingOrders.value))))
  }

  /** The entries named by `fields`, applied one after the other, stopping at the first exception. */
  function ApplyAll(entity: ClientRecord, request: ClientRecord, fields: seq<ClientField>): (r: Result<ClientRecord, Failure>)
    // only ORDER_DETAILS can throw, and only with a null entity list
    ensures r.Failure? ==> r.error == NullPointerException && OrderDetails in fields
    ensures r.Failure? ==> request.pendingOrders.Some? && entity.pendingOrders.None?
    // string entries alone never throw and never touch the orders
    ensures OrderDetails !in fields ==> r.Success? && r.value.pendingOrders == entity.pendingOrders
    decreases |fields|
  {
    if fields == [] then Success(entity)
    else
      match ApplyEntry(fields[0], entity, request)
      case Failure(e) => Failure(e)
      case Success(next) => ApplyAll(next, request, fields[1..])
  }

  /** Running `a ++ b` is running `a`, then `b` on its result. */
  lemma {:induction false} ApplyAllAppend(entity: ClientRecord, request: ClientRecord, a: seq<ClientField>, b: seq<ClientField>)
    ensures ApplyAll(entity, request, a + b) ==
              match ApplyAll(entity, request, a)
              case Failure(e) => Failure(e)
              case Success(m) => ApplyAll(m, request, b)
    decreases |a|
  {
    if a == [] {
      assert a + b == b;
    } else {
      assert (a + b)[0] == a[0] && (a + b)[1..] == a[1..] + b;
      match ApplyEntry(a[0], entity, request)
      case Failure(_) =>
      case Success(next) => ApplyAllAppend(next, request, a[1..], b);
    }
  }

  /** No field is named twice. */
  predicate Distinct(fields: seq<ClientField>) {
    forall i, j :: 0 <= i < j < |fields| ==> fields[i] != fields[j]
  }

  // Reference definition of what a set of entries does, field by field.

  /** A string field after the entries in `applied`: the request's value if it has one and its entry ran. */
  function Picked(entity: ClientRecord, request: ClientRecord, applied: set<ClientField>, f: ClientField): Option<string>
    requires f.IsScalar()
  {
    if f in applied && Scalar(request, f).Some? then Scalar(request, f) else Scalar(entity, f)
  }

  /** The entries in `applied` throw exactly when ORDER_DETAILS meets a null entity list. */
  predicate Throws(entity: ClientRecord, request: ClientRecord, applied: set<ClientField>) {
    OrderDetails in applied && request.pendingOrders.Some? && entity.pendingOrders.None?
  }

  /** The entity after the entries in `applied`, when they do not throw. */
  function Overlay(entity: ClientRecord, request: ClientRecord, applied: set<ClientField>): ClientRecord {
    ClientRecord(
      Picked(entity, request, applied, Id),
      Picked(entity, request, applied, FirstName),
      Picked(entity, request, applied, LastName),
      Picked(entity, request, applied, Email),
      Picked(entity, request, applied, Address),
      if OrderDetails in applied && request.pendingOrders.Some? && entity.pendingOrders.Some?
      then Some(MergeOrders(entity.pendingOrders.value, request.pendingOrders.value))
      else entity.pendingOrders)
  }

  /** Running one more entry on an overlay gives the overlay of the larger set. */
  lemma OverlayStep(entity: ClientRecord, request: ClientRecord, applied: set<ClientField>, f: ClientField)
    requires f !in applied
    ensures ApplyEntry(f, Overlay(entity, request, applied), request).Failure? <==> Throws(entity, request, applied + {f}) && !Throws(entity, request, applied)
    ensures ApplyEntry(f, Overlay(entity, request, applied), request).Failure? ==>
              ApplyEntry(f, Overlay(entity, request, applied), request).error == NullPointerException
    ensures ApplyEntry(f, Overlay(entity, request, applied), request).Success? ==>
              ApplyEntry(f, Overlay(entity, request, applied), request).value == Overlay(entity, request, applied + {f})
  {
  }

  /**
   * Applying distinct entries in any order gives the field-by-field
   * overlay of the request on the entity, or a NullPointerException
   * exactly when ORDER_DETAILS meets a null entity list.
   */
  lemma {:induction false} ApplyAllIsOverlay(entity: ClientRecord, request: ClientRecord, fields: seq<ClientField>)
    requires Distinct(fields)
    ensures ApplyAll(entity, request, fields) ==
              if Throws(entity, request, set f | f in fields) then Failure(NullPointerException)
              else Success(Overlay(entity, request, set f | f in fields))
  {
    ApplyAllFromOverlay(entity, request, {}, fields);
    assert Overlay(entity, request, {}) == entity;
    assert {} + (set f | f in fields) == (set f | f in fields);
  }

  /** The inductive form: entries run on an overlay that has already taken `applied`. */
  lemma {:induction false} ApplyAllFromOverlay(entity: ClientRecord, request: ClientRecord, applied: set<ClientField>, fields: seq<ClientField>)
    requires Distinct(fields)
    requires forall f :: f in fields ==> f !in applied
    requires !Throws(entity, request, applied)
    ensures ApplyAll(Overlay(entity, request, applied), request, fields) ==
              if Throws(entity, request, applied + set f | f in fields) then Failure(NullPointerException)
              else Success(Overlay(entity, request, applied + set f | f in fields))
    decreases |fields|
  {
    if fields == [] {
      assert applied + (set f | f in fields) == applied;
    } else {
      var f := fields[0];
      var rest := fields[1..];
      assert (set g | g in fields) == {f} + (set g | g in rest);
      OverlayStep(entity, request, applied, f);
      var r := ApplyEntry(f, Overlay(entity, request, applied), request);
      if r.Success? {
        assert Distinct(rest) by {
          forall i, j | 0 <= i < j < |rest| ensures rest[i] != rest[j] {
            assert rest[i] == fields[i + 1] && rest[j] == fields[j + 1];
          }
        }
        forall g | g in rest ensures g !in applied + {f} {
          var k :| 0 <= k < |rest| && rest[k] == g;
          assert fields[k + 1] == g;
        }
        ApplyAllFromOverlay(entity, request, applied + {f}, rest);
        assert applied + {f} + (set g | g in rest) == applied + (set g | g in fields);
      } else {
        assert Throws(entity, request, applied + set g | g in fields);
      }
    }
  }

  /** The entry order does not matter: any arrangement of the table gives the same entity. */
  lemma TableOrderIrrelevant(entity: ClientRecord, request: ClientRecord, fields: seq<ClientField>)
    requires Distinct(fields)
    requires (set f | f in fields) == (set f | f in TableOrder)
    ensures ApplyAll(entity, request, fields) == ApplyAll(entity, request, TableOrder)
  {
    ApplyAllIsOverlay(entity, request, fields);
    ApplyAllIsOverlay(entity, request, TableOrder);
  }

  /** A request with every field null leaves the entity as it was, whatever entries run. */
  lemma EmptyRequestIsNoOp(entity: ClientRecord, fields: seq<ClientField>)
    requires Distinct(fields)
    ensures ApplyAll(entity, EmptyRequest, fields) == Success(entity)
  {
  }
}
