/** The orders service: the existence check against the customers service,
    the admission of an order on its answer, and the order lookups. */
module Orders {
  import opened Http
  import opened Tables

  /** The body of an order creation request (`schemas.OrderCreate`). */
  datatype OrderCreate = OrderCreate(customerId: int, total: real)

  /** The columns of a stored order; `date` is the creation time the store
      stamps on it. */
  datatype OrderFields = OrderFields(customerId: int, date: Timestamp, total: real)

  /** A point in time, as the store's clock gives it. */
  type Timestamp = int

  type Order = Row<OrderFields>

  type OrderStore = Table<OrderFields>

  const CustomerNotFound := HttpError(StatusNotFound, "Cliente no encontrado")
  const OrderNotFound := HttpError(StatusNotFound, "Orden no encontrada")

  // ---------------------------------------------------------------------
  // The existence check

  /** The body of an HTTP answer as `response.json()` sees it. */
  datatype Body = Malformed | Parsed(value: Json)

  /** How the GET of `/customers/{id}/exists` ended: with an exception
      before any answer (connection refused, timeout, ...) or with an
      answer. */
  datatype RemoteCall = TransportFailure | Answered(status: int, body: Body)

  /** `verify_customer_exists`: the Python value it returns. On 200 it is
      `response.json().get("exists", False)`; any other status gives
      `False` without reading the body; every exception inside the `try`,
      including a body that is not JSON or not an object, gives `True`. */
  function VerifyCustomerExists(call: RemoteCall): (v: Json)
    ensures call.TransportFailure? ==> v == JBool(true)
    ensures call.Answered? && call.status != StatusOk ==> v == JBool(false)
    ensures call.Answered? && call.status == StatusOk && call.body.Malformed? ==> v == JBool(true)
    ensures call.Answered? && call.status == StatusOk && call.body.Parsed? ==>
              var j := call.body.value;
              && (!j.JObject? ==> v == JBool(true))
              && (j.JObject? && "exists" in j.fields ==> v == j.fields["exists"])
              && (j.JObject? && "exists" !in j.fields ==> v == JBool(false))
  {
    match call
    case TransportFailure => JBool(true)
    case Answered(status, body) =>
      if status != StatusOk then JBool(false)
      else
        match body
        case Malformed => JBool(true)
        case Parsed(j) =>
          if !j.JObject? then JBool(true)
          else if "exists" in j.fields then j.fields["exists"]
          else JBool(false)
  }

  /** `if not customer_exists`: the gate of `create_order`. An order is
      admitted exactly when the call failed, the 200 body could not be read
      as an object, or the object's `exists` is truthy; a missing `exists`
      and every other status refuse it. */
  function Admits(call: RemoteCall): (ok: bool)
    ensures ok <==>
              || call.TransportFailure?
              || (&& call.Answered? && call.status == StatusOk
                  && (|| call.body.Malformed?
                      || !call.body.value.JObject?
                      || ("exists" in call.body.value.fields
                          && Truthy(call.body.value.fields["exists"]))))
  {
    Truthy(VerifyCustomerExists(call))
  }

  // ---------------------------------------------------------------------
  // Endpoints

  /** `create_order`: refused with 404 and nothing stored unless the check
      admits; otherwise exactly one order is appended, under a fresh key,
      with the request's customer and total and the current time. */
  function CreateOrder(s: OrderStore, req: OrderCreate, call: RemoteCall, now: Timestamp)
    : (r: Handled<OrderStore, Order>)
    ensures !Admits(call) ==> r == Handled(s, Err(CustomerNotFound))
    ensures Admits(call) ==>
              && r.result.Ok?
              && r.state.rows == s.rows + [r.result.value]
              && r.result.value.fields == OrderFields(req.customerId, now, req.total)
    ensures Valid(s) ==> Valid(r.state)
    ensures Valid(s) && r.result.Ok? ==> !HasId(s.rows, r.result.value.id)
  {
    if !Admits(call) then Handled(s, Err(CustomerNotFound))
    else
      var (s', row) := Insert(s, OrderFields(req.customerId, now, req.total));
      Handled(s', Ok(row))
  }

  /** `get_order`: the stored order with that key, or 404. */
  function GetOrder(s: OrderStore, id: int): (r: Result<Order>)
    ensures r.Ok? <==> HasId(s.rows, id)
    ensures r.Ok? ==> r.value in s.rows && r.value.id == id
    ensures r.Err? ==> r.error == OrderNotFound
  {
    match Lookup(s.rows, id)
    case None => Err(OrderNotFound)
    case Some(o) => Ok(o)
  }

  /** The orders of one customer, in store order. */
  function OrdersOf(rows: seq<Order>, customerId: int): seq<Order>
    decreases |rows|
  {
    if |rows| == 0 then []
    else
      var last := rows[|rows| - 1];
      OrdersOf(rows[..|rows| - 1], customerId) + (if last.fields.customerId == customerId then [last] else [])
  }

  /** `get_orders_by_customer`: one pass over the store keeping the
      customer's orders. */
  method GetOrdersByCustomer(s: OrderStore, customerId: int) returns (r: seq<Order>)
    ensures r == OrdersOf(s.rows, customerId)
    ensures forall o :: o in r <==> o in s.rows && o.fields.customerId == customerId
  {
    r := [];
    var i := 0;
    while i < |s.rows|
      invariant 0 <= i <= |s.rows|
      invariant r == OrdersOf(s.rows[..i], customerId)
    {
      OrdersOfAppend(s.rows[..i], s.rows[i], customerId);
      assert s.rows[..i + 1] == s.rows[..i] + [s.rows[i]];
      if s.rows[i].fields.customerId == customerId {
        r := r + [s.rows[i]];
      }
      i := i + 1;
    }
    assert s.rows[..i] == s.rows;
    OrdersOfMembers(s.rows, customerId);
  }

  lemma OrdersOfAppend(rows: seq<Order>, o: Order, customerId: int)
    ensures OrdersOf(rows + [o], customerId)
            == OrdersOf(rows, customerId) + (if o.fields.customerId == customerId then [o] else [])
  {
    assert (rows + [o])[..|rows|] == rows;
  }

  /** Exactly the customer's orders are kept. */
  lemma {:induction false} OrdersOfMembers(rows: seq<Order>, customerId: int)
    ensures forall o :: o in OrdersOf(rows, customerId) <==> o in rows && o.fields.customerId == customerId
    decreases |rows|
  {
    if |rows| > 0 {
      var front := rows[..|rows| - 1];
      OrdersOfMembers(front, customerId);
      assert rows == front + [rows[|rows| - 1]];
    }
  }

  /** Keys strictly increase along the sequence. */
  predicate Ascending(rows: seq<Order>) {
    forall i, j :: 0 <= i < j < |rows| ==> rows[i].id < rows[j].id
  }

  /** The kept orders are in store order: where the store's keys increase,
      so do theirs. */
  lemma {:induction false} OrdersOfInStoreOrder(rows: seq<Order>, customerId: int)
    requires Ascending(rows)
    ensures Ascending(OrdersOf(rows, customerId))
    decreases |rows|
  {
    if |rows| > 0 {
      var front := rows[..|rows| - 1];
      var last := rows[|rows| - 1];
      assert Ascending(front);
      OrdersOfInStoreOrder(front, customerId);
      OrdersOfMembers(front, customerId);
      var kept := OrdersOf(front, customerId);
      forall k | 0 <= k < |kept| ensures kept[k].id < last.id {
        assert kept[k] in front;
        var m :| 0 <= m < |front| && front[m] == kept[k];
      }
      AscendingAppend(kept, last);
    }
  }

  lemma AscendingAppend(kept: seq<Order>, last: Order)
    requires Ascending(kept)
    requires forall k :: 0 <= k < |kept| ==> kept[k].id < last.id
    ensures Ascending(kept + [last])
  {
  }

  /** The orders `get_orders_by_customer` returns to a valid store come in
      increasing key order. */
  lemma OrdersOfValidStoreAscending(s: OrderStore, customerId: int)
    requires Valid(s)
    ensures Ascending(OrdersOf(s.rows, customerId))
  {
    OrdersOfInStoreOrder(s.rows, customerId);
  }

  /** An admitted order joins the end of its customer's list; every other
      customer's list is unchanged. */
  lemma OrdersAfterCreate(s: OrderStore, req: OrderCreate, call: RemoteCall, now: Timestamp, customerId: int)
    requires Admits(call)
    ensures var h := CreateOrder(s, req, call, now);
            OrdersOf(h.state.rows, customerId)
            == OrdersOf(s.rows, customerId) + (if req.customerId == customerId then [h.result.value] else [])
  {
    var h := CreateOrder(s, req, call, now);
    OrdersOfAppend(s.rows, h.result.value, customerId);
  }

  /** An admitted order is found by its key afterwards, and every key found
      before is still found. */
  lemma CreatedOrderIsFound(s: OrderStore, req: OrderCreate, call: RemoteCall, now: Timestamp, id: int)
    requires Valid(s) && Admits(call)
    ensures var h := CreateOrder(s, req, call, now);
            && GetOrder(h.state, h.result.value.id) == Ok(h.result.value)
            && (HasId(s.rows, id) ==> GetOrder(h.state, id) == GetOrder(s, id))
  {
    var fields := OrderFields(req.customerId, now, req.total);
    LookupAfterInsert(s, fields, id);
    LookupAfterInsert(s, fields, s.nextId);
  }
}
