/** The services together: the orders service asking the customers service
    whether a customer exists, and what that means for the stored data. */
module System {
  import opened Http
  import opened Tables
  import Customers
  import Orders
  import Products
  import Markup

  /** The existence call as it goes when the customers service is up: a 200
      answer whose body is the JSON of `check_customer_exists`. */
  function ExistsCall(cs: Customers.CustomerStore, id: int): Orders.RemoteCall {
    Orders.Answered(StatusOk, Orders.Parsed(Customers.ExistsReplyJson(Customers.CheckCustomerExists(cs, id))))
  }

  /** With the customers service up, the order gate opens exactly for stored
      customers, which are exactly those `get_customer` finds. */
  lemma AdmitsIffStored(cs: Customers.CustomerStore, id: int)
    ensures Orders.Admits(ExistsCall(cs, id)) <==> HasId(cs.rows, id)
    ensures Orders.Admits(ExistsCall(cs, id)) <==> Customers.GetCustomer(cs, id).Ok?
  {
  }

  /** An order for an unknown customer is refused with 404 and stores
      nothing. */
  lemma UnknownCustomerRejected(cs: Customers.CustomerStore, os: Orders.OrderStore,
                                req: Orders.OrderCreate, now: Orders.Timestamp)
    requires !HasId(cs.rows, req.customerId)
    ensures Orders.CreateOrder(os, req, ExistsCall(cs, req.customerId), now)
            == Handled(os, Err(Orders.CustomerNotFound))
  {
    AdmitsIffStored(cs, req.customerId);
  }

  /** An order for a stored customer is accepted and stored. */
  lemma KnownCustomerAccepted(cs: Customers.CustomerStore, os: Orders.OrderStore,
                              req: Orders.OrderCreate, now: Orders.Timestamp)
    requires HasId(cs.rows, req.customerId)
    ensures var h := Orders.CreateOrder(os, req, ExistsCall(cs, req.customerId), now);
            && h.result.Ok?
            && h.state.rows == os.rows + [h.result.value]
            && h.result.value.fields == Orders.OrderFields(req.customerId, now, req.total)
  {
    AdmitsIffStored(cs, req.customerId);
  }

  /** Every stored order names a stored customer. */
  predicate OrdersReferToCustomers(os: Orders.OrderStore, cs: Customers.CustomerStore) {
    forall k :: 0 <= k < |os.rows| ==> HasId(cs.rows, os.rows[k].fields.customerId)
  }

  lemma HasIdAppend<F>(rows: seq<Row<F>>, row: Row<F>, id: int)
    requires HasId(rows, id)
    ensures HasId(rows + [row], id)
  {
    var i :| 0 <= i < |rows| && rows[i].id == id;
    assert (rows + [row])[i].id == id;
  }

  /** While the customers service answers, creating an order keeps every
      order pointing at a stored customer. */
  lemma CreateOrderKeepsReferences(cs: Customers.CustomerStore, os: Orders.OrderStore,
                                   req: Orders.OrderCreate, now: Orders.Timestamp)
    requires OrdersReferToCustomers(os, cs)
    ensures OrdersReferToCustomers(Orders.CreateOrder(os, req, ExistsCall(cs, req.customerId), now).state, cs)
  {
    AdmitsIffStored(cs, req.customerId);
    var h := Orders.CreateOrder(os, req, ExistsCall(cs, req.customerId), now);
    if Orders.Admits(ExistsCall(cs, req.customerId)) {
      forall k | 0 <= k < |h.state.rows| ensures HasId(cs.rows, h.state.rows[k].fields.customerId) {
        if k < |os.rows| {
          assert h.state.rows[k] == os.rows[k];
        }
      }
    }
  }

  /** Creating a customer never breaks a reference: customers are only
      added. */
  lemma CreateCustomerKeepsReferences(cs: Customers.CustomerStore, os: Orders.OrderStore,
                                      req: Customers.CustomerFields)
    requires OrdersReferToCustomers(os, cs)
    ensures OrdersReferToCustomers(os, Customers.CreateCustomer(cs, req).state)
  {
    var h := Customers.CreateCustomer(cs, req);
    if h.result.Ok? {
      forall k | 0 <= k < |os.rows| ensures HasId(h.state.rows, os.rows[k].fields.customerId) {
        HasIdAppend(cs.rows, h.result.value, os.rows[k].fields.customerId);
      }
    }
  }

  /** Fail-open: when the customers service cannot be reached, an order for
      a customer that does not exist is stored, and the references break. */
  lemma OutageAdmitsUnknownCustomer(cs: Customers.CustomerStore, os: Orders.OrderStore,
                                    req: Orders.OrderCreate, now: Orders.Timestamp)
    requires !HasId(cs.rows, req.customerId)
    ensures var h := Orders.CreateOrder(os, req, Orders.TransportFailure, now);
            && h.result.Ok?
            && !OrdersReferToCustomers(h.state, cs)
  {
    var h := Orders.CreateOrder(os, req, Orders.TransportFailure, now);
    assert h.state.rows[|os.rows|] == h.result.value;
  }

  /** The other way round: a customers service that answers with an error
      status blocks orders for every customer, stored or not. */
  lemma ErrorStatusRejectsKnownCustomer(os: Orders.OrderStore, req: Orders.OrderCreate,
                                        now: Orders.Timestamp, status: int, body: Orders.Body)
    requires status != StatusOk
    ensures Orders.CreateOrder(os, req, Orders.Answered(status, body), now)
            == Handled(os, Err(Orders.CustomerNotFound))
  {
  }

  /** An example session from empty stores, with the request bodies the
      gateway shows as examples: Juan Pérez becomes customer 1; an order of
      1200.50 for customer 1 becomes order 1; an order for the unknown
      customer 999 is refused with 404. */
  lemma OrderWalkthrough(cs: Customers.CustomerStore, os: Orders.OrderStore, now: Orders.Timestamp)
    requires cs == EmptyTable() && os == EmptyTable()
    ensures var c := Customers.CreateCustomer(cs, Customers.CustomerFields("Juan Pérez", "juan@example.com"));
            && c.result == Ok(Row(1, Customers.CustomerFields("Juan Pérez", "juan@example.com")))
            && var o := Orders.CreateOrder(os, Orders.OrderCreate(1, 1200.50), ExistsCall(c.state, 1), now);
               && o.result == Ok(Row(1, Orders.OrderFields(1, now, 1200.50)))
               && Orders.CreateOrder(o.state, Orders.OrderCreate(999, 1200.50), ExistsCall(c.state, 999), now)
                  == Handled(o.state, Err(Orders.CustomerNotFound))
  {
    var juan := Customers.CustomerFields("Juan Pérez", "juan@example.com");
    var c := Customers.CreateCustomer(cs, juan);
    assert !Customers.EmailInUse(cs.rows, juan.email);
    assert c.state.rows == [Row(1, juan)];
    assert HasId(c.state.rows, 1) by { assert c.state.rows[0].id == 1; }
    KnownCustomerAccepted(c.state, os, Orders.OrderCreate(1, 1200.50), now);
    assert !HasId(c.state.rows, 999);
    var o := Orders.CreateOrder(os, Orders.OrderCreate(1, 1200.50), ExistsCall(c.state, 1), now);
    UnknownCustomerRejected(c.state, o.state, Orders.OrderCreate(999, 1200.50), now);
  }

  /** The gateway's example product (Laptop at 1200.50, whose `str` is
      `1200.5`, with 5 in stock), stored in an empty catalogue, becomes
      product 1 and reads back from the SOAP envelope `get_product_soap`
      sends for key 1. */
  lemma ProductWalkthrough(ps: Products.ProductStore, laptop: Products.ProductFields)
    requires ps == EmptyTable()
    requires laptop == Products.ProductFields("Laptop", "1200.5", 5)
    ensures var r := Products.GetProductSoap(Products.CreateProduct(ps, laptop).state, 1);
            && r.Ok? && r.value.status == StatusOk
            && Products.ReadProduct(r.value.content) == Some(Row(1, laptop))
  {
    var p := Products.CreateProduct(ps, laptop);
    assert p.state.rows == [Row(1, laptop)];
    assert HasId(p.state.rows, 1) by { assert p.state.rows[0].id == 1; }
    assert Products.GetProduct(p.state, 1).value == Row(1, laptop);
    assert Markup.NoOpen(laptop.name) && Markup.NoOpen(laptop.price);
  }
}
