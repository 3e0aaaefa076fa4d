/** The customers service: creation with a unique e-mail address, lookup
    by key, and the existence endpoint the orders service consults. */
module Customers {
  import opened Http
  import opened Tables

  /** The caller-supplied columns of a customer (`schemas.CustomerCreate`). */
  datatype CustomerFields = CustomerFields(name: string, email: string)

  type Customer = Row<CustomerFields>

  type CustomerStore = Table<CustomerFields>

  const EmailTaken := HttpError(StatusBadRequest, "El email ya está registrado")
  const CustomerNotFound := HttpError(StatusNotFound, "Cliente no encontrado")

  predicate EmailInUse(rows: seq<Customer>, email: string) {
    exists i :: 0 <= i < |rows| && rows[i].fields.email == email
  }

  /** No two stored customers share an e-mail address. */
  predicate UniqueEmails(rows: seq<Customer>) {
    forall i, j :: 0 <= i < j < |rows| ==> rows[i].fields.email != rows[j].fields.email
  }

  /** `query.filter(Customer.email == email).first()`. */
  function FindByEmail(rows: seq<Customer>, email: string): (r: Option<Customer>)
    ensures r.Some? <==> EmailInUse(rows, email)
    ensures r.Some? ==> r.value in rows && r.value.fields.email == email
  {
    if |rows| == 0 then None
    else if rows[0].fields.email == email then Some(rows[0])
    else
      var r := FindByEmail(rows[1..], email);
      assert EmailInUse(rows, email) ==> EmailInUse(rows[1..], email) by {
        if EmailInUse(rows, email) {
          var i :| 0 <= i < |rows| && rows[i].fields.email == email;
          assert rows[1..][i - 1].fields.email == email;
        }
      }
      assert r.Some? ==> EmailInUse(rows, email) by {
        if r.Some? {
          var i :| 0 <= i < |rows[1..]| && rows[1..][i] == r.value;
          assert rows[i + 1] == r.value;
        }
      }
      r
  }

  /** `create_customer`: an address already in use is refused with 400 and
      nothing stored; otherwise exactly one customer is appended under a
      fresh key. Unique addresses stay unique. */
  function CreateCustomer(s: CustomerStore, req: CustomerFields): (r: Handled<CustomerStore, Customer>)
    ensures EmailInUse(s.rows, req.email) ==> r.result == Err(EmailTaken) && r.state == s
    ensures !EmailInUse(s.rows, req.email) ==>
              && r.result.Ok? && r.result.value.fields == req
              && r.state.rows == s.rows + [r.result.value]
    ensures Valid(s) ==> Valid(r.state)
    ensures Valid(s) && r.result.Ok? ==> !HasId(s.rows, r.result.value.id)
    ensures UniqueEmails(s.rows) ==> UniqueEmails(r.state.rows)
  {
    match FindByEmail(s.rows, req.email)
    case Some(_) => Handled(s, Err(EmailTaken))
    case None =>
      var (s', row) := Insert(s, req);
      assert forall i :: 0 <= i < |s.rows| ==> s.rows[i].fields.email != req.email;
      Handled(s', Ok(row))
  }

  /** `get_customer`: the stored customer with that key, or 404. */
  function GetCustomer(s: CustomerStore, id: int): (r: Result<Customer>)
    ensures r.Ok? <==> HasId(s.rows, id)
    ensures r.Ok? ==> r.value in s.rows && r.value.id == id
    ensures r.Err? ==> r.error == CustomerNotFound
  {
    match Lookup(s.rows, id)
    case None => Err(CustomerNotFound)
    case Some(c) => Ok(c)
  }

  /** The body `{"exists": ..., "customer_id": ...}` of the existence
      endpoint. */
  datatype ExistsReply = ExistsReply(found: bool, customerId: int)

  /** `check_customer_exists`: never fails; says whether the key is stored
      and echoes it. */
  function CheckCustomerExists(s: CustomerStore, id: int): (r: ExistsReply)
    ensures r.found <==> HasId(s.rows, id)
    ensures r.customerId == id
  {
    ExistsReply(Lookup(s.rows, id).Some?, id)
  }

  /** The reply as the JSON object the endpoint sends. */
  function ExistsReplyJson(r: ExistsReply): (j: Json)
    ensures j.JObject? && "exists" in j.fields && "customer_id" in j.fields
    ensures j.fields["exists"] == JBool(r.found) && j.fields["customer_id"] == JNumber(r.customerId)
  {
    JObject(map["exists" := JBool(r.found), "customer_id" := JNumber(r.customerId)])
  }

  /** The full lookup and the existence endpoint agree on every key. */
  lemma GetCustomerAgreesWithExists(s: CustomerStore, id: int)
    ensures GetCustomer(s, id).Ok? <==> CheckCustomerExists(s, id).found
    ensures !CheckCustomerExists(s, id).found ==> GetCustomer(s, id) == Err(CustomerNotFound)
  {
  }

  /** Once a customer is stored, a second creation with the same address
      fails whatever the other fields, and stores nothing. */
  lemma SecondCreationRejected(s: CustomerStore, first: CustomerFields, second: CustomerFields)
    requires second.email == first.email
    requires !EmailInUse(s.rows, first.email)
    ensures var s1 := CreateCustomer(s, first).state;
            CreateCustomer(s1, second) == Handled(s1, Err(EmailTaken))
  {
    var s1 := CreateCustomer(s, first).state;
    assert s1.rows[|s.rows|].fields.email == second.email;
  }

  /** A created customer is found by its key afterwards, and every key found
      before is still found. */
  lemma CreatedCustomerIsFound(s: CustomerStore, req: CustomerFields, id: int)
    requires Valid(s)
    requires !EmailInUse(s.rows, req.email)
    ensures var h := CreateCustomer(s, req);
            && GetCustomer(h.state, h.result.value.id) == Ok(h.result.value)
            && (HasId(s.rows, id) ==> GetCustomer(h.state, id) == GetCustomer(s, id))
  {
    LookupAfterInsert(s, req, id);
    var h := CreateCustomer(s, req);
    LookupAfterInsert(s, req, h.result.value.id);
  }
}
