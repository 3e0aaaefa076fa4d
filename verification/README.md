# UT5_TFU services core in Dafny

This project models the logic of three FastAPI microservices of a small
e-commerce system, written in Python:

- **customers**: creates customers under a unique e-mail address, looks them
  up by key, and answers an internal "does this customer exist" query.
- **orders**: admits an order only after asking the customers service whether
  its customer exists, then stores it. It also looks orders up by key and by
  customer. The existence check *fails open*: when the call to the customers
  service raises, the order is admitted.
- **products**: stores products and serialises one product, or a list of
  products, as a SOAP 1.1 envelope built from Python f-strings.

Each service's database table is an immutable `Table`: the rows in insertion
order plus the next autoincrement key (`tables.dfy`). Each handler is a pure
function of the store and the request. A handler that writes returns
`Handled(state, result)`, the store afterwards and its reply. A read-only
handler returns its `Result`, or its reply when it cannot fail
(`CheckCustomerExists`, `ListProductsSoap`); `GetOrdersByCustomer` is a
method returning the list. An `HTTPException` the handler raises is an
`Err(HttpError(status, detail))`, with the same status codes and Spanish
detail texts as the code. The HTTP call from orders to customers is an input
value (`RemoteCall`): either a transport failure, or an answer with a status
and a body that may not be JSON.

The XML is modelled as a sequence of pieces (`Tag(name)` for `<name>`,
`Text(s)` for character data) that `Flatten` turns into the string the
service sends (`markup.dfy`). Reading it back uses plain string searching:
`Extract(s, name)` is the text between the first `<name>` and the next
`</name>`, `ExtractAll` collects every such element from left to right, and
`Markups` lists every `<...>` in the string. The f-strings insert names and
prices without escaping, so the read-back properties require the text to
hold no `<` (`UnambiguousText`). The model also proves what happens when a
name does contain markup.

`system.dfy` puts the services together. While the customers service
answers, the order gate opens exactly for stored customers, and every stored
order names a stored customer. During an outage, orders for unknown customers
are stored and that invariant breaks. An error status blocks every order. The
module also proves an example session built from the request examples the
gateway declares.

Three details of the code that the model keeps as written:

- The SOAP reply puts each field of a product on its own indented line, and
  the model keeps that whitespace (`ProductsXmlLayout`).
- An empty product list leaves only whitespace inside `<products>`
  (`EmptyProductList`).
- `verify_customer_exists` is annotated `-> bool` but returns the raw JSON
  value of `exists`, and `create_order` tests it with Python truthiness
  (`Truthy`).

## Model

| member | source | states |
|---|---|---|
| Tables.Insert | services/customers/main.py:40-44 | the record is appended under the counter's key `nextId`, no stored row carries that key, and the keys stay positive and increasing |
| Tables.Lookup | services/customers/main.py:60 | `filter(id == k).first()` finds a row exactly when some stored row has key k, and the row it finds is the first one with that key |
| Tables.LookupFindsStoredRow | services/orders/models.py:8 | in a store with a primary key, looking up a stored row's key finds exactly that row |
| Tables.LookupAfterInsert | services/orders/main.py:57-61 | after an insert, the new key finds the new row and every other key finds what it found before |
| Decimal.IntToString | services/products/main.py:58 | `str(n)` is non-empty digits with a leading minus sign exactly for negative n, and the digits have no leading zero unless they are the single digit `0` |
| Decimal.ParseIntRoundTrip | services/products/main.py:61 | the integer text the f-string writes for `id` and `stock` parses back to the same integer |
| Customers.FindByEmail | services/customers/main.py:36 | the e-mail query finds a stored customer exactly when the address is in use, and the customer it finds has that address |
| Customers.CreateCustomer | services/customers/main.py:33-44 | an address in use gives 400 "El email ya está registrado" and an unchanged store; otherwise exactly one customer with the given fields is appended under a fresh key; unique addresses stay unique |
| Customers.GetCustomer | services/customers/main.py:50-55 | succeeds exactly when the key is stored and returns that customer; otherwise 404 "Cliente no encontrado" |
| Customers.CheckCustomerExists | services/customers/main.py:57-61 | never fails; `exists` holds exactly when the key is stored; `customer_id` echoes the key |
| Customers.ExistsReplyJson | services/customers/main.py:61 | the reply is a JSON object whose `exists` and `customer_id` carry the reply's values |
| Customers.GetCustomerAgreesWithExists | services/customers/main.py:50-61 | `get_customer` succeeds exactly when the existence endpoint says yes, and gives 404 when it says no |
| Customers.SecondCreationRejected | services/customers/main.py:36-38 | once an address is stored, a second creation with it fails with 400 whatever the name, and stores nothing |
| Customers.CreatedCustomerIsFound | services/customers/main.py:40-55 | a created customer is found by its key, and every key found before is still found with the same customer |
| Orders.VerifyCustomerExists | services/orders/main.py:36-48 | a transport failure gives True; a status other than 200 gives False whatever the body; a 200 body that is not JSON or not an object gives True; an object gives its `exists` value, or False when the key is missing |
| Http.Truthy | services/orders/main.py:54 | a JSON value is false exactly when it is `null`, `false`, `0`, or an empty string, array or object, as Python's `not` sees it |
| Orders.Admits | services/orders/main.py:36-55 | `not customer_exists` is false, so the order is admitted, exactly when the call failed, the 200 body was not an object, or its `exists` value is truthy; a missing `exists` and every non-200 status refuse it |
| Orders.CreateOrder | services/orders/main.py:50-61 | a refused check gives 404 "Cliente no encontrado" and an unchanged store; an admitted one appends exactly one order with the request's customer and total, the current time and a fresh key |
| Orders.GetOrder | services/orders/main.py:67-72 | succeeds exactly when the key is stored and returns that order; otherwise 404 "Orden no encontrada" |
| Orders.GetOrdersByCustomer | services/orders/main.py:74-77 | returns exactly the stored orders of that customer, each kept once in store order |
| Orders.OrdersOfMembers | services/orders/main.py:77 | an order is in the result exactly when it is stored and belongs to the customer |
| Orders.OrdersOfInStoreOrder | services/orders/main.py:77 | the result keeps the store's order: increasing keys in the store give increasing keys in the result |
| Orders.OrdersOfValidStoreAscending | services/orders/main.py:74-77 | for a store with autoincrement keys, the customer's orders come in increasing key order |
| Orders.OrdersAfterCreate | services/orders/main.py:57-61 | an admitted order joins the end of its customer's list; every other customer's list is unchanged |
| Orders.CreatedOrderIsFound | services/orders/main.py:57-72 | an admitted order is found by its key, and every key found before is still found with the same order |
| Products.CreateProduct | services/products/main.py:34-40 | exactly one product with the given fields is appended under a fresh key and returned |
| Products.GetProduct | services/products/main.py:46-51 | succeeds exactly when the key is stored and returns that product; otherwise 404 "Producto no encontrado" |
| Products.ProductToXml | services/products/main.py:53-64 | for every product, the text starts with the XML declaration; `ProductXmlRoundTrip`, `ProductXmlStructure` and `NameInsertedVerbatim` state its content |
| Products.ProductXmlRoundTrip | services/products/main.py:53-64 | for a name and price without `<`, reading the first `<id>`, `<name>`, `<price>` and `<stock>` of `product_to_xml(p)` gives back p |
| Products.ProductXmlStructure | services/products/main.py:53-64 | `product_to_xml` starts with the XML declaration, and its markup is exactly: declaration, `soap:Envelope` with the SOAP 1.1 namespace, `soap:Body`, `product`, then `id`, `name`, `price`, `stock` each opened and closed in that order, then `/product`, `/soap:Body`, `/soap:Envelope` |
| Products.NameInsertedVerbatim | services/products/main.py:59 | the name stands unescaped between the first `<name>` and its `</name>` |
| Products.NameCutShort | services/products/main.py:59 | a name that contains `</name>` reads back only up to it, so the product does not round-trip |
| Products.MarkupInNameIsNotEscaped | services/products/main.py:59 | the name `a</name>b` reads back as `a` |
| Products.ProductsToXml | services/products/main.py:66-82 | for every list, the text starts with the XML declaration; `ProductsXmlLayout`, `ProductsXmlRoundTrip` and `ProductsXmlStructure` state its content |
| Products.BlocksText | services/products/main.py:67-74 | the joined blocks are eight spaces before the first `<product>` element, and a line break plus eight spaces between consecutive elements |
| Products.ProductsXmlLayout | services/products/main.py:75-82 | the list text is the envelope's head, `<products>`, a line break and four spaces, the joined blocks, a line break and twelve spaces, `</products>` and the envelope's tail |
| Products.ProductsXmlRoundTrip | services/products/main.py:66-82 | `products_to_xml` holds one `<product>` element per record, in list order, and each reads back as its record |
| Products.ProductsXmlStructure | services/products/main.py:66-82 | the list starts with the XML declaration, and its markup is the envelope around one `products` element holding the product markup once per record |
| Products.EmptyProductList | services/products/main.py:66-82 | for an empty list, `<products>` holds only the template's whitespace and no `<product>` element appears |
| Products.ListProductsSoap | services/products/main.py:85-89 | answers 200 as `text/xml` with one readable block per stored product, in store order |
| Products.GetProductSoap | services/products/main.py:91-97 | an unknown key gives 404 "Producto no encontrado" and no XML; a stored key gives 200 `text/xml` whose envelope reads back as the stored product |
| Products.CreateProductSoap | services/products/main.py:99-106 | stores exactly one product under a fresh key and answers 201 `text/xml` with the envelope of the stored record |
| System.AdmitsIffStored | services/orders/main.py:44-55 | with the customers service answering, the order gate opens exactly for stored customers, who are exactly those `get_customer` finds |
| System.UnknownCustomerRejected | services/orders/main.py:53-55 | with the customers service answering, an order for an unknown customer gives 404 and stores nothing |
| System.KnownCustomerAccepted | services/orders/main.py:57-61 | with the customers service answering, an order for a stored customer is appended with its customer, total and time |
| System.CreateOrderKeepsReferences | services/orders/main.py:50-61 | with the customers service answering, every stored order keeps naming a stored customer |
| System.CreateCustomerKeepsReferences | services/customers/main.py:33-44 | creating a customer never breaks an order's reference to its customer |
| System.OutageAdmitsUnknownCustomer | services/orders/main.py:47-48 | when the customers service cannot be reached, an order for an unknown customer is stored, and an order then names no stored customer |
| System.ErrorStatusRejectsKnownCustomer | services/orders/main.py:44-46 | when the customers service answers with an error status, every order is refused, stored customer or not |
| System.OrderWalkthrough | services/orders/main.py:50-61 | from empty stores, with the gateway's example bodies: Juan Pérez becomes customer 1, an order of 1200.50 for customer 1 becomes order 1, and an order for the unknown customer 999 gets 404 |
| System.ProductWalkthrough | services/products/main.py:91-97 | the gateway's example Laptop product stored in an empty catalogue becomes product 1 and reads back from the SOAP envelope for key 1 |

## Left out

- The gateway service forwards requests and passes statuses and bodies through. It has no logic of its own and is not part of this model.
- Each service's `/` and `/health` endpoints return constant dicts, and `/health/ready` only probes the database with `SELECT 1`, answering 503 when that fails. All three are left out.
- The JSON list endpoints (`list_customers`, `list_orders`, `list_products`) return the whole store unchanged, so they are left out.
- SQLAlchemy sessions, `commit`, `refresh` and `create_all` become the immutable `Table` with its key counter.
- Queries carry no `ORDER BY`, so the database promises no row order. The model reads `first()` as the first row in insertion order. It reads `all()`, in `get_orders_by_customer` and `list_products_soap`, as all rows in insertion order. The "store order" in the rows for `Orders.GetOrdersByCustomer`, `Orders.OrdersOfInStoreOrder` and `Products.ListProductsSoap` rests on this reading.
- The e-mail check in `create_customer` is a SQL `=`. Its treatment of letter case and trailing spaces depends on the database's collation. The model compares addresses as exact strings (`Customers.FindByEmail`).
- The asynchronous HTTP call, its 5-second timeout and the kinds of exception become the `RemoteCall` input. Every exception raised by the HTTP call itself is one `TransportFailure`. A 200 body that is not JSON, or not a JSON object, is part of `Answered`, and `Orders.VerifyCustomerExists` gives `True` for it as the `except` does.
- `datetime.utcnow` becomes the `now` parameter of `Orders.CreateOrder`.
- Concurrency is left out: the model is sequential, so the race between the e-mail check and the insert, and between the existence check and the order insert, is not modelled.
- Pydantic validation of request bodies is left out. The model takes well-typed records.
- Integer column widths are not modelled. `customer_id = Column(Integer)` in services/orders/models.py holds a bounded integer, while the request's `customer_id` is unbounded. A value outside the column's range makes `db.commit()` fail with a server error that stores nothing; the model stores the order. This holds for every `CreateOrder` after an admitting check, and `System.OutageAdmitsUnknownCustomer` assumes it. The same applies to `stock` and to the keys if their columns are `Integer`; the products and customers table declarations are not part of this model.
- Float arithmetic is left out. An order's `total` is a `real` that is only stored, never computed on.
- A product's `price` is carried as the text `str(price)` produces (`PriceText`). Python's float-to-text formatting is not modelled.
- JSON numbers are integers in `Http.Json`. Only their truth value matters to the order gate, and any non-zero number is true.
- Products.ProductXmlRoundTrip: requires a name and price without `<`, because the f-strings insert them unescaped. `NameCutShort` and `MarkupInNameIsNotEscaped` state what happens otherwise.
- Products.ProductsXmlRoundTrip: requires the same of every product in the list, for the same reason.
- Products.ProductXmlStructure: the exact list of markup is stated only for a name and price without `<`, because a `<` in them would add markup of its own. The declaration prefix holds for every product (`Products.ProductToXml`).
- Products.ProductsXmlStructure: the exact list of markup is stated only for products without `<` in name or price, for the same reason. The declaration prefix holds for every list (`Products.ProductsToXml`).
- Products.ListProductsSoap: promises the read-back only for products without `<` in name or price, for the same reason.
- Products.GetProductSoap: promises the read-back only for products without `<` in name or price, for the same reason.
- Products.CreateProductSoap: promises the read-back only for products without `<` in name or price, for the same reason.
