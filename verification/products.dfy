/** The products service: its store, its JSON lookup and the SOAP 1.1
    envelope it writes around one product or a list of products
    (`product_to_xml`, `products_to_xml` and the `/soap/...` endpoints). */
module Products {
  import opened Http
  import opened Tables
  import opened Decimal
  import opened Markup

  /** `str(price)` of the stored float: the model carries the text. */
  type PriceText = string

  /** The caller-supplied columns of a product (`schemas.ProductCreate`). */
  datatype ProductFields = ProductFields(name: string, price: PriceText, stock: int)

  type Product = Row<ProductFields>

  type ProductStore = Table<ProductFields>

  const ProductNotFound := HttpError(StatusNotFound, "Producto no encontrado")

  // ---------------------------------------------------------------------
  // Store endpoints

  /** `create_product`: stores the record and returns it with its new key. */
  function CreateProduct(s: ProductStore, req: ProductFields): (r: Handled<ProductStore, Product>)
    ensures r.result.Ok? && r.result.value.fields == req
    ensures r.state.rows == s.rows + [r.result.value]
    ensures Valid(s) ==> Valid(r.state) && !HasId(s.rows, r.result.value.id)
  {
    var (s', row) := Insert(s, req);
    Handled(s', Ok(row))
  }

  /** `get_product`: the stored product with that key, or 404. */
  function GetProduct(s: ProductStore, id: int): (r: Result<Product>)
    ensures r.Ok? <==> HasId(s.rows, id)
    ensures r.Ok? ==> r.value in s.rows && r.value.id == id
    ensures r.Err? ==> r.error == ProductNotFound
  {
    match Lookup(s.rows, id)
    case None => Err(ProductNotFound)
    case Some(p) => Ok(p)
  }

  // ---------------------------------------------------------------------
  // The SOAP envelope

  const XmlDeclaration := "?xml version=\"1.0\"" + " encoding=\"UTF-8\"?"
  const SoapEnvelopeNamespace := "http://" + "schemas." + "xmlsoap.org/" + "soap/" + "envelope/"
  const EnvelopeStart := "soap:Envelope" + " xmlns:soap=\"" + SoapEnvelopeNamespace + "\""
  const XmlMediaType := "text/xml"

  function Spaces(n: nat): string {
    seq(n, _ => ' ')
  }

  /** A line break followed by `indent` spaces. */
  function Newline(indent: nat): string {
    "\n" + Spaces(indent)
  }

  /** The lines before and after the body of the envelope. */
  function EnvelopeHead(): seq<Piece> {
    [Tag(XmlDeclaration), Text(Newline(4)), Tag(EnvelopeStart), Text(Newline(8)),
     Tag("soap:Body"), Text(Newline(12))]
  }

  function EnvelopeTail(): seq<Piece> {
    [Text(Newline(8)), Tag("/soap:Body"), Text(Newline(4)), Tag("/soap:Envelope")]
  }

  function SoapEnvelope(body: seq<Piece>): seq<Piece> {
    EnvelopeHead() + (body + EnvelopeTail())
  }

  /** One line `<name>value</name>` of an f-string: the value is inserted
      as it is, without escaping. */
  datatype FieldLine = FieldLine(name: string, value: string)

  function Field(line: FieldLine, indent: nat): seq<Piece> {
    [Text(Newline(indent))] + Element(line.name, [Text(line.value)])
  }

  function Lines(fs: seq<FieldLine>, indent: nat): seq<Piece>
    decreases |fs|
  {
    if |fs| == 0 then [] else Field(fs[0], indent) + Lines(fs[1..], indent)
  }

  /** The four lines of a product, in the order the f-strings write them;
      numbers are rendered with `str`. */
  function ProductLines(p: Product): seq<FieldLine> {
    [FieldLine("id", IntToString(p.id)), FieldLine("name", p.fields.name),
     FieldLine("price", p.fields.price), FieldLine("stock", IntToString(p.fields.stock))]
  }

  /** What lies between `<product>` and `</product>`. */
  function ProductInner(p: Product, indent: nat): seq<Piece> {
    Lines(ProductLines(p), indent + 4) + [Text(Newline(indent))]
  }

  function ProductElement(p: Product, indent: nat): seq<Piece> {
    Element("product", ProductInner(p, indent))
  }

  /** `product_to_xml`: the envelope around one `<product>` element. Whatever
      the product holds, the text starts with the XML declaration. */
  function ProductToXml(p: Product): (xml: string)
    ensures Open(XmlDeclaration) <= xml
  {
    EnvelopeStartsWithDeclaration(ProductElement(p, 12));
    Flatten(SoapEnvelope(ProductElement(p, 12)))
  }

  /** One entry of the list comprehension in `products_to_xml`. */
  function ProductBlock(p: Product): seq<Piece> {
    [Text(Spaces(8))] + ProductElement(p, 8)
  }

  /** The list comprehension itself: one block per product, in list order. */
  function BlockParts(ps: seq<Product>): seq<seq<Piece>> {
    seq(|ps|, k requires 0 <= k < |ps| => ProductBlock(ps[k]))
  }

  /** `'\n'.join(...)` of the blocks. */
  function ProductBlocks(ps: seq<Product>): seq<Piece> {
    Join(BlockParts(ps), [Text("\n")])
  }

  /** The `<products>` element around the joined blocks. */
  function ListBody(blocks: seq<Piece>): seq<Piece> {
    Element("products", [Text(Newline(4))] + (blocks + [Text(Newline(12))]))
  }

  function ProductsBody(ps: seq<Product>): seq<Piece> {
    ListBody(ProductBlocks(ps))
  }

  /** `products_to_xml`: the envelope around one `<products>` element.
      Whatever the products hold, the text starts with the XML declaration. */
  function ProductsToXml(ps: seq<Product>): (xml: string)
    ensures Open(XmlDeclaration) <= xml
  {
    EnvelopeStartsWithDeclaration(ProductsBody(ps));
    Flatten(SoapEnvelope(ProductsBody(ps)))
  }

  // ---------------------------------------------------------------------
  // Reading a product back

  /** The name and price are inserted verbatim, so they are read back only
      when they hold no `<`. */
  predicate UnambiguousText(p: Product) {
    NoOpen(p.fields.name) && NoOpen(p.fields.price)
  }

  /** The four fields of the first `<id>`, `<name>`, `<price>` and `<stock>`
      elements, with the numbers parsed. */
  function ReadProduct(xml: string): Option<Product> {
    match (Extract(xml, "id"), Extract(xml, "name"), Extract(xml, "price"), Extract(xml, "stock"))
    case (Some(id), Some(name), Some(price), Some(stock)) =>
      (match (ParseInt(id), ParseInt(stock))
       case (Some(i), Some(n)) => Some(Row(i, ProductFields(name, price, n)))
       case _ => None)
    case _ => None
  }

  // ---------------------------------------------------------------------
  // SOAP endpoints

  /** A `Response(content=..., media_type="text/xml", status_code=...)`. */
  datatype XmlReply = XmlReply(status: int, mediaType: string, content: string)

  /** `list_products_soap`: every stored product, one block each, in store
      order. */
  function ListProductsSoap(s: ProductStore): (r: XmlReply)
    ensures r.status == StatusOk && r.mediaType == XmlMediaType
    ensures (forall k :: 0 <= k < |s.rows| ==> UnambiguousText(s.rows[k])) ==>
              var blocks := ExtractAll(r.content, "product");
              && |blocks| == |s.rows|
              && forall k :: 0 <= k < |s.rows| ==> ReadProduct(blocks[k]) == Some(s.rows[k])
  {
    ProductsXmlRoundTripIfReadable(s.rows);
    XmlReply(StatusOk, XmlMediaType, ProductsToXml(s.rows))
  }

  /** `get_product_soap`: 404 before any XML is written when the key is
      unknown, the envelope of the stored product otherwise. */
  function GetProductSoap(s: ProductStore, id: int): (r: Result<XmlReply>)
    ensures r.Err? <==> GetProduct(s, id).Err?
    ensures r.Err? ==> r.error == ProductNotFound
    ensures r.Ok? ==> r.value.status == StatusOk && r.value.mediaType == XmlMediaType
    ensures r.Ok? && UnambiguousText(GetProduct(s, id).value) ==>
              ReadProduct(r.value.content) == Some(GetProduct(s, id).value)
  {
    match GetProduct(s, id)
    case Err(e) => Err(e)
    case Ok(p) =>
      ProductXmlRoundTripIfReadable(p);
      Ok(XmlReply(StatusOk, XmlMediaType, ProductToXml(p)))
  }

  /** `create_product_soap`: stores the product and answers 201 with the
      envelope of the stored record. */
  function CreateProductSoap(s: ProductStore, req: ProductFields): (r: Handled<ProductStore, XmlReply>)
    ensures r.result.Ok? && r.result.value.status == StatusCreated
    ensures r.result.value.mediaType == XmlMediaType
    ensures |r.state.rows| == |s.rows| + 1 && r.state.rows[..|s.rows|] == s.rows
    ensures r.state.rows[|s.rows|].fields == req
    ensures Valid(s) ==> Valid(r.state) && !HasId(s.rows, r.state.rows[|s.rows|].id)
    ensures NoOpen(req.name) && NoOpen(req.price) ==>
              ReadProduct(r.result.value.content) == Some(r.state.rows[|s.rows|])
  {
    var (s', row) := Insert(s, req);
    assert s'.rows[..|s.rows|] == s.rows;
    ProductXmlRoundTripIfReadable(row);
    Handled(s', Ok(XmlReply(StatusCreated, XmlMediaType, ProductToXml(row))))
  }

  // ---------------------------------------------------------------------
  // Facts about the pieces

  lemma PlainJoin(a: string, b: string)
    requires Plain(a) && Plain(b)
    ensures Plain(a + b)
  {
    forall i | 0 <= i < |a + b|
      ensures (a + b)[i] != '<' && (a + b)[i] != '>'
    {
      if i >= |a| {
        assert (a + b)[i] == b[i - |a|];
      }
    }
  }

  lemma EnvelopeTagsPlain()
    ensures Plain(XmlDeclaration) && Plain(EnvelopeStart)
  {
    PlainJoin("?xml version=\"1.0\"", " encoding=\"UTF-8\"?");
    PlainJoin("http://", "schemas.");
    PlainJoin("http://" + "schemas.", "xmlsoap.org/");
    PlainJoin("http://" + "schemas." + "xmlsoap.org/", "soap/");
    PlainJoin("http://" + "schemas." + "xmlsoap.org/" + "soap/", "envelope/");
    PlainJoin("soap:Envelope", " xmlns:soap=\"");
    PlainJoin("soap:Envelope" + " xmlns:soap=\"", SoapEnvelopeNamespace);
    PlainJoin("soap:Envelope" + " xmlns:soap=\"" + SoapEnvelopeNamespace, "\"");
  }

  lemma NewlineNoOpen(indent: nat)
    ensures NoOpen(Newline(indent)) && NoOpen(Spaces(indent))
  {
    assert forall i | 0 <= i < |Newline(indent)| :: Newline(indent)[i] == if i == 0 then '\n' else ' ';
  }

  lemma IntToStringNoOpen(n: int)
    ensures NoOpen(IntToString(n))
  {
  }

  lemma EnvelopeClean()
    ensures AllClean(EnvelopeHead()) && AllClean(EnvelopeTail())
  {
    EnvelopeTagsPlain();
    NewlineNoOpen(4);
    NewlineNoOpen(8);
    NewlineNoOpen(12);
    CleanSix(Tag(XmlDeclaration), Text(Newline(4)), Tag(EnvelopeStart), Text(Newline(8)),
             Tag("soap:Body"), Text(Newline(12)));
    CleanFour(Text(Newline(8)), Tag("/soap:Body"), Text(Newline(4)), Tag("/soap:Envelope"));
  }

  /** Every tag of a piece sequence is listed by `TagNames`. */
  lemma TagNamesCover(ps: seq<Piece>, x: string)
    requires Tag(x) in ps
    ensures x in TagNames(ps)
  {
    if ps[0] != Tag(x) {
      assert Tag(x) in ps[1..];
      TagNamesCover(ps[1..], x);
    }
  }

  // ---------------------------------------------------------------------
  // Field lines

  /** Lines that read back: plain, non-empty, distinct names that do not
      start with `/`, and values without `<`. */
  predicate GoodLines(fs: seq<FieldLine>) {
    && (forall k :: 0 <= k < |fs| ==>
          Plain(fs[k].name) && |fs[k].name| > 0 && fs[k].name[0] != '/' && NoOpen(fs[k].value))
    && (forall i, j :: 0 <= i < j < |fs| ==> fs[i].name != fs[j].name)
  }

  lemma GoodLinesTail(fs: seq<FieldLine>)
    requires GoodLines(fs) && |fs| > 0
    ensures GoodLines(fs[1..])
  {
    forall i, j | 0 <= i < j < |fs[1..]| ensures fs[1..][i].name != fs[1..][j].name {
      assert fs[1..][i] == fs[i + 1] && fs[1..][j] == fs[j + 1];
    }
  }

  lemma FieldClean(line: FieldLine, indent: nat)
    requires Plain(line.name) && NoOpen(line.value)
    ensures AllClean(Field(line, indent))
  {
    NewlineNoOpen(indent);
    ElementClean(line.name, [Text(line.value)]);
    AllCleanAppend([Text(Newline(indent))], Element(line.name, [Text(line.value)]));
  }

  lemma FieldTagNames(line: FieldLine, indent: nat)
    ensures TagNames(Field(line, indent)) == [line.name, "/" + line.name]
  {
    ElementTagNames(line.name, [Text(line.value)]);
    TagNamesAppend([Text(Newline(indent))], Element(line.name, [Text(line.value)]));
  }

  lemma {:induction false} LinesClean(fs: seq<FieldLine>, indent: nat)
    requires GoodLines(fs)
    ensures AllClean(Lines(fs, indent))
    decreases |fs|
  {
    if |fs| > 0 {
      GoodLinesTail(fs);
      FieldClean(fs[0], indent);
      LinesClean(fs[1..], indent);
      AllCleanAppend(Field(fs[0], indent), Lines(fs[1..], indent));
    }
  }

  /** The field is read back as its value. */
  lemma ReadField(pre: seq<Piece>, line: FieldLine, indent: nat, post: seq<Piece>)
    requires AllClean(pre) && Plain(line.name) && Tag(line.name) !in pre && NoOpen(line.value)
    ensures Extract(Flatten(pre + (Field(line, indent) + post)), line.name) == Some(line.value)
  {
    var nl := [Text(Newline(indent))];
    var element := Element(line.name, [Text(line.value)]);
    Assoc(nl, element, post);
    Assoc(pre, nl, element + post);
    NewlineNoOpen(indent);
    AllCleanAppend(pre, nl);
    assert Tag(line.name) !in pre + nl;
    assert Flatten([Text(line.value)]) == line.value;
    ElementRead(pre + nl, line.name, [Text(line.value)], post);
  }

  /** Each of several good lines is read back as its value. */
  lemma {:induction false} ReadLine(pre: seq<Piece>, fs: seq<FieldLine>, indent: nat,
                                    post: seq<Piece>, k: nat)
    requires AllClean(pre) && GoodLines(fs) && k < |fs| && Tag(fs[k].name) !in pre
    ensures Extract(Flatten(pre + (Lines(fs, indent) + post)), fs[k].name) == Some(fs[k].value)
    decreases k
  {
    var f := Field(fs[0], indent);
    var rest := Lines(fs[1..], indent) + post;
    Assoc(f, Lines(fs[1..], indent), post);
    if k == 0 {
      ReadField(pre, fs[0], indent, rest);
    } else {
      Assoc(pre, f, rest);
      FieldClean(fs[0], indent);
      AllCleanAppend(pre, f);
      FieldTagNames(fs[0], indent);
      assert ("/" + fs[0].name)[0] == '/';
      if Tag(fs[k].name) in f {
        TagNamesCover(f, fs[k].name);
        assert false;
      }
      GoodLinesTail(fs);
      assert fs[1..][k - 1] == fs[k];
      ReadLine(pre + f, fs[1..], indent, post, k - 1);
    }
  }

  const FieldTags := ["id", "/id", "name", "/name", "price", "/price", "stock", "/stock"]

  lemma LinesTagNamesCons(fs: seq<FieldLine>, indent: nat)
    requires |fs| > 0
    ensures TagNames(Lines(fs, indent)) == [fs[0].name, "/" + fs[0].name] + TagNames(Lines(fs[1..], indent))
  {
    FieldTagNames(fs[0], indent);
    TagNamesAppend(Field(fs[0], indent), Lines(fs[1..], indent));
  }

  lemma ProductLinesTagNames(p: Product, indent: nat)
    ensures TagNames(Lines(ProductLines(p), indent)) == FieldTags
  {
    var f0 := ProductLines(p);
    var f1 := f0[1..];
    var f2 := f1[1..];
    var f3 := f2[1..];
    assert f3[1..] == [];
    assert "/" + "id" == "/id" && "/" + "name" == "/name";
    assert "/" + "price" == "/price" && "/" + "stock" == "/stock";
    LinesTagNamesCons(f0, indent);
    LinesTagNamesCons(f1, indent);
    LinesTagNamesCons(f2, indent);
    LinesTagNamesCons(f3, indent);
  }

  // ---------------------------------------------------------------------
  // Reading a product back

  lemma ProductLinesGood(p: Product)
    requires UnambiguousText(p)
    ensures GoodLines(ProductLines(p))
  {
    IntToStringNoOpen(p.id);
    IntToStringNoOpen(p.fields.stock);
  }

  /** No field tag occurs among `pre`. */
  predicate NoFieldTags(pre: seq<Piece>) {
    Tag("id") !in pre && Tag("name") !in pre && Tag("price") !in pre && Tag("stock") !in pre
  }

  /** The four lines, placed after clean pieces without field tags, read
      back as the product they were written from. */
  lemma ReadFields(pre: seq<Piece>, p: Product, indent: nat, post: seq<Piece>)
    requires AllClean(pre) && NoFieldTags(pre) && UnambiguousText(p)
    ensures ReadProduct(Flatten(pre + (Lines(ProductLines(p), indent) + post))) == Some(p)
  {
    ProductLinesGood(p);
    var fs := ProductLines(p);
    ReadLine(pre, fs, indent, post, 0);
    ReadLine(pre, fs, indent, post, 1);
    ReadLine(pre, fs, indent, post, 2);
    ReadLine(pre, fs, indent, post, 3);
    ParseIntRoundTrip(p.id);
    ParseIntRoundTrip(p.fields.stock);
  }

  lemma ProductInnerFacts(p: Product, indent: nat)
    requires UnambiguousText(p)
    ensures AllClean(ProductInner(p, indent))
    ensures TagNames(ProductInner(p, indent)) == FieldTags
    ensures Tag("product") !in ProductInner(p, indent) && Tag("/product") !in ProductInner(p, indent)
  {
    var inner := ProductInner(p, indent);
    ProductLinesGood(p);
    LinesClean(ProductLines(p), indent + 4);
    NewlineNoOpen(indent);
    AllCleanAppend(Lines(ProductLines(p), indent + 4), [Text(Newline(indent))]);
    ProductLinesTagNames(p, indent + 4);
    TagNamesAppend(Lines(ProductLines(p), indent + 4), [Text(Newline(indent))]);
    if Tag("product") in inner {
      TagNamesCover(inner, "product");
    }
    if Tag("/product") in inner {
      TagNamesCover(inner, "/product");
    }
  }

  /** The content of a `<product>` element reads back as the product. */
  lemma ReadInner(p: Product, indent: nat)
    requires UnambiguousText(p)
    ensures ReadProduct(Flatten(ProductInner(p, indent))) == Some(p)
  {
    assert ProductInner(p, indent)
           == [] + (Lines(ProductLines(p), indent + 4) + [Text(Newline(indent))]);
    ReadFields([], p, indent + 4, [Text(Newline(indent))]);
  }

  /** The envelope regrouped around the content of its body element. */
  lemma EnvelopeSplit(name: string, inner: seq<Piece>)
    ensures SoapEnvelope(Element(name, inner))
            == (EnvelopeHead() + [Tag(name)]) + (inner + ([Tag("/" + name)] + EnvelopeTail()))
  {
    ElementSplit(EnvelopeHead(), name, inner, EnvelopeTail());
  }

  /** Round trip: a product whose name and price hold no `<` is read back
      exactly from its envelope. */
  lemma ProductXmlRoundTrip(p: Product)
    requires UnambiguousText(p)
    ensures ReadProduct(ProductToXml(p)) == Some(p)
  {
    var pre := EnvelopeHead() + [Tag("product")];
    var lines := Lines(ProductLines(p), 16);
    var post := [Text(Newline(12))] + ([Tag("/product")] + EnvelopeTail());
    assert "/" + "product" == "/product";
    assert ProductElement(p, 12) == Element("product", ProductInner(p, 12));
    assert ProductInner(p, 12) == lines + [Text(Newline(12))];
    EnvelopeSplit("product", ProductInner(p, 12));
    Assoc(lines, [Text(Newline(12))], [Tag("/product")] + EnvelopeTail());
    assert SoapEnvelope(ProductElement(p, 12)) == pre + (lines + post);
    EnvelopeClean();
    AllCleanAppend(EnvelopeHead(), [Tag("product")]);
    ReadFields(pre, p, 16, post);
  }

  lemma ProductXmlRoundTripIfReadable(p: Product)
    ensures UnambiguousText(p) ==> ReadProduct(ProductToXml(p)) == Some(p)
  {
    if UnambiguousText(p) {
      ProductXmlRoundTrip(p);
    }
  }

  /** The pieces that come before the `<name>` element of a product
      envelope, and those after it. */
  function NameFront(p: Product): seq<Piece> {
    EnvelopeHead() + [Tag("product")] + Field(ProductLines(p)[0], 16) + [Text(Newline(16))]
  }

  function NameBack(p: Product): seq<Piece> {
    Lines(ProductLines(p)[2..], 16) + ([Text(Newline(12))] + ([Tag("/product")] + EnvelopeTail()))
  }

  lemma NameSplit(p: Product)
    ensures SoapEnvelope(ProductElement(p, 12))
            == NameFront(p) + (Element("name", [Text(p.fields.name)]) + NameBack(p))
  {
    var fs := ProductLines(p);
    var pre := EnvelopeHead() + [Tag("product")];
    var rest := NameBack(p);
    var tail := [Text(Newline(12))] + ([Tag("/product")] + EnvelopeTail());
    var element := Element("name", [Text(p.fields.name)]);
    assert "/" + "product" == "/product";
    assert ProductElement(p, 12) == Element("product", ProductInner(p, 12));
    assert ProductInner(p, 12) == Lines(fs, 16) + [Text(Newline(12))];
    EnvelopeSplit("product", ProductInner(p, 12));
    Assoc(Lines(fs, 16), [Text(Newline(12))], [Tag("/product")] + EnvelopeTail());
    assert Lines(fs, 16) == Field(fs[0], 16) + (Field(fs[1], 16) + Lines(fs[2..], 16)) by {
      assert fs[1..][1..] == fs[2..];
    }
    Assoc(Field(fs[1], 16), Lines(fs[2..], 16), tail);
    Assoc(Field(fs[0], 16), Field(fs[1], 16) + Lines(fs[2..], 16), tail);
    Assoc(pre, Field(fs[0], 16), Field(fs[1], 16) + rest);
    Assoc([Text(Newline(16))], element, rest);
    Assoc(pre + Field(fs[0], 16), [Text(Newline(16))], element + rest);
  }

  lemma NameFrontClean(p: Product)
    ensures AllClean(NameFront(p)) && Tag("name") !in NameFront(p)
  {
    var fs := ProductLines(p);
    var pre := EnvelopeHead() + [Tag("product")];
    EnvelopeClean();
    IntToStringNoOpen(p.id);
    FieldClean(fs[0], 16);
    NewlineNoOpen(16);
    AllCleanAppend(EnvelopeHead(), [Tag("product")]);
    AllCleanAppend(pre, Field(fs[0], 16));
    AllCleanAppend(pre + Field(fs[0], 16), [Text(Newline(16))]);
  }

  /** Nothing is escaped: a name holding `</name>` cuts the element short at
      that point, so the product no longer reads back. */
  lemma NameCutShort(p: Product, x: string, y: string)
    requires p.fields.name == x + Close("name") + y && NoOpen(x)
    ensures Extract(ProductToXml(p), "name") == Some(x)
    ensures ReadProduct(ProductToXml(p)) != Some(p)
  {
    assert |x| < |p.fields.name|;
    NameSplit(p);
    NameFrontClean(p);
    ElementCutShort(NameFront(p), "name", x, y, NameBack(p));
    ReadNeedsName(ProductToXml(p), p);
  }

  /** A product reads back only when its name does. */
  lemma ReadNeedsName(xml: string, p: Product)
    requires Extract(xml, "name") != Some(p.fields.name)
    ensures ReadProduct(xml) != Some(p)
  {
  }

  lemma MarkupInNameIsNotEscaped(id: int, price: PriceText, stock: int)
    ensures var p := Row(id, ProductFields("a</name>b", price, stock));
            && Extract(ProductToXml(p), "name") == Some("a")
            && ReadProduct(ProductToXml(p)) != Some(p)
  {
    assert "a</name>b" == "a" + Close("name") + "b";
    NameCutShort(Row(id, ProductFields("a</name>b", price, stock)), "a", "b");
  }

  // ---------------------------------------------------------------------
  // Properties of products_to_xml

  predicate AllUnambiguous(ps: seq<Product>) {
    forall k :: 0 <= k < |ps| ==> UnambiguousText(ps[k])
  }

  /** The content of each product's element in the list, in order. */
  function BlockContents(ps: seq<Product>): seq<string> {
    seq(|ps|, k requires 0 <= k < |ps| => Flatten(ProductInner(ps[k], 8)))
  }

  /** The joined blocks, followed by clean pieces without `<product>`, hold
      exactly one `<product>` element per product, in order. */
  lemma BlocksRead(ps: seq<Product>, post: seq<Piece>)
    requires AllUnambiguous(ps) && AllClean(post) && Tag("product") !in post
    ensures ExtractAll(Flatten(ProductBlocks(ps) + post), "product") == BlockContents(ps)
  {
    PartsPadded(ps);
    NewlineNoOpen(8);
    ExtractJoined(BlockParts(ps), [Text("\n")], [Text(Spaces(8))], "product", Inners(ps), post);
    assert Contents(Inners(ps)) == BlockContents(ps);
  }

  /** The content of each product's element, as pieces. */
  function Inners(ps: seq<Product>): seq<seq<Piece>> {
    seq(|ps|, k requires 0 <= k < |ps| => ProductInner(ps[k], 8))
  }

  /** Each block is the indentation and a `<product>` element around the
      product's content. */
  lemma PartsPadded(ps: seq<Product>)
    requires AllUnambiguous(ps)
    ensures PaddedElements(BlockParts(ps), [Text(Spaces(8))], "product", Inners(ps))
  {
    var inners := Inners(ps);
    assert "/" + "product" == "/product";
    forall k | 0 <= k < |ps|
      ensures AllClean(inners[k]) && Tag("/" + "product") !in inners[k]
    {
      ProductInnerFacts(ps[k], 8);
    }
  }

  /** The pieces of the list envelope before the joined blocks, and after. */
  function ListFront(): seq<Piece> {
    EnvelopeHead() + [Tag("products")] + [Text(Newline(4))]
  }

  function ListBack(): seq<Piece> {
    [Text(Newline(12))] + ([Tag("/products")] + EnvelopeTail())
  }

  lemma ListSplit(ps: seq<Product>)
    ensures SoapEnvelope(ProductsBody(ps)) == ListFront() + (ProductBlocks(ps) + ListBack())
  {
    var blocks := ProductBlocks(ps);
    var tail := [Tag("/products")] + EnvelopeTail();
    var inner := [Text(Newline(4))] + (blocks + [Text(Newline(12))]);
    assert "/" + "products" == "/products";
    assert ProductsBody(ps) == Element("products", inner);
    EnvelopeSplit("products", inner);
    Assoc([Text(Newline(4))], blocks + [Text(Newline(12))], tail);
    Assoc(blocks, [Text(Newline(12))], tail);
    Assoc(EnvelopeHead() + [Tag("products")], [Text(Newline(4))], blocks + ([Text(Newline(12))] + tail));
  }

  lemma ListFrameClean()
    ensures AllClean(ListFront()) && Tag("product") !in ListFront()
    ensures AllClean(ListBack()) && Tag("product") !in ListBack()
  {
    EnvelopeClean();
    NewlineNoOpen(4);
    NewlineNoOpen(12);
    AllCleanAppend(EnvelopeHead(), [Tag("products")]);
    AllCleanAppend(EnvelopeHead() + [Tag("products")], [Text(Newline(4))]);
    AllCleanAppend([Tag("/products")], EnvelopeTail());
    AllCleanAppend([Text(Newline(12))], [Tag("/products")] + EnvelopeTail());
  }

  /** The `<product>` elements of the list envelope are the blocks'
      contents, in store order. */
  lemma ListBlocks(ps: seq<Product>)
    requires AllUnambiguous(ps)
    ensures ExtractAll(ProductsToXml(ps), "product") == BlockContents(ps)
  {
    ListSplit(ps);
    ListFrameClean();
    BlocksRead(ps, ListBack());
    ReadPastFront(SoapEnvelope(ProductsBody(ps)), ListFront(), ProductBlocks(ps) + ListBack(),
                  "product", BlockContents(ps));
  }

  /** Clean pieces in front without `<name>` leave the elements read
      unchanged. */
  lemma ReadPastFront(doc: seq<Piece>, front: seq<Piece>, rest: seq<Piece>, name: string, contents: seq<string>)
    requires doc == front + rest
    requires AllClean(front) && Plain(name) && Tag(name) !in front
    requires ExtractAll(Flatten(rest), name) == contents
    ensures ExtractAll(Flatten(doc), name) == contents
  {
    FlattenAppend(front, rest);
    ExtractPastPieces(front, Flatten(rest), name);
  }

  /** Round trip of the list envelope: one `<product>` element per stored
      product, in store order, each reading back as that product. */
  lemma ProductsXmlRoundTrip(ps: seq<Product>)
    requires AllUnambiguous(ps)
    ensures var blocks := ExtractAll(ProductsToXml(ps), "product");
            && |blocks| == |ps|
            && forall k :: 0 <= k < |ps| ==> ReadProduct(blocks[k]) == Some(ps[k])
  {
    ListBlocks(ps);
    forall k | 0 <= k < |ps| ensures ReadProduct(BlockContents(ps)[k]) == Some(ps[k]) {
      ReadInner(ps[k], 8);
    }
  }

  lemma ProductsXmlRoundTripIfReadable(ps: seq<Product>)
    ensures AllUnambiguous(ps) ==>
              var blocks := ExtractAll(ProductsToXml(ps), "product");
              && |blocks| == |ps|
              && forall k :: 0 <= k < |ps| ==> ReadProduct(blocks[k]) == Some(ps[k])
  {
    if AllUnambiguous(ps) {
      ProductsXmlRoundTrip(ps);
    }
  }

  /** An empty store gives a `<products>` element holding only whitespace,
      and no `<product>` element at all. */
  lemma EmptyProductList(ps: seq<Product>)
    requires |ps| == 0
    ensures Extract(ProductsToXml(ps), "products") == Some(Newline(4) + Newline(12))
    ensures ExtractAll(ProductsToXml(ps), "product") == []
  {
    EmptyListElement(ps);
    ListBlocks(ps);
  }

  lemma EmptyListElement(ps: seq<Product>)
    requires |ps| == 0
    ensures Extract(ProductsToXml(ps), "products") == Some(Newline(4) + Newline(12))
  {
    var inner := [Text(Newline(4))] + (ProductBlocks(ps) + [Text(Newline(12))]);
    assert "/" + "products" == "/products";
    assert ProductsBody(ps) == Element("products", inner);
    EnvelopeClean();
    EmptyListInner(ps);
    ElementRead(EnvelopeHead(), "products", inner, EnvelopeTail());
  }

  lemma EmptyListInner(ps: seq<Product>)
    requires |ps| == 0
    ensures var inner := [Text(Newline(4))] + (ProductBlocks(ps) + [Text(Newline(12))]);
            && AllClean(inner) && Tag("/products") !in inner
            && Flatten(inner) == Newline(4) + Newline(12)
  {
    var inner := [Text(Newline(4))] + (ProductBlocks(ps) + [Text(Newline(12))]);
    NewlineNoOpen(4);
    NewlineNoOpen(12);
    assert inner == [Text(Newline(4))] + [Text(Newline(12))];
    FlattenAppend([Text(Newline(4))], [Text(Newline(12))]);
  }

  // ---------------------------------------------------------------------
  // Structure of the envelopes

  const HeadTags := [XmlDeclaration, EnvelopeStart, "soap:Body"]
  const TailTags := ["/soap:Body", "/soap:Envelope"]
  const ProductTags := ["product"] + FieldTags + ["/product"]

  lemma EnvelopeTagNames(body: seq<Piece>)
    ensures TagNames(SoapEnvelope(body)) == HeadTags + TagNames(body) + TailTags
  {
    FrameTagNames();
    TagNamesAround(EnvelopeHead(), body, EnvelopeTail());
  }

  lemma FrameTagNames()
    ensures TagNames(EnvelopeHead()) == HeadTags && TagNames(EnvelopeTail()) == TailTags
  {
    var h := EnvelopeHead();
    assert h[1..][1..][1..][1..][1..][1..] == [];
    assert TagNames(h[1..][1..][1..][1..][1..]) == [];
    assert TagNames(h[1..][1..][1..][1..]) == ["soap:Body"];
    assert TagNames(h[1..][1..]) == [EnvelopeStart, "soap:Body"];
    var t := EnvelopeTail();
    assert t[1..][1..][1..][1..] == [];
    assert TagNames(t[1..][1..]) == ["/soap:Envelope"];
  }

  lemma TagNamesAround(h: seq<Piece>, body: seq<Piece>, t: seq<Piece>)
    ensures TagNames(h + (body + t)) == TagNames(h) + TagNames(body) + TagNames(t)
  {
    TagNamesAppend(h, body + t);
    TagNamesAppend(body, t);
    Assoc(TagNames(h), TagNames(body), TagNames(t));
  }

  lemma EnvelopeAroundClean(body: seq<Piece>)
    requires AllClean(body)
    ensures AllClean(SoapEnvelope(body))
  {
    EnvelopeClean();
    AllCleanAppend(body, EnvelopeTail());
    AllCleanAppend(EnvelopeHead(), body + EnvelopeTail());
  }

  /** Every envelope starts with the XML declaration, with nothing before it. */
  lemma EnvelopeStartsWithDeclaration(body: seq<Piece>)
    ensures Open(XmlDeclaration) <= Flatten(SoapEnvelope(body))
  {
    var doc := SoapEnvelope(body);
    FlattenCons(doc, "");
    assert doc[0] == Tag(XmlDeclaration);
    assert Flatten(doc) + "" == Flatten(doc);
  }

  lemma ProductElementStructure(p: Product, indent: nat)
    requires UnambiguousText(p)
    ensures AllClean(ProductElement(p, indent))
    ensures TagNames(ProductElement(p, indent)) == ProductTags
  {
    ProductInnerFacts(p, indent);
    ElementClean("product", ProductInner(p, indent));
    ElementTagNames("product", ProductInner(p, indent));
    assert "/" + "product" == "/product";
  }

  /** `product_to_xml` starts with the declaration, and its markup is the
      envelope, the body and one `<product>` element holding `<id>`,
      `<name>`, `<price>` and `<stock>` in that order. */
  lemma ProductXmlStructure(p: Product)
    requires UnambiguousText(p)
    ensures Open(XmlDeclaration) <= ProductToXml(p)
    ensures Markups(ProductToXml(p)) == HeadTags + ProductTags + TailTags
  {
    ProductElementStructure(p, 12);
    EnvelopeAroundClean(ProductElement(p, 12));
    EnvelopeTagNames(ProductElement(p, 12));
    DocumentMarkups(SoapEnvelope(ProductElement(p, 12)));
    EnvelopeStartsWithDeclaration(ProductElement(p, 12));
  }

  lemma BlockStructure(p: Product)
    requires UnambiguousText(p)
    ensures AllClean(ProductBlock(p)) && TagNames(ProductBlock(p)) == ProductTags
  {
    ProductElementStructure(p, 8);
    NewlineNoOpen(8);
    AllCleanAppend([Text(Spaces(8))], ProductElement(p, 8));
    TagNamesAppend([Text(Spaces(8))], ProductElement(p, 8));
  }

  lemma PartsStructure(ps: seq<Product>)
    requires AllUnambiguous(ps)
    ensures forall k :: 0 <= k < |BlockParts(ps)| ==>
              AllClean(BlockParts(ps)[k]) && TagNames(BlockParts(ps)[k]) == ProductTags
  {
    forall k | 0 <= k < |BlockParts(ps)|
      ensures AllClean(BlockParts(ps)[k]) && TagNames(BlockParts(ps)[k]) == ProductTags
    {
      BlockStructure(ps[k]);
    }
  }

  lemma BlocksStructure(ps: seq<Product>)
    requires AllUnambiguous(ps)
    ensures AllClean(ProductBlocks(ps)) && TagNames(ProductBlocks(ps)) == Repeat(ProductTags, |ps|)
  {
    PartsStructure(ps);
    JoinedStructure(BlockParts(ps), ProductTags);
  }

  lemma JoinedStructure(parts: seq<seq<Piece>>, t: seq<string>)
    requires forall k :: 0 <= k < |parts| ==> AllClean(parts[k]) && TagNames(parts[k]) == t
    ensures AllClean(Join(parts, [Text("\n")])) && TagNames(Join(parts, [Text("\n")])) == Repeat(t, |parts|)
  {
    JoinStructure(Join(parts, [Text("\n")]), parts, [Text("\n")], t);
  }

  lemma ListBodyFacts(blocks: seq<Piece>)
    requires AllClean(blocks)
    ensures AllClean(ListBody(blocks))
    ensures TagNames(ListBody(blocks)) == ["products"] + TagNames(blocks) + ["/products"]
  {
    var inner := [Text(Newline(4))] + (blocks + [Text(Newline(12))]);
    NewlineNoOpen(4);
    NewlineNoOpen(12);
    AllCleanAppend(blocks, [Text(Newline(12))]);
    AllCleanAppend([Text(Newline(4))], blocks + [Text(Newline(12))]);
    TagNamesAppend(blocks, [Text(Newline(12))]);
    TagNamesAppend([Text(Newline(4))], blocks + [Text(Newline(12))]);
    assert "/" + "products" == "/products";
    ElementClean("products", inner);
    ElementTagNames("products", inner);
  }

  lemma ListBodyStructure(ps: seq<Product>)
    requires AllUnambiguous(ps)
    ensures AllClean(ProductsBody(ps))
    ensures TagNames(ProductsBody(ps)) == ["products"] + Repeat(ProductTags, |ps|) + ["/products"]
  {
    BlocksStructure(ps);
    ListBodyFacts(ProductBlocks(ps));
  }

  /** `products_to_xml` starts with the declaration, and its markup is the
      envelope and the body around one `<products>` element that holds one
      `<product>` element per product. */
  lemma ProductsXmlStructure(ps: seq<Product>)
    requires AllUnambiguous(ps)
    ensures Open(XmlDeclaration) <= ProductsToXml(ps)
    ensures Markups(ProductsToXml(ps))
            == HeadTags + (["products"] + Repeat(ProductTags, |ps|) + ["/products"]) + TailTags
  {
    ListBodyStructure(ps);
    EnvelopeAroundClean(ProductsBody(ps));
    EnvelopeTagNames(ProductsBody(ps));
    DocumentMarkups(SoapEnvelope(ProductsBody(ps)));
    EnvelopeStartsWithDeclaration(ProductsBody(ps));
  }

  // ---------------------------------------------------------------------
  // The layout of the list

  /** The text of the `<product>` elements of a list, each after the first
      preceded by a line break and eight spaces. */
  function ElementsText(ps: seq<Product>): string
    decreases |ps|
  {
    if |ps| == 0 then ""
    else if |ps| == 1 then Flatten(ProductElement(ps[0], 8))
    else Flatten(ProductElement(ps[0], 8)) + ("\n" + Spaces(8)) + ElementsText(ps[1..])
  }

  /** `'\n'.join` of the blocks: eight spaces before the first element, and
      a line break and eight spaces between consecutive elements. */
  lemma {:induction false} BlocksText(ps: seq<Product>)
    ensures Flatten(ProductBlocks(ps)) == if |ps| == 0 then "" else Spaces(8) + ElementsText(ps)
    decreases |ps|
  {
    if |ps| > 0 {
      var e := Flatten(ProductElement(ps[0], 8));
      FlattenAppend([Text(Spaces(8))], ProductElement(ps[0], 8));
      FlattenOne(Text(Spaces(8)));
      assert Flatten(ProductBlock(ps[0])) == Spaces(8) + e;
      if |ps| > 1 {
        var parts := BlockParts(ps);
        var rest := Join(parts[1..], [Text("\n")]);
        assert parts[1..] == BlockParts(ps[1..]);
        BlocksText(ps[1..]);
        FlattenAppend(parts[0], [Text("\n")] + rest);
        FlattenAppend([Text("\n")], rest);
        FlattenOne(Text("\n"));
        Regroup5(Spaces(8), e, "\n", Spaces(8), ElementsText(ps[1..]));
      }
    }
  }

  /** `products_to_xml` as text: the envelope's head, `<products>`, a line
      break and four spaces, the joined blocks, a line break and twelve
      spaces, `</products>` and the envelope's tail. */
  lemma ProductsXmlLayout(ps: seq<Product>)
    ensures ProductsToXml(ps)
            == Flatten(EnvelopeHead())
               + (Open("products") + Newline(4)
                  + (if |ps| == 0 then "" else Spaces(8) + ElementsText(ps))
                  + Newline(12) + Close("products"))
               + Flatten(EnvelopeTail())
  {
    EnvelopeText(ProductsBody(ps));
    ListBodyText(ProductBlocks(ps));
    BlocksText(ps);
  }

  lemma EnvelopeText(body: seq<Piece>)
    ensures Flatten(SoapEnvelope(body)) == Flatten(EnvelopeHead()) + Flatten(body) + Flatten(EnvelopeTail())
  {
    FlattenAppend(EnvelopeHead(), body + EnvelopeTail());
    FlattenAppend(body, EnvelopeTail());
    Assoc(Flatten(EnvelopeHead()), Flatten(body), Flatten(EnvelopeTail()));
  }

  lemma ListBodyText(blocks: seq<Piece>)
    ensures Flatten(ListBody(blocks))
            == Open("products") + Newline(4) + Flatten(blocks) + Newline(12) + Close("products")
  {
    var inner := [Text(Newline(4))] + (blocks + [Text(Newline(12))]);
    FlattenElement("products", inner);
    FlattenAppend([Text(Newline(4))], blocks + [Text(Newline(12))]);
    FlattenAppend(blocks, [Text(Newline(12))]);
    FlattenOne(Text(Newline(4)));
    FlattenOne(Text(Newline(12)));
    Regroup5(Open("products"), Newline(4), Flatten(blocks), Newline(12), Close("products"));
  }

  /** The name is inserted as it is, whatever it holds: the envelope is the
      text before `<name>`, which holds no `<name>`, then the name's own
      characters, then `</name>` and the rest. */
  lemma NameInsertedVerbatim(p: Product)
    ensures ProductToXml(p)
            == Flatten(NameFront(p)) + (Open("name") + (p.fields.name + Close("name") + Flatten(NameBack(p))))
    ensures IndexOf(ProductToXml(p), Open("name")) == Some(|Flatten(NameFront(p))|)
  {
    NameText(p);
    NameFrontClean(p);
    FirstTagAfterPieces(NameFront(p), "name", p.fields.name + Close("name") + Flatten(NameBack(p)));
  }

  lemma NameText(p: Product)
    ensures ProductToXml(p)
            == Flatten(NameFront(p)) + (Open("name") + (p.fields.name + Close("name") + Flatten(NameBack(p))))
  {
    var front := NameFront(p);
    var back := NameBack(p);
    NameSplit(p);
    FlattenAppend(front, Element("name", [Text(p.fields.name)]) + back);
    TextElementText("name", p.fields.name, back);
    Regroup2(Open("name"), p.fields.name, Close("name"), Flatten(back));
  }

  // ---------------------------------------------------------------------
  // Solver helpers: small regroupings passed to the solver by name.

  lemma CleanSix(a: Piece, b: Piece, c: Piece, d: Piece, e: Piece, f: Piece)
    requires Clean(a) && Clean(b) && Clean(c) && Clean(d) && Clean(e) && Clean(f)
    ensures AllClean([a, b, c, d, e, f])
  {
  }

  lemma CleanFour(a: Piece, b: Piece, c: Piece, d: Piece)
    requires Clean(a) && Clean(b) && Clean(c) && Clean(d)
    ensures AllClean([a, b, c, d])
  {
  }

  lemma Regroup5(a: string, b: string, c: string, d: string, e: string)
    ensures a + b + (c + (d + e)) == a + (b + (c + d) + e)
  {
  }

  lemma Regroup2(o: string, n: string, c: string, r: string)
    ensures o + n + c + r == o + (n + c + r)
  {
  }
}
