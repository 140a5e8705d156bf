/** The product catalogue of server.js: the product row, the defaults that
    `POST /api/products` fills in, the partial update of `PUT /api/products/:id`
    (built as a list of SET clauses and applied by the database), and the image
    endpoint `GET /api/products/image/:id`. */
module Catalog {
  import opened Common

  /** Route prefix under which product images are served from the database. */
  const ImageRoute := "/api/products/image/"
  const DefaultCategory := "Vegetables"
  const DefaultUom := "kg"
  const DefaultImageMimeType := "image/jpeg"

  /** The image URL a product gets once its image is held as a blob. */
  function ImageUrl(id: nat): string
  {
    ImageRoute + Decimal(id)
  }

  /** Every product's image URL is its own. */
  lemma ImageUrlInjective(a: nat, b: nat)
    requires ImageUrl(a) == ImageUrl(b)
    ensures a == b
  {
    assert Decimal(a) == ImageUrl(a)[|ImageRoute|..];
    assert Decimal(b) == ImageUrl(b)[|ImageRoute|..];
    DecimalInjective(a, b);
  }

  /** An uploaded file as the upload middleware hands it over (buffer and client MIME type). */
  datatype Upload = Upload(buffer: seq<byte>, mimetype: string)

  /** One row of the `products` table. */
  datatype Product = Product(
    name: string,
    price: int,
    stock: int,
    imageUrl: Option<string>,
    description: Option<string>,
    category: string,
    uom: string,
    imageBlob: Option<seq<byte>>,
    imageMimeType: Option<string>)

  /** The row `POST /api/products` leaves behind for the new id: empty optional
      text falls back to the defaults, and an upload is stored with a URL that
      points at the image endpoint for this id. */
  function NewProduct(id: nat, name: string, price: int, stock: int, description: Option<string>,
                      category: Option<string>, uom: Option<string>, image: Option<Upload>): (p: Product)
    ensures p.category != "" && p.uom != "" && p.description != Some("")
    ensures p.imageUrl.Some? <==> image.Some?
    ensures p.imageBlob.Some? <==> image.Some?
    ensures image.Some? ==> p.imageUrl == Some(ImageUrl(id)) && p.imageBlob == Some(image.value.buffer)
                            && p.imageMimeType == Some(image.value.mimetype)
  {
    Product(name, price, stock,
            if image.Some? then Some(ImageUrl(id)) else None,
            if Truthy(description) then description else None,
            OrElse(category, DefaultCategory),
            OrElse(uom, DefaultUom),
            if image.Some? then Some(image.value.buffer) else None,
            if image.Some? then Some(image.value.mimetype) else None)
  }

  /** The defaults of the INSERT: a falsy category, unit or description falls
      back to `Vegetables`, `kg` and null, a truthy one is kept; name, price and
      stock are stored as sent; without an upload the three image columns are null. */
  lemma CreateDefaults(id: nat, name: string, price: int, stock: int, description: Option<string>,
                       category: Option<string>, uom: Option<string>, image: Option<Upload>)
    ensures var p := NewProduct(id, name, price, stock, description, category, uom, image);
            && p.name == name && p.price == price && p.stock == stock
            && (Truthy(category) ==> p.category == category.value)
            && (!Truthy(category) ==> p.category == DefaultCategory)
            && (Truthy(uom) ==> p.uom == uom.value)
            && (!Truthy(uom) ==> p.uom == DefaultUom)
            && (Truthy(description) ==> p.description == description)
            && (!Truthy(description) ==> p.description == None)
            && (image.None? ==> p.imageUrl == None && p.imageBlob == None && p.imageMimeType == None)
  {
  }

  /** The fields a `PUT /api/products/:id` request may carry; None is a field the request left out. */
  datatype ProductPatch = ProductPatch(
    name: Option<string>,
    price: Option<int>,
    stock: Option<int>,
    description: Option<string>,
    category: Option<string>,
    uom: Option<string>,
    image: Option<Upload>)

  /** One `column=?` entry of the UPDATE statement with its parameter. */
  datatype Clause =
    | SetName(name: string)
    | SetPrice(price: int)
    | SetStock(stock: int)
    | SetDescription(description: string)
    | SetCategory(category: string)
    | SetUom(uom: string)
    | SetImageBlob(blob: seq<byte>)
    | SetImageMimeType(mime: string)
    | SetImageUrl(url: string)

  /** The SET clauses the update handler pushes, in its order. Name, price,
      category and uom count only when truthy; stock and description whenever
      they are present; the three image columns together when a file came. */
  function SetClauses(id: nat, patch: ProductPatch): (cs: seq<Clause>)
    ensures |cs| == (if Truthy(patch.name) then 1 else 0) + (if TruthyNumber(patch.price) then 1 else 0)
                    + (if patch.stock.Some? then 1 else 0) + (if patch.description.Some? then 1 else 0)
                    + (if Truthy(patch.category) then 1 else 0) + (if Truthy(patch.uom) then 1 else 0)
                    + (if patch.image.Some? then 3 else 0)
  {
    NameClauses(patch.name) + (PriceClauses(patch.price) + (StockClauses(patch.stock) + LaterClauses(id, patch)))
  }

  /** The name clause, when there is one, comes first, and the three image
      clauses, when a file came, come last: blob, MIME type, then URL. */
  lemma SetClausesEnds(id: nat, patch: ProductPatch)
    ensures var cs := SetClauses(id, patch);
            Truthy(patch.name) ==> cs[0] == SetName(patch.name.value)
    ensures var cs := SetClauses(id, patch);
            patch.image.Some? ==>
              cs[|cs| - 3..] == [SetImageBlob(patch.image.value.buffer), SetImageMimeType(patch.image.value.mimetype),
                                 SetImageUrl(ImageUrl(id))]
  {
    var image := ImageClauses(id, patch.image);
    var s := StockClauses(patch.stock) + LaterClauses(id, patch);
    var pr := PriceClauses(patch.price) + s;
    SuffixOfAppend(StockClauses(patch.stock), LaterClauses(id, patch), image);
    SuffixOfAppend(PriceClauses(patch.price), s, image);
    SuffixOfAppend(NameClauses(patch.name), pr, image);
  }

  /** A suffix of `b` stays a suffix of `a + b`. */
  lemma SuffixOfAppend(a: seq<Clause>, b: seq<Clause>, t: seq<Clause>)
    requires |t| <= |b| && b[|b| - |t|..] == t
    ensures (a + b)[|a + b| - |t|..] == t
  {
    assert (a + b)[|a + b| - |t|..] == b[|b| - |t|..];
  }

  /** The clauses pushed after the stock clause. */
  function LaterClauses(id: nat, patch: ProductPatch): (cs: seq<Clause>)
    ensures |cs| == |DescriptionClauses(patch.description)| + |CategoryClauses(patch.category)|
                    + |UomClauses(patch.uom)| + |ImageClauses(id, patch.image)|
    ensures cs[|cs| - |ImageClauses(id, patch.image)|..] == ImageClauses(id, patch.image)
  {
    var image := ImageClauses(id, patch.image);
    var u := UomClauses(patch.uom) + image;
    var c := CategoryClauses(patch.category) + u;
    SuffixOfAppend(UomClauses(patch.uom), image, image);
    SuffixOfAppend(CategoryClauses(patch.category), u, image);
    SuffixOfAppend(DescriptionClauses(patch.description), c, image);
    DescriptionClauses(patch.description) + c
  }

  /** The same clauses, grouped in the order the handler pushes them. */
  lemma SetClausesInPushOrder(id: nat, patch: ProductPatch)
    ensures SetClauses(id, patch)
            == [] + NameClauses(patch.name) + PriceClauses(patch.price) + StockClauses(patch.stock)
               + DescriptionClauses(patch.description) + CategoryClauses(patch.category)
               + UomClauses(patch.uom) + ImageClauses(id, patch.image)
  {
    Regroup(NameClauses(patch.name), PriceClauses(patch.price), StockClauses(patch.stock),
            DescriptionClauses(patch.description), CategoryClauses(patch.category),
            UomClauses(patch.uom), ImageClauses(id, patch.image));
  }

  lemma Regroup(a: seq<Clause>, b: seq<Clause>, c: seq<Clause>, d: seq<Clause>,
                e: seq<Clause>, f: seq<Clause>, g: seq<Clause>)
    ensures a + (b + (c + (d + (e + (f + g))))) == [] + a + b + c + d + e + f + g
  {
    assert [] + a == a;
    assert e + (f + g) == e + f + g;
    assert d + (e + f + g) == d + e + f + g;
    assert c + (d + e + f + g) == c + d + e + f + g;
    assert b + (c + d + e + f + g) == b + c + d + e + f + g;
    assert a + (b + c + d + e + f + g) == a + b + c + d + e + f + g;
  }

  function NameClauses(name: Option<string>): (cs: seq<Clause>)
    ensures |cs| == if Truthy(name) then 1 else 0
  {
    if Truthy(name) then [SetName(name.value)] else []
  }

  function PriceClauses(price: Option<int>): (cs: seq<Clause>)
    ensures |cs| == if TruthyNumber(price) then 1 else 0
  {
    if TruthyNumber(price) then [SetPrice(price.value)] else []
  }

  function StockClauses(stock: Option<int>): (cs: seq<Clause>)
    ensures |cs| == if stock.Some? then 1 else 0
  {
    if stock.Some? then [SetStock(stock.value)] else []
  }

  function DescriptionClauses(description: Option<string>): (cs: seq<Clause>)
    ensures |cs| == if description.Some? then 1 else 0
  {
    if description.Some? then [SetDescription(description.value)] else []
  }

  function CategoryClauses(category: Option<string>): (cs: seq<Clause>)
    ensures |cs| == if Truthy(category) then 1 else 0
  {
    if Truthy(category) then [SetCategory(category.value)] else []
  }

  function UomClauses(uom: Option<string>): (cs: seq<Clause>)
    ensures |cs| == if Truthy(uom) then 1 else 0
  {
    if Truthy(uom) then [SetUom(uom.value)] else []
  }

  function ImageClauses(id: nat, image: Option<Upload>): (cs: seq<Clause>)
    ensures |cs| == if image.Some? then 3 else 0
  {
    if image.Some?
    then [SetImageBlob(image.value.buffer), SetImageMimeType(image.value.mimetype), SetImageUrl(ImageUrl(id))]
    else []
  }

  /** The columns of the `products` table that an UPDATE may set. */
  datatype Column = NameColumn | PriceColumn | StockColumn | DescriptionColumn | CategoryColumn
                  | UomColumn | ImageBlobColumn | ImageMimeTypeColumn | ImageUrlColumn

  /** The column a clause writes. */
  function ColumnOf(c: Clause): Column
  {
    match c
    case SetName(_) => NameColumn
    case SetPrice(_) => PriceColumn
    case SetStock(_) => StockColumn
    case SetDescription(_) => DescriptionColumn
    case SetCategory(_) => CategoryColumn
    case SetUom(_) => UomColumn
    case SetImageBlob(_) => ImageBlobColumn
    case SetImageMimeType(_) => ImageMimeTypeColumn
    case SetImageUrl(_) => ImageUrlColumn
  }

  /** No clause of `cs` writes column `col`. */
  predicate Untouched(cs: seq<Clause>, col: Column)
  {
    forall i :: 0 <= i < |cs| ==> ColumnOf(cs[i]) != col
  }

  function ApplyClause(p: Product, c: Clause): Product
  {
    match c
    case SetName(n) => p.(name := n)
    case SetPrice(v) => p.(price := v)
    case SetStock(s) => p.(stock := s)
    case SetDescription(d) => p.(description := Some(d))
    case SetCategory(k) => p.(category := k)
    case SetUom(u) => p.(uom := u)
    case SetImageBlob(b) => p.(imageBlob := Some(b))
    case SetImageMimeType(m) => p.(imageMimeType := Some(m))
    case SetImageUrl(u) => p.(imageUrl := Some(u))
  }

  /** The row after the database runs `UPDATE products SET <clauses>`. */
  function ApplyAll(p: Product, cs: seq<Clause>): Product
    decreases |cs|
  {
    if cs == [] then p else ApplyAll(ApplyClause(p, cs[0]), cs[1..])
  }

  /** Rows `p` and `q` agree on column `col`. */
  predicate SameColumn(p: Product, q: Product, col: Column)
  {
    match col
    case NameColumn => p.name == q.name
    case PriceColumn => p.price == q.price
    case StockColumn => p.stock == q.stock
    case DescriptionColumn => p.description == q.description
    case CategoryColumn => p.category == q.category
    case UomColumn => p.uom == q.uom
    case ImageBlobColumn => p.imageBlob == q.imageBlob
    case ImageMimeTypeColumn => p.imageMimeType == q.imageMimeType
    case ImageUrlColumn => p.imageUrl == q.imageUrl
  }

  /** A column that no clause of the UPDATE names keeps its value. */
  lemma {:induction false} ApplyAllFrame(p: Product, cs: seq<Clause>, col: Column)
    requires Untouched(cs, col)
    ensures SameColumn(ApplyAll(p, cs), p, col)
    decreases |cs|
  {
    if cs != [] {
      var q := ApplyClause(p, cs[0]);
      UntouchedTail(cs, col);
      ApplyAllFrame(q, cs[1..], col);
      assert SameColumn(q, p, col);
    }
  }

  lemma UntouchedTail(cs: seq<Clause>, col: Column)
    requires cs != []
    ensures Untouched(cs, col) <==> ColumnOf(cs[0]) != col && Untouched(cs[1..], col)
  {
    if ColumnOf(cs[0]) != col && Untouched(cs[1..], col) {
      forall i | 0 < i < |cs| ensures ColumnOf(cs[i]) != col {
        assert cs[i] == cs[1..][i - 1];
      }
    }
  }

  lemma {:induction false} ApplyAllAppend(p: Product, a: seq<Clause>, b: seq<Clause>)
    ensures ApplyAll(p, a + b) == ApplyAll(ApplyAll(p, a), b)
    decreases |a|
  {
    if a == [] {
      assert a + b == b;
    } else {
      var q := ApplyClause(p, a[0]);
      assert (a + b)[0] == a[0];
      assert (a + b)[1..] == a[1..] + b;
      assert ApplyAll(p, a + b) == ApplyAll(q, a[1..] + b);
      ApplyAllAppend(q, a[1..], b);
    }
  }

  /** The row that product `id` holds after the update handler runs with `patch`. */
  function Patched(p: Product, id: nat, patch: ProductPatch): Product
  {
    ApplyAll(p, SetClauses(id, patch))
  }

  /** The update described column by column: each column takes the supplied
      value when the handler's rule for it admits the field, and keeps its value otherwise. */
  function PatchByColumn(p: Product, id: nat, patch: ProductPatch): (r: Product)
    ensures r.name == "" ==> p.name == ""
    ensures r.category == "" ==> p.category == ""
    ensures r.uom == "" ==> p.uom == ""
    ensures r.price == 0 ==> p.price == 0
    ensures (r.imageBlob == p.imageBlob && r.imageMimeType == p.imageMimeType && r.imageUrl == p.imageUrl)
            || (r.imageBlob.Some? && r.imageMimeType.Some? && r.imageUrl == Some(ImageUrl(id)))
  {
    p.(name := if Truthy(patch.name) then patch.name.value else p.name,
       price := if TruthyNumber(patch.price) then patch.price.value else p.price,
       stock := if patch.stock.Some? then patch.stock.value else p.stock,
       description := if patch.description.Some? then patch.description else p.description,
       category := if Truthy(patch.category) then patch.category.value else p.category,
       uom := if Truthy(patch.uom) then patch.uom.value else p.uom,
       imageBlob := if patch.image.Some? then Some(patch.image.value.buffer) else p.imageBlob,
       imageMimeType := if patch.image.Some? then Some(patch.image.value.mimetype) else p.imageMimeType,
       imageUrl := if patch.image.Some? then Some(ImageUrl(id)) else p.imageUrl)
  }

  /** Sending the same update twice leaves the row as sending it once. */
  lemma PatchIdempotent(p: Product, id: nat, patch: ProductPatch)
    ensures Patched(Patched(p, id, patch), id, patch) == Patched(p, id, patch)
  {
    PatchedColumns(p, id, patch);
    PatchedColumns(Patched(p, id, patch), id, patch);
  }

  /** Running at most one clause and then the rest. */
  lemma ApplyOptional(q: Product, cs: seq<Clause>, rest: seq<Clause>)
    requires |cs| <= 1
    ensures ApplyAll(q, cs + rest) == ApplyAll(if cs == [] then q else ApplyClause(q, cs[0]), rest)
  {
    if cs == [] {
      assert cs + rest == rest;
    } else {
      assert (cs + rest)[0] == cs[0];
      assert (cs + rest)[1..] == rest;
    }
  }

  /** The assembled UPDATE changes the row exactly as the column-by-column reading says. */
  lemma PatchedColumns(p: Product, id: nat, patch: ProductPatch)
    ensures Patched(p, id, patch) == PatchByColumn(p, id, patch)
  {
    var q3 := p.(name := if Truthy(patch.name) then patch.name.value else p.name,
                 price := if TruthyNumber(patch.price) then patch.price.value else p.price,
                 stock := if patch.stock.Some? then patch.stock.value else p.stock);
    ApplyEarlierClauses(p, id, patch);
    ApplyLaterClauses(q3, id, patch);
  }

  /** Name, price and stock clauses. */
  lemma ApplyEarlierClauses(p: Product, id: nat, patch: ProductPatch)
    ensures ApplyAll(p, SetClauses(id, patch))
            == ApplyAll(p.(name := if Truthy(patch.name) then patch.name.value else p.name,
                           price := if TruthyNumber(patch.price) then patch.price.value else p.price,
                           stock := if patch.stock.Some? then patch.stock.value else p.stock),
                        LaterClauses(id, patch))
  {
    var q1 := p.(name := if Truthy(patch.name) then patch.name.value else p.name);
    var q2 := q1.(price := if TruthyNumber(patch.price) then patch.price.value else p.price);
    var q3 := q2.(stock := if patch.stock.Some? then patch.stock.value else p.stock);
    var tail2 := StockClauses(patch.stock) + LaterClauses(id, patch);
    var tail1 := PriceClauses(patch.price) + tail2;
    assert ApplyAll(p, SetClauses(id, patch)) == ApplyAll(q1, tail1) by {
      ApplyOptional(p, NameClauses(patch.name), tail1);
    }
    assert ApplyAll(q1, tail1) == ApplyAll(q2, tail2) by {
      ApplyOptional(q1, PriceClauses(patch.price), tail2);
    }
    assert ApplyAll(q2, tail2) == ApplyAll(q3, LaterClauses(id, patch)) by {
      ApplyOptional(q2, StockClauses(patch.stock), LaterClauses(id, patch));
    }
  }

  /** Description, category, uom and image clauses. */
  lemma ApplyLaterClauses(q: Product, id: nat, patch: ProductPatch)
    ensures ApplyAll(q, LaterClauses(id, patch))
            == q.(description := if patch.description.Some? then patch.description else q.description,
                  category := if Truthy(patch.category) then patch.category.value else q.category,
                  uom := if Truthy(patch.uom) then patch.uom.value else q.uom,
                  imageBlob := if patch.image.Some? then Some(patch.image.value.buffer) else q.imageBlob,
                  imageMimeType := if patch.image.Some? then Some(patch.image.value.mimetype) else q.imageMimeType,
                  imageUrl := if patch.image.Some? then Some(ImageUrl(id)) else q.imageUrl)
  {
    var q4 := q.(description := if patch.description.Some? then patch.description else q.description);
    var q5 := q4.(category := if Truthy(patch.category) then patch.category.value else q.category);
    var q6 := q5.(uom := if Truthy(patch.uom) then patch.uom.value else q.uom);
    var tail5 := UomClauses(patch.uom) + ImageClauses(id, patch.image);
    var tail4 := CategoryClauses(patch.category) + tail5;
    assert ApplyAll(q, LaterClauses(id, patch)) == ApplyAll(q4, tail4) by {
      ApplyOptional(q, DescriptionClauses(patch.description), tail4);
    }
    assert ApplyAll(q4, tail4) == ApplyAll(q5, tail5) by {
      ApplyOptional(q4, CategoryClauses(patch.category), tail5);
    }
    assert ApplyAll(q5, tail5) == ApplyAll(q6, ImageClauses(id, patch.image)) by {
      ApplyOptional(q5, UomClauses(patch.uom), ImageClauses(id, patch.image));
    }
    ApplyImageClauses(q6, id, patch.image);
  }

  /** The three image clauses set blob, MIME type and URL together. */
  lemma ApplyImageClauses(q: Product, id: nat, image: Option<Upload>)
    ensures ApplyAll(q, ImageClauses(id, image))
            == if image.Some?
               then q.(imageBlob := Some(image.value.buffer), imageMimeType := Some(image.value.mimetype),
                       imageUrl := Some(ImageUrl(id)))
               else q
  {
    if image.Some? {
      var cs := ImageClauses(id, image);
      var r1 := ApplyClause(q, cs[0]);
      var r2 := ApplyClause(r1, cs[1]);
      assert cs[1..][1..][1..] == [];
      assert ApplyAll(q, cs) == ApplyAll(r1, cs[1..]);
      assert ApplyAll(r1, cs[1..]) == ApplyAll(r2, cs[1..][1..]);
      assert ApplyAll(r2, cs[1..][1..]) == ApplyClause(r2, cs[2]);
    }
  }

  /** The handler issues no UPDATE exactly when the request supplies nothing it
      acts on; the row then stays as it was. */
  lemma NothingSuppliedKeepsRow(p: Product, id: nat, patch: ProductPatch)
    ensures SetClauses(id, patch) == [] <==>
              !Truthy(patch.name) && !TruthyNumber(patch.price) && patch.stock.None? && patch.description.None?
              && !Truthy(patch.category) && !Truthy(patch.uom) && patch.image.None?
    ensures SetClauses(id, patch) == [] ==> Patched(p, id, patch) == p
  {
    var cs := SetClauses(id, patch);
    if Truthy(patch.name) { assert cs[0] == SetName(patch.name.value); }
  }

  /** A price of 0 is dropped while a stock of 0 is written; an empty description
      is written as the empty string (where creation would store null). */
  lemma FalsyFieldRules(p: Product, id: nat)
    ensures Patched(p, id, ProductPatch(None, Some(0), Some(0), Some(""), Some(""), Some(""), None))
            == p.(stock := 0, description := Some(""))
  {
    PatchedColumns(p, id, ProductPatch(None, Some(0), Some(0), Some(""), Some(""), Some(""), None));
  }

  /** The bytes and Content-Type that the image endpoint sends for product `id`,
      or None where it answers 404 (no such row, or no blob). */
  function ImageResponse(products: map<nat, Product>, id: nat): (r: Option<(seq<byte>, string)>)
    ensures r.Some? <==> id in products && products[id].imageBlob.Some?
    ensures r.Some? ==> r.value.0 == products[id].imageBlob.value && r.value.1 != ""
    ensures r.Some? && products[id].imageMimeType.Some? && products[id].imageMimeType.value != "" ==>
              r.value.1 == products[id].imageMimeType.value
    ensures r.Some? && !Truthy(products[id].imageMimeType) ==> r.value.1 == DefaultImageMimeType
  {
    if id !in products || products[id].imageBlob.None? then None
    else Some((products[id].imageBlob.value, OrElse(products[id].imageMimeType, DefaultImageMimeType)))
  }

  /** An image uploaded at creation is served back byte for byte with its MIME
      type (or image/jpeg when the client sent none). */
  lemma CreatedImageRoundTrip(products: map<nat, Product>, id: nat, name: string, price: int, stock: int,
                              description: Option<string>, category: Option<string>, uom: Option<string>, image: Upload)
    ensures ImageResponse(products[id := NewProduct(id, name, price, stock, description, category, uom, Some(image))], id)
            == Some((image.buffer, if image.mimetype != "" then image.mimetype else DefaultImageMimeType))
  {
  }

  /** An image supplied to an update replaces the served bytes and type. */
  lemma UpdatedImageRoundTrip(products: map<nat, Product>, id: nat, patch: ProductPatch)
    requires id in products && patch.image.Some?
    ensures ImageResponse(products[id := Patched(products[id], id, patch)], id)
            == Some((patch.image.value.buffer,
                     if patch.image.value.mimetype != "" then patch.image.value.mimetype else DefaultImageMimeType))
  {
    PatchedColumns(products[id], id, patch);
  }
}
