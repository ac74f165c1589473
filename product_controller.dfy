/** The product handlers: add, list, get, delete and partial update over the
    product collection. Each answers with a record or an error status. */
module ProductController {
  import opened Responses
  import opened Text
  import opened ProductModel
  import opened Seqs

  /** The body of an add request; `gst` may be absent. */
  datatype AddRequest = AddRequest(name: string, quantity: int, price: int, gst: Option<int>)

  /** The add route's validators: a name that is not blank, a quantity and a
      price of at least 0, and a supplied gst within 0..100. */
  predicate AddValidatorsPass(req: AddRequest) {
    && Trim(req.name) != [] && req.quantity >= 0 && req.price >= 0
    && (req.gst.Some? ==> 0 <= req.gst.value <= 100)
  }

  /** The handler's own check on top of the validators: an empty name, a zero
      quantity or a zero price is falsy and refused. */
  predicate HasFalsyField(req: AddRequest) {
    req.name == [] || req.quantity == 0 || req.price == 0
  }

  /** `gst || 18`: an absent or zero gst becomes 18. */
  function AddedGst(gst: Option<int>): int {
    if gst.Some? && gst.value != 0 then gst.value else DefaultGst
  }

  /** The document an add request builds: only name, quantity, price and gst
      are passed, so variant and category take their defaults. */
  function AddedProduct(req: AddRequest, id: ProductId, createdAt: nat): Product {
    NewProduct(id, ProductFields(req.name, None, req.price, req.quantity, None, Some(AddedGst(req.gst))), createdAt)
  }

  /** What an add request stores: the trimmed name, variant "Standard",
      category "General", and a gst of 18 unless a non-zero one was given;
      when the request passed the checks, the document is valid. */
  lemma AddedProductFields(req: AddRequest, id: ProductId, createdAt: nat)
    ensures var p := AddedProduct(req, id, createdAt);
      && p.id == id && p.createdAt == createdAt
      && p.name == Trim(req.name) && p.variant == DefaultVariant && p.category == DefaultCategory
      && p.quantity == req.quantity && p.price == req.price
      && (p.gst == 18 <==> req.gst.None? || req.gst.value == 0 || req.gst.value == 18)
      && (req.gst.Some? && req.gst.value != 0 ==> p.gst == req.gst.value)
    ensures AddValidatorsPass(req) && !HasFalsyField(req) ==>
      var p := AddedProduct(req, id, createdAt);
      ProductValid(p) && p.quantity > 0 && p.price > 0 && 1 <= p.gst <= 100
  {
    NewProductAccepted(id, ProductFields(req.name, None, req.price, req.quantity, None, Some(AddedGst(req.gst))), createdAt);
    TrimEmpty(req.name);
  }

  /** Looks a product up by id: the stored record, or NotFound. */
  function GetProductById(catalog: Catalog, id: ProductId): (r: Result<Product>)
    reads catalog
    ensures r.Ok? <==> id in catalog.products
    ensures r.Ok? ==> r.value == catalog.products[id]
    ensures r.Err? ==> r.error == NotFound
  {
    if id in catalog.products then Ok(catalog.products[id]) else Err(NotFound)
  }

  /** Every stored product exactly once, newest first. */
  function GetProducts(catalog: Catalog): (r: seq<Product>)
    reads catalog
    requires catalog.Valid()
    ensures forall i :: 0 <= i < |r| ==> r[i].id in catalog.products && catalog.products[r[i].id] == r[i]
    ensures forall k :: k in catalog.products ==> catalog.products[k] in r
    ensures forall i, j :: 0 <= i < j < |r| ==> r[i].createdAt > r[j].createdAt
    ensures |r| == |catalog.products|
  {
    assert forall i :: 0 <= i < |catalog.order| ==> catalog.order[i] in catalog.products;
    NewestFirst(catalog.products, catalog.order);
    InOrderSize(catalog.products, catalog.order, catalog.clock);
    Reversed(InOrder(catalog.products, catalog.order))
  }

  /** Reversing the stored order, along which creation times increase, lists
      every stored document once, newest first. */
  lemma NewestFirst(products: map<ProductId, Product>, order: seq<ProductId>)
    requires forall i :: 0 <= i < |order| ==> order[i] in products
    requires forall k :: k in products ==> k in order && products[k].id == k
    requires Increasing(products, order)
    ensures var r := Reversed(InOrder(products, order));
      && (forall i :: 0 <= i < |r| ==> r[i].id in products && products[r[i].id] == r[i])
      && (forall k :: k in products ==> products[k] in r)
      && (forall i, j :: 0 <= i < j < |r| ==> r[i].createdAt > r[j].createdAt)
  {
    var n := |order|;
    var r := Reversed(InOrder(products, order));
    assert forall i :: 0 <= i < n ==> r[i] == products[order[n - 1 - i]];
    forall k | k in products ensures products[k] in r {
      var m :| 0 <= m < n && order[m] == k;
      assert r[n - 1 - m] == products[k];
    }
    forall i, j | 0 <= i < j < n ensures r[i].createdAt > r[j].createdAt {
      assert r[i] == products[order[n - 1 - i]] && r[j] == products[order[n - 1 - j]];
    }
  }

  /** Adds a product. Validation failures and falsy fields give BadRequest;
      a document the store refuses (schema, taken id, taken (name, variant))
      gives ServerError; either way nothing is inserted. Otherwise exactly
      one document is inserted and read back under its id. */
  method AddProduct(catalog: Catalog, req: AddRequest, id: ProductId) returns (r: Result<Product>)
    requires catalog.Valid()
    modifies catalog
    ensures catalog.Valid()
    ensures r == Err(BadRequest) <==> !AddValidatorsPass(req) || HasFalsyField(req)
    ensures r.Ok? <==> (AddValidatorsPass(req) && !HasFalsyField(req) &&
      SaveAccepts(old(catalog.products), AddedProduct(req, id, old(catalog.clock))))
    ensures r.Err? ==> r.error != NotFound
    ensures r.Err? ==> catalog.products == old(catalog.products) && catalog.order == old(catalog.order) && catalog.clock == old(catalog.clock)
    ensures r.Ok? ==>
      && r.value == AddedProduct(req, id, old(catalog.clock))
      && catalog.products == old(catalog.products)[id := r.value]
      && catalog.order == old(catalog.order) + [id]
      && catalog.clock == old(catalog.clock) + 1
    ensures r.Ok? ==> id !in old(catalog.products) && GetProductById(catalog, id) == Ok(r.value)
  {
    if !AddValidatorsPass(req) {
      return Err(BadRequest);
    }
    if req.name == [] || req.quantity == 0 || req.price == 0 {
      return Err(BadRequest);
    }
    var product := AddedProduct(req, id, catalog.clock);
    if !SaveAccepts(catalog.products, product) {
      return Err(ServerError);
    }
    AddedProductFields(req, id, catalog.clock);
    InsertKeepsInvariant(catalog.products, catalog.order, catalog.clock, product);
    catalog.products := catalog.products[id := product];
    catalog.order := catalog.order + [id];
    catalog.clock := catalog.clock + 1;
    return Ok(product);
  }

  /** Deletes the product under `id`: NotFound and no change when it is
      absent, otherwise exactly that document is removed. */
  method DeleteProduct(catalog: Catalog, id: ProductId) returns (r: Result<Product>)
    requires catalog.Valid()
    modifies catalog
    ensures catalog.Valid()
    ensures r.Ok? <==> id in old(catalog.products)
    ensures r.Err? ==> r.error == NotFound && catalog.products == old(catalog.products) && catalog.order == old(catalog.order)
    ensures r.Ok? ==>
      && r.value == old(catalog.products)[id]
      && catalog.products == old(catalog.products) - {id}
      && catalog.order == RemoveId(old(catalog.order), id)
    ensures catalog.clock == old(catalog.clock)
    ensures GetProductById(catalog, id) == Err(NotFound)
  {
    if id !in catalog.products {
      return Err(NotFound);
    }
    var deleted := catalog.products[id];
    var products, order := catalog.products - {id}, RemoveId(catalog.order, id);
    RemoveKeepsInvariant(catalog.products, catalog.order, catalog.clock, id);
    assert CatalogInvariant(products, order, catalog.clock) && id !in products;
    catalog.products, catalog.order := products, order;
    return Ok(deleted);
  }

  /** The body of an update request: each field may be absent. */
  datatype UpdateRequest = UpdateRequest(name: Option<string>, quantity: Option<int>, price: Option<int>, gst: Option<int>)

  /** The update route's validators, each applying only to a supplied field. */
  predicate UpdateValidatorsPass(req: UpdateRequest) {
    && (req.name.Some? ==> Trim(req.name.value) != [])
    && (req.quantity.Some? ==> req.quantity.value >= 0)
    && (req.price.Some? ==> req.price.value >= 0)
    && (req.gst.Some? ==> 0 <= req.gst.value <= 100)
  }

  /** `p` with the supplied fields overwritten; the name through the trim setter. */
  function Updated(p: Product, req: UpdateRequest): Product {
    p.(name := if req.name.Some? then Trim(req.name.value) else p.name,
       quantity := if req.quantity.Some? then req.quantity.value else p.quantity,
       price := if req.price.Some? then req.price.value else p.price,
       gst := if req.gst.Some? then req.gst.value else p.gst)
  }

  /** An update changes only the supplied fields among name, quantity, price
      and gst, never id, variant, category or creation time, and a validated
      update of a valid product is valid. */
  lemma UpdateChangesOnlySupplied(p: Product, req: UpdateRequest)
    ensures var q := Updated(p, req);
      && q.id == p.id && q.variant == p.variant && q.category == p.category && q.createdAt == p.createdAt
      && (req.name.None? ==> q.name == p.name) && (req.quantity.None? ==> q.quantity == p.quantity)
      && (req.price.None? ==> q.price == p.price) && (req.gst.None? ==> q.gst == p.gst)
      && (req.quantity.Some? ==> q.quantity == req.quantity.value)
      && (req.price.Some? ==> q.price == req.price.value)
      && (req.gst.Some? ==> q.gst == req.gst.value)
      && (req.name.Some? ==> q.name == Trim(req.name.value))
    ensures ProductValid(p) && UpdateValidatorsPass(req) ==> ProductValid(Updated(p, req))
  {
    if req.name.Some? {
      TrimEmpty(req.name.value);
    }
  }

  /** Updates the product under `id`. Validation failures give BadRequest,
      an absent id NotFound, a (name, variant) taken by another product
      ServerError, each with no change; otherwise the updated record replaces
      the stored one and is returned. */
  method UpdateProduct(catalog: Catalog, id: ProductId, req: UpdateRequest) returns (r: Result<Product>)
    requires catalog.Valid()
    modifies catalog
    ensures catalog.Valid()
    ensures (r == Err(BadRequest)) <==> !UpdateValidatorsPass(req)
    ensures UpdateValidatorsPass(req) && id !in old(catalog.products) ==> r == Err(NotFound)
    ensures (UpdateValidatorsPass(req) && id in old(catalog.products) &&
             KeyTaken(old(catalog.products), Updated(old(catalog.products)[id], req)))
      ==> r == Err(ServerError)
    ensures r.Ok? <==> (UpdateValidatorsPass(req) && id in old(catalog.products) &&
      !KeyTaken(old(catalog.products), Updated(old(catalog.products)[id], req)))
    ensures r.Err? ==> catalog.products == old(catalog.products)
    ensures r.Ok? ==>
      && r.value == Updated(old(catalog.products)[id], req)
      && catalog.products == old(catalog.products)[id := r.value]
      && GetProductById(catalog, id) == Ok(r.value)
    ensures catalog.order == old(catalog.order) && catalog.clock == old(catalog.clock)
  {
    if !UpdateValidatorsPass(req) {
      return Err(BadRequest);
    }
    if id !in catalog.products {
      return Err(NotFound);
    }
    var updated := Updated(catalog.products[id], req);
    if KeyTaken(catalog.products, updated) {
      return Err(ServerError);
    }
    UpdateChangesOnlySupplied(catalog.products[id], req);
    ReplaceKeepsInvariant(catalog.products, catalog.order, catalog.clock, updated);
    catalog.products := catalog.products[id := updated];
    return Ok(updated);
  }
}
