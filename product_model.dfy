/** The product record, its schema (setters, defaults, minimum bounds, the
    unique (name, variant) index) and the product collection. */
module ProductModel {
  import opened Responses
  import opened Text

  type ProductId = nat

  /** A stored product document. Prices are in minor units (paise);
      `createdAt` is the collection's creation counter at insert time. */
  datatype Product = Product(
    id: ProductId,
    name: string,
    variant: string,
    price: int,
    quantity: int,
    category: string,
    gst: int,
    createdAt: nat)

  const DefaultVariant: string := "Standard"
  const DefaultCategory: string := "General"
  const DefaultGst: int := 18

  /** The fields handed to the model's constructor; `None` is an absent field. */
  datatype ProductFields = ProductFields(
    name: string,
    variant: Option<string>,
    price: int,
    quantity: int,
    category: Option<string>,
    gst: Option<int>)

  /** Document construction: the trim setters on name and variant, and the
      defaults for the absent variant, category and gst. */
  function NewProduct(id: ProductId, f: ProductFields, createdAt: nat): Product {
    Product(
      id,
      Trim(f.name),
      if f.variant.Some? then Trim(f.variant.value) else DefaultVariant,
      f.price,
      f.quantity,
      if f.category.Some? then f.category.value else DefaultCategory,
      if f.gst.Some? then f.gst.value else DefaultGst,
      createdAt)
  }

  /** What the schema's validators accept at save: the required strings are
      not empty, and price, quantity and gst are at least 0. */
  predicate SchemaAccepts(p: Product) {
    && p.name != [] && p.variant != []
    && p.price >= 0 && p.quantity >= 0 && p.gst >= 0
  }

  /** A well-formed stored product: accepted by the schema, with the trimmed
      strings its setters produce. */
  predicate ProductValid(p: Product) {
    SchemaAccepts(p) && Trimmed(p.name) && Trimmed(p.variant)
  }

  /** Constructed documents have trimmed strings, and an absent variant,
      category or gst becomes "Standard", "General" or 18. */
  lemma SchemaDefaults(id: ProductId, f: ProductFields, createdAt: nat)
    ensures var p := NewProduct(id, f, createdAt);
      && p.name == Trim(f.name) && Trimmed(p.name) && Trimmed(p.variant)
      && (f.variant.None? ==> p.variant == DefaultVariant)
      && (f.category.None? ==> p.category == DefaultCategory)
      && (f.gst.None? ==> p.gst == DefaultGst)
      && (f.gst.Some? ==> p.gst == f.gst.value)
  {
  }

  /** A constructed document passes validation exactly when the name, and a
      supplied variant, are not blank and the numbers are not negative. */
  lemma NewProductAccepted(id: ProductId, f: ProductFields, createdAt: nat)
    ensures ProductValid(NewProduct(id, f, createdAt)) <==>
      && !AllSpace(f.name)
      && (f.variant.Some? ==> !AllSpace(f.variant.value))
      && f.price >= 0 && f.quantity >= 0
      && (f.gst.Some? ==> f.gst.value >= 0)
    ensures NewProduct(id, f, createdAt).variant == if f.variant.Some? then Trim(f.variant.value) else DefaultVariant
  {
    TrimEmpty(f.name);
    if f.variant.Some? {
      TrimEmpty(f.variant.value);
    }
  }

  /** What the store's insert accepts: the document passes the schema and
      neither its id nor its (name, variant) is already stored. */
  predicate SaveAccepts(products: map<ProductId, Product>, p: Product) {
    SchemaAccepts(p) && p.id !in products && !KeyTaken(products, p)
  }

  /** The two products collide on the unique (name, variant) index. */
  predicate SameKey(p: Product, q: Product) {
    p.name == q.name && p.variant == q.variant
  }

  /** Some other stored product already holds `p`'s (name, variant). */
  predicate KeyTaken(products: map<ProductId, Product>, p: Product) {
    exists k :: k in products && k != p.id && SameKey(products[k], p)
  }

  /** The unique index: no two stored products share (name, variant). */
  ghost predicate UniqueKeys(products: map<ProductId, Product>) {
    forall a, b :: a in products && b in products && a != b ==> !SameKey(products[a], products[b])
  }

  /** The collection's invariant. Every document is valid and stored under its
      own id; no two share (name, variant); `order` lists exactly the stored
      ids, oldest first, so creation times strictly increase along it; and
      every creation time is below the clock. */
  ghost predicate CatalogInvariant(products: map<ProductId, Product>, order: seq<ProductId>, clock: nat) {
    && Distinct(order)
    && DocumentsValid(products, clock)
    && UniqueKeys(products)
    && (forall k :: k in products <==> k in order)
    && Increasing(products, order)
  }

  /** No id occurs twice in `order`. */
  ghost predicate Distinct(order: seq<ProductId>) {
    forall i, j :: 0 <= i < j < |order| ==> order[i] != order[j]
  }

  /** Every document is valid, stored under its own id, and older than the clock. */
  ghost predicate DocumentsValid(products: map<ProductId, Product>, clock: nat) {
    forall k :: k in products ==> products[k].id == k && ProductValid(products[k]) && products[k].createdAt < clock
  }

  /** Creation times strictly increase along `order`. */
  ghost predicate Increasing(products: map<ProductId, Product>, order: seq<ProductId>)
    requires forall i :: 0 <= i < |order| ==> order[i] in products
  {
    forall i, j :: 0 <= i < j < |order| ==> products[order[i]].createdAt < products[order[j]].createdAt
  }

  /** Every stored product, oldest first. */
  function InOrder(products: map<ProductId, Product>, order: seq<ProductId>): (r: seq<Product>)
    requires forall i :: 0 <= i < |order| ==> order[i] in products
    ensures |r| == |order|
  {
    seq(|order|, i requires 0 <= i < |order| && order[i] in products => products[order[i]])
  }

  /** Under the invariant the listing has one entry per stored product. */
  lemma InOrderSize(products: map<ProductId, Product>, order: seq<ProductId>, clock: nat)
    requires CatalogInvariant(products, order, clock)
    ensures |InOrder(products, order)| == |products|
  {
    DistinctCard(order);
    assert products.Keys == Ids(order);
  }

  /** When the order lists exactly the stored ids, the listing holds exactly
      the stored documents. */
  lemma InOrderMembers(products: map<ProductId, Product>, order: seq<ProductId>)
    requires forall k :: k in products <==> k in order
    ensures forall p :: p in InOrder(products, order) <==> p in products.Values
  {
    var all := InOrder(products, order);
    forall p | p in products.Values
      ensures p in all
    {
      var k :| k in products && products[k] == p;
      var i :| 0 <= i < |order| && order[i] == k;
      assert all[i] == p;
    }
  }

  /** The ids an order lists. */
  function Ids(order: seq<ProductId>): (r: set<ProductId>)
    ensures forall k :: k in r <==> k in order
  {
    if order == [] then {} else {order[0]} + Ids(order[1..])
  }

  /** A duplicate-free order lists as many distinct ids as it has entries. */
  lemma {:induction false} DistinctCard(order: seq<ProductId>)
    requires Distinct(order)
    ensures |Ids(order)| == |order|
  {
    if order != [] {
      var rest := order[1..];
      assert Distinct(rest) by {
        forall i, j | 0 <= i < j < |rest| ensures rest[i] != rest[j] {
          assert rest[i] == order[i + 1] && rest[j] == order[j + 1];
        }
      }
      DistinctCard(rest);
      assert order[0] !in Ids(rest) by {
        forall j | 0 <= j < |rest| ensures rest[j] != order[0] {
          assert rest[j] == order[j + 1];
        }
      }
    }
  }

  /** Inserting a fresh, valid, non-colliding document created at the clock
      keeps the invariant, with the id appended to the order and the clock advanced. */
  lemma InsertKeepsInvariant(products: map<ProductId, Product>, order: seq<ProductId>, clock: nat, p: Product)
    requires CatalogInvariant(products, order, clock)
    requires p.id !in products && ProductValid(p) && !KeyTaken(products, p) && p.createdAt == clock
    ensures CatalogInvariant(products[p.id := p], order + [p.id], clock + 1)
  {
    InsertKeepsDocuments(products, clock, p);
    InsertKeepsIncreasing(products, order, p);
  }

  /** Inserting a fresh, valid, non-colliding document stamped with the clock
      keeps every document valid and older than the advanced clock, and the
      keys unique. */
  lemma InsertKeepsDocuments(products: map<ProductId, Product>, clock: nat, p: Product)
    requires DocumentsValid(products, clock) && UniqueKeys(products)
    requires p.id !in products && ProductValid(p) && !KeyTaken(products, p) && p.createdAt == clock
    ensures DocumentsValid(products[p.id := p], clock + 1) && UniqueKeys(products[p.id := p])
  {
  }

  /** Appending the id of a document newer than every stored one keeps the
      creation times increasing along the order. */
  lemma InsertKeepsIncreasing(products: map<ProductId, Product>, order: seq<ProductId>, p: Product)
    requires forall i :: 0 <= i < |order| ==> order[i] in products && order[i] != p.id
    requires Increasing(products, order)
    requires forall i :: 0 <= i < |order| ==> products[order[i]].createdAt < p.createdAt
    ensures Increasing(products[p.id := p], order + [p.id])
  {
    var products', order' := products[p.id := p], order + [p.id];
    forall i, j | 0 <= i < j < |order'|
      ensures products'[order'[i]].createdAt < products'[order'[j]].createdAt
    {
      assert order'[i] == order[i] && products'[order[i]] == products[order[i]];
      if j < |order| {
        assert order'[j] == order[j] && products'[order[j]] == products[order[j]];
      }
    }
  }

  /** Overwriting a stored document with a valid, non-colliding one that keeps
      its id and creation time keeps the invariant. */
  lemma ReplaceKeepsInvariant(products: map<ProductId, Product>, order: seq<ProductId>, clock: nat, p: Product)
    requires CatalogInvariant(products, order, clock)
    requires p.id in products && ProductValid(p) && !KeyTaken(products, p)
    requires p.createdAt == products[p.id].createdAt
    ensures CatalogInvariant(products[p.id := p], order, clock)
  {
    ReplaceKeepsDocuments(products, clock, p);
    ReplaceKeepsIncreasing(products, order, p);
  }

  /** Overwriting a document with a valid, non-colliding one under its own id
      keeps every document valid and the keys unique. */
  lemma ReplaceKeepsDocuments(products: map<ProductId, Product>, clock: nat, p: Product)
    requires DocumentsValid(products, clock) && UniqueKeys(products)
    requires p.id in products && ProductValid(p) && !KeyTaken(products, p)
    requires p.createdAt == products[p.id].createdAt
    ensures DocumentsValid(products[p.id := p], clock) && UniqueKeys(products[p.id := p])
  {
  }

  /** Overwriting a document without changing its creation time keeps the
      creation times increasing along the order. */
  lemma ReplaceKeepsIncreasing(products: map<ProductId, Product>, order: seq<ProductId>, p: Product)
    requires forall i :: 0 <= i < |order| ==> order[i] in products
    requires Increasing(products, order)
    requires p.id in products && p.createdAt == products[p.id].createdAt
    ensures Increasing(products[p.id := p], order)
  {
    var products' := products[p.id := p];
    forall i, j | 0 <= i < j < |order|
      ensures products'[order[i]].createdAt < products'[order[j]].createdAt
    {
      assert products'[order[i]].createdAt == products[order[i]].createdAt;
      assert products'[order[j]].createdAt == products[order[j]].createdAt;
    }
  }

  /** The position of `id` in `order`. */
  function IndexOf(order: seq<ProductId>, id: ProductId): (k: nat)
    requires id in order
    ensures k < |order| && order[k] == id
  {
    if order[0] == id then 0 else 1 + IndexOf(order[1..], id)
  }

  /** `order` with the one occurrence of `id` taken out. */
  function RemoveId(order: seq<ProductId>, id: ProductId): (r: seq<ProductId>)
    requires forall i, j :: 0 <= i < j < |order| ==> order[i] != order[j]
    ensures forall x :: x in r <==> x in order && x != id
    ensures id in order ==> |r| == |order| - 1
    ensures id !in order ==> r == order
    ensures id in order ==> forall i :: 0 <= i < |r| ==> r[i] == order[if i < IndexOf(order, id) then i else i + 1]
  {
    if id in order then
      var k := IndexOf(order, id);
      var r := order[..k] + order[k + 1..];
      assert forall i :: 0 <= i < |r| ==> r[i] == order[if i < k then i else i + 1];
      r
    else order
  }

  /** Deleting a stored document, and its id from the order, keeps the invariant. */
  lemma RemoveKeepsInvariant(products: map<ProductId, Product>, order: seq<ProductId>, clock: nat, id: ProductId)
    requires CatalogInvariant(products, order, clock)
    requires id in products
    ensures CatalogInvariant(products - {id}, RemoveId(order, id), clock)
  {
    assert forall i :: 0 <= i < |order| ==> order[i] in products;
    RemoveKeepsOrder(products, order, id);
    RestrictKeepsDocuments(products, clock, id);
  }

  /** Taking a stored id out of a duplicate-free order with increasing
      creation times, and its document out of the collection, keeps both. */
  lemma RemoveKeepsOrder(products: map<ProductId, Product>, order: seq<ProductId>, id: ProductId)
    requires Distinct(order) && id in order
    requires forall i :: 0 <= i < |order| ==> order[i] in products
    requires Increasing(products, order)
    ensures var r := RemoveId(order, id);
      && (forall i :: 0 <= i < |r| ==> r[i] in products - {id})
      && Distinct(r) && Increasing(products - {id}, r)
  {
    var k, r, products' := IndexOf(order, id), RemoveId(order, id), products - {id};
    forall i | 0 <= i < |r| ensures r[i] in products' && products'[r[i]] == products[r[i]] {
      assert r[i] == order[if i < k then i else i + 1];
    }
    forall i, j | 0 <= i < j < |r|
      ensures r[i] != r[j] && products'[r[i]].createdAt < products'[r[j]].createdAt
    {
      var i', j' := if i < k then i else i + 1, if j < k then j else j + 1;
      assert r[i] == order[i'] && r[j] == order[j'];
    }
  }

  /** Deleting a document keeps the others valid and their keys unique. */
  lemma RestrictKeepsDocuments(products: map<ProductId, Product>, clock: nat, id: ProductId)
    requires DocumentsValid(products, clock) && UniqueKeys(products)
    ensures DocumentsValid(products - {id}, clock) && UniqueKeys(products - {id})
  {
  }

  /** The product collection: documents by id, ids in insertion (natural)
      order, and the clock that stamps `createdAt`. */
  class Catalog {
    var products: map<ProductId, Product>
    var order: seq<ProductId>
    var clock: nat

    ghost predicate Valid()
      reads this
    {
      CatalogInvariant(products, order, clock)
    }

    constructor ()
      ensures Valid() && products == map[] && order == [] && clock == 0
    {
      products, order, clock := map[], [], 0;
    }
  }
}
