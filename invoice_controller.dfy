/** Invoice issuance and the invoice queries. Issuance validates the request,
    totals the items, saves the invoice (renumbering and retrying once on a
    duplicate key) and then decrements the stock of each item's product,
    item by item, clamped at zero and without letting one item's failure
    stop the others. */
module InvoiceController {
  import opened Responses
  import opened Text
  import opened Seqs
  import opened ProductModel

  type InvoiceId = nat

  datatype Customer = Customer(name: string, phone: Option<string>)

  /** A line item as the client sends it. Amounts are in paise; `total` is
      supplied by the client and trusted, never recomputed. `productId` is the
      item's `_id`, under which the stock loop looks the product up. */
  datatype LineItem = LineItem(
    productId: ProductId,
    name: string,
    quantity: int,
    price: int,
    gst: Option<int>,
    total: int)

  /** The body of a create request; missing members are `None`. */
  datatype InvoiceRequest = InvoiceRequest(
    invoiceNumber: string,
    customer: Option<Customer>,
    items: Option<seq<LineItem>>,
    gst: Option<int>)

  /** A stored invoice. Its items are the request's items as sanitized. */
  datatype Invoice = Invoice(
    id: InvoiceId,
    serialNo: string,
    invoiceNumber: string,
    customer: Customer,
    items: seq<LineItem>,
    gst: int,
    grandTotal: int)

  // ----- validation -----

  /** The per-item validators: a name that is not blank, a quantity of at
      least 1, a price and a total of at least 0, and a gst within 0..100
      when supplied. */
  predicate ItemValidatorsPass(item: LineItem) {
    && Trim(item.name) != [] && item.quantity >= 1 && item.price >= 0 && item.total >= 0
    && (item.gst.Some? ==> 0 <= item.gst.value <= 100)
  }

  /** The create route's validators: invoice number and customer name not
      blank, at least one item, and every item valid. */
  predicate InvoiceValidatorsPass(req: InvoiceRequest) {
    && Trim(req.invoiceNumber) != []
    && req.customer.Some? && Trim(req.customer.value.name) != []
    && req.items.Some? && |req.items.value| >= 1
    && forall i :: 0 <= i < |req.items.value| ==> ItemValidatorsPass(req.items.value[i])
  }

  /** The handler's own check: a falsy invoice number, customer or items, or no items. */
  predicate MissingFields(req: InvoiceRequest) {
    req.invoiceNumber == [] || req.customer.None? || req.items.None? || |req.items.value| == 0
  }

  /** An item as the `items.*.name` sanitizer leaves it: its name trimmed. */
  function SanitizeItem(item: LineItem): LineItem {
    item.(name := Trim(item.name))
  }

  /** The request as the handler reads it once the route's `trim()` sanitizers
      have rewritten the body: the invoice number, the customer's name and
      phone and every item's name are replaced by their trims, and nothing
      else changes. */
  function Sanitize(req: InvoiceRequest): (r: InvoiceRequest)
    ensures r.invoiceNumber == Trim(req.invoiceNumber) && r.gst == req.gst
    ensures r.customer.Some? <==> req.customer.Some?
    ensures r.customer.Some? ==>
      && r.customer.value.name == Trim(req.customer.value.name)
      && (r.customer.value.phone.Some? <==> req.customer.value.phone.Some?)
      && (r.customer.value.phone.Some? ==> r.customer.value.phone.value == Trim(req.customer.value.phone.value))
    ensures r.items.Some? <==> req.items.Some?
    ensures r.items.Some? ==>
      && |r.items.value| == |req.items.value|
      && forall i :: 0 <= i < |r.items.value| ==>
           r.items.value[i] == req.items.value[i].(name := Trim(req.items.value[i].name))
  {
    var customer := if req.customer.None? then None else
      var c := req.customer.value;
      Some(Customer(Trim(c.name), if c.phone.None? then None else Some(Trim(c.phone.value))));
    var items := if req.items.None? then None else
      var its := req.items.value;
      Some(seq(|its|, i requires 0 <= i < |its| => SanitizeItem(its[i])));
    InvoiceRequest(Trim(req.invoiceNumber), customer, items, req.gst)
  }

  /** Sanitizing is idempotent: a sanitized request is left as it is. */
  lemma SanitizeIdempotent(req: InvoiceRequest)
    ensures Sanitize(Sanitize(req)) == Sanitize(req)
  {
    var s := Sanitize(req);
    var t := Sanitize(s);
    if s.items.Some? {
      assert t.items.value == s.items.value;
    }
  }

  /** The validators trim before they test, so they decide the same on the raw
      and on the sanitized request. */
  lemma SanitizedValidation(req: InvoiceRequest)
    ensures InvoiceValidatorsPass(Sanitize(req)) <==> InvoiceValidatorsPass(req)
  {
    var s := Sanitize(req);
    assert Trim(s.invoiceNumber) == Trim(req.invoiceNumber);
    if req.customer.Some? {
      assert Trim(s.customer.value.name) == Trim(req.customer.value.name);
    }
    if req.items.Some? {
      var raw, sane := req.items.value, s.items.value;
      forall i | 0 <= i < |raw|
        ensures ItemValidatorsPass(sane[i]) <==> ItemValidatorsPass(raw[i])
      {
        assert sane[i] == SanitizeItem(raw[i]);
        SanitizeItemValidation(raw[i]);
      }
    }
  }

  /** Once the validators pass, the handler's own falsy check on the
      sanitized request never fires. */
  lemma ValidatedNotMissing(req: InvoiceRequest)
    requires InvoiceValidatorsPass(req)
    ensures !MissingFields(Sanitize(req))
  {
    assert Sanitize(req).invoiceNumber == Trim(req.invoiceNumber);
  }

  /** The item validators decide the same on the raw and the sanitized item. */
  lemma SanitizeItemValidation(item: LineItem)
    ensures ItemValidatorsPass(SanitizeItem(item)) <==> ItemValidatorsPass(item)
  {
    assert Trim(Trim(item.name)) == Trim(item.name);
  }

  // ----- totals -----

  /** The sum of the items' totals, accumulated left to right as `reduce` does. */
  function Subtotal(items: seq<LineItem>): int {
    if items == [] then 0 else Subtotal(items[..|items| - 1]) + items[|items| - 1].total
  }

  /** The subtotal of a concatenation is the sum of the subtotals. */
  lemma {:induction false} SubtotalAppend(a: seq<LineItem>, b: seq<LineItem>)
    ensures Subtotal(a + b) == Subtotal(a) + Subtotal(b)
    decreases |b|
  {
    if b == [] {
      assert a + b == a;
    } else {
      assert (a + b)[..|a + b| - 1] == a + b[..|b| - 1];
      assert (a + b)[|a + b| - 1] == b[|b| - 1];
      SubtotalAppend(a, b[..|b| - 1]);
    }
  }

  /** Items with totals of at least 0, as the validators demand, have a
      subtotal of at least 0, no smaller than any single item's total. */
  lemma {:induction false} SubtotalBounds(items: seq<LineItem>)
    requires forall i :: 0 <= i < |items| ==> items[i].total >= 0
    ensures Subtotal(items) >= 0
    ensures forall i :: 0 <= i < |items| ==> items[i].total <= Subtotal(items)
  {
    if items != [] {
      var front := items[..|items| - 1];
      SubtotalBounds(front);
      forall i | 0 <= i < |items| ensures items[i].total <= Subtotal(items) {
        if i < |front| { assert items[i] == front[i]; }
      }
    }
  }

  /** The default tax rate, in percent, applied to the subtotal. */
  const GstRate: int := 18

  /** 18% of the subtotal rounded to the nearest paisa, halves going up
      (`toFixed(2)` on the rupee amount). */
  function GstAtDefaultRate(subtotal: int): (g: int)
    ensures -50 < 100 * g - GstRate * subtotal <= 50
    ensures subtotal >= 0 ==> g >= 0
  {
    (GstRate * subtotal + 50) / 100
  }

  /** `req.body.gst || default`: a supplied gst is used unless it is absent or
      zero, in which case 18% of the subtotal is computed. */
  function InvoiceGst(supplied: Option<int>, subtotal: int): (g: int)
    ensures supplied.Some? && supplied.value != 0 ==> g == supplied.value
    ensures supplied.None? || supplied.value == 0 ==> -50 < 100 * g - GstRate * subtotal <= 50
  {
    if supplied.Some? && supplied.value != 0 then supplied.value else GstAtDefaultRate(subtotal)
  }

  // ----- building and saving the invoice -----

  /** The serial number stamped at construction: "SN" and the time. */
  function SerialFor(now: nat): string {
    "SN" + NatToString(now)
  }

  /** Distinct clock readings give distinct serial numbers. */
  lemma SerialForInjective(a: nat, b: nat)
    ensures SerialFor(a) == SerialFor(b) ==> a == b
  {
    if SerialFor(a) == SerialFor(b) {
      assert NatToString(a) == SerialFor(a)[2..];
      assert NatToString(b) == SerialFor(b)[2..];
      DecimalRoundTrip(a);
      DecimalRoundTrip(b);
    }
  }

  /** The invoice the handler builds from the sanitized request before the first save. */
  function Draft(req: InvoiceRequest, id: InvoiceId, now: nat): Invoice
    requires !MissingFields(req)
  {
    var items := req.items.value;
    var subtotal := Subtotal(items);
    var gst := InvoiceGst(req.gst, subtotal);
    Invoice(id, SerialFor(now), req.invoiceNumber, req.customer.value, items, gst, subtotal + gst)
  }

  /** The invoice with both identifiers regenerated from a new time and a random suffix. */
  function Renumbered(inv: Invoice, now: nat, random: nat): Invoice {
    var suffix := NatToString(now) + NatToString(random);
    inv.(invoiceNumber := "INV" + suffix, serialNo := "SN" + suffix)
  }

  datatype SaveError = DuplicateKey | StoreFault

  /** The two invoices share a uniquely indexed field: id, number or serial. */
  predicate Clash(a: Invoice, b: Invoice) {
    a.id == b.id || a.invoiceNumber == b.invoiceNumber || a.serialNo == b.serialNo
  }

  /** The invoice collection's invariant: no two invoices clash. */
  ghost predicate NoClashes(invoices: seq<Invoice>) {
    forall i, j :: 0 <= i < j < |invoices| ==> !Clash(invoices[i], invoices[j])
  }

  /** The outcome of saving `inv`: a store fault (any error other than a
      duplicate key), a duplicate key exactly when a stored invoice clashes
      with it, and success otherwise. */
  function SaveOutcome(invoices: seq<Invoice>, inv: Invoice, fault: bool): Option<SaveError> {
    if fault then Some(StoreFault)
    else if exists k :: 0 <= k < |invoices| && Clash(invoices[k], inv) then Some(DuplicateKey)
    else None
  }

  /** The first save, and on a duplicate key one retry with regenerated identifiers. */
  function Persist(invoices: seq<Invoice>, draft: Invoice, retryNow: nat, random: nat,
                   saveFault: bool, retryFault: bool): Result<Invoice>
  {
    match SaveOutcome(invoices, draft, saveFault)
    case None => Ok(draft)
    case Some(StoreFault) => Err(ServerError)
    case Some(DuplicateKey) =>
      var again := Renumbered(draft, retryNow, random);
      if SaveOutcome(invoices, again, retryFault).None? then Ok(again) else Err(ServerError)
  }

  /** The answer to a create request, given the stored invoices, the new
      document's id, the two clock readings, the random suffix and whether
      each save attempt hits a store fault. */
  function IssueOutcome(invoices: seq<Invoice>, req: InvoiceRequest, id: InvoiceId, now: nat,
                        retryNow: nat, random: nat, saveFault: bool, retryFault: bool): Result<Invoice>
  {
    var sane := Sanitize(req);
    if !InvoiceValidatorsPass(req) || MissingFields(sane) then Err(BadRequest)
    else Persist(invoices, Draft(sane, id, now), retryNow, random, saveFault, retryFault)
  }

  /** BadRequest exactly for a request that fails validation or lacks a field;
      any other failure is ServerError. */
  lemma IssueErrors(invoices: seq<Invoice>, req: InvoiceRequest, id: InvoiceId, now: nat,
                    retryNow: nat, random: nat, saveFault: bool, retryFault: bool)
    ensures var r := IssueOutcome(invoices, req, id, now, retryNow, random, saveFault, retryFault);
      && (r == Err(BadRequest) <==> !InvoiceValidatorsPass(req) || MissingFields(Sanitize(req)))
      && (r.Err? ==> r.error != NotFound)
      && (InvoiceValidatorsPass(req) && saveFault ==> r == Err(ServerError))
      && (InvoiceValidatorsPass(req) && !MissingFields(Sanitize(req)) &&
          SaveOutcome(invoices, Draft(Sanitize(req), id, now), saveFault) == Some(DuplicateKey) &&
          SaveOutcome(invoices, Renumbered(Draft(Sanitize(req), id, now), retryNow, random), retryFault).Some?
          ==> r == Err(ServerError))
  {
    var sane := Sanitize(req);
    if InvoiceValidatorsPass(req) && !MissingFields(sane) {
      assert IssueOutcome(invoices, req, id, now, retryNow, random, saveFault, retryFault)
        == Persist(invoices, Draft(sane, id, now), retryNow, random, saveFault, retryFault);
    }
  }

  /** An issued invoice holds the request's customer and items as the
      sanitizers left them (the same items, only their names trimmed), its
      grand total is the subtotal plus the gst, the gst is the caller's when
      non-zero and 18% of the subtotal otherwise, and all amounts are at
      least 0 when no gst was supplied. */
  lemma IssuedTotals(invoices: seq<Invoice>, req: InvoiceRequest, id: InvoiceId, now: nat,
                     retryNow: nat, random: nat, saveFault: bool, retryFault: bool)
    requires IssueOutcome(invoices, req, id, now, retryNow, random, saveFault, retryFault).Ok?
    ensures var inv := IssueOutcome(invoices, req, id, now, retryNow, random, saveFault, retryFault).value;
      && req.items.Some? && req.customer.Some?
      && inv.id == id && inv.items == Sanitize(req).items.value && inv.customer == Sanitize(req).customer.value
      && inv.customer.name == Trim(req.customer.value.name) && Trimmed(inv.customer.name)
      && |inv.items| == |req.items.value| >= 1
      && (forall i :: 0 <= i < |inv.items| ==>
            inv.items[i] == req.items.value[i].(name := Trim(req.items.value[i].name)) && Trimmed(inv.items[i].name))
      && inv.grandTotal == Subtotal(inv.items) + inv.gst
      && inv.gst == InvoiceGst(req.gst, Subtotal(inv.items))
      && Subtotal(inv.items) >= 0
      && (req.gst.None? || req.gst.value == 0 ==> inv.gst >= 0 && inv.grandTotal >= Subtotal(inv.items))
  {
    var items := Sanitize(req).items.value;
    forall i | 0 <= i < |items| ensures items[i].total >= 0 {
      assert ItemValidatorsPass(req.items.value[i]);
      assert items[i].total == req.items.value[i].total;
    }
    SubtotalBounds(items);
  }

  /** At most one retry: an issued invoice either keeps the caller's trimmed number
      and the first serial, having saved at the first attempt, or carries the
      identifiers regenerated after a duplicate key. It never clashes with a
      stored invoice. */
  lemma IssuedIdentity(invoices: seq<Invoice>, req: InvoiceRequest, id: InvoiceId, now: nat,
                       retryNow: nat, random: nat, saveFault: bool, retryFault: bool)
    requires IssueOutcome(invoices, req, id, now, retryNow, random, saveFault, retryFault).Ok?
    ensures !MissingFields(Sanitize(req))
    ensures var inv := IssueOutcome(invoices, req, id, now, retryNow, random, saveFault, retryFault).value;
      var draft := Draft(Sanitize(req), id, now);
      && (forall k :: 0 <= k < |invoices| ==> !Clash(invoices[k], inv))
      && (|| (SaveOutcome(invoices, draft, saveFault) == None
              && inv.invoiceNumber == Trim(req.invoiceNumber) && inv.serialNo == SerialFor(now))
          || (SaveOutcome(invoices, draft, saveFault) == Some(DuplicateKey)
              && inv.invoiceNumber == "INV" + NatToString(retryNow) + NatToString(random)
              && inv.serialNo == "SN" + NatToString(retryNow) + NatToString(random)))
  {
    var draft := Draft(Sanitize(req), id, now);
    var r := IssueOutcome(invoices, req, id, now, retryNow, random, saveFault, retryFault);
    assert r == Persist(invoices, draft, retryNow, random, saveFault, retryFault);
    match SaveOutcome(invoices, draft, saveFault)
    case None =>
      assert r.value == draft;
    case Some(e) =>
      assert e == DuplicateKey;
      var again := Renumbered(draft, retryNow, random);
      assert SaveOutcome(invoices, again, retryFault).None?;
      assert r.value == again;
      var suffix := NatToString(retryNow) + NatToString(random);
      assert "INV" + suffix == "INV" + NatToString(retryNow) + NatToString(random);
      assert "SN" + suffix == "SN" + NatToString(retryNow) + NatToString(random);
  }

  /** A caller-supplied number that, once trimmed, is already stored never
      yields a second invoice under it: the issued invoice is renumbered. */
  lemma CollidingNumberRenumbered(invoices: seq<Invoice>, req: InvoiceRequest, id: InvoiceId, now: nat,
                                  retryNow: nat, random: nat, saveFault: bool, retryFault: bool, k: nat)
    requires k < |invoices| && invoices[k].invoiceNumber == Trim(req.invoiceNumber)
    requires IssueOutcome(invoices, req, id, now, retryNow, random, saveFault, retryFault).Ok?
    ensures var inv := IssueOutcome(invoices, req, id, now, retryNow, random, saveFault, retryFault).value;
      inv.invoiceNumber != Trim(req.invoiceNumber) &&
      inv.invoiceNumber == "INV" + NatToString(retryNow) + NatToString(random)
  {
    IssuedIdentity(invoices, req, id, now, retryNow, random, saveFault, retryFault);
  }

  /** Appending an invoice that clashes with none keeps the invariant. */
  lemma AppendKeepsNoClashes(invoices: seq<Invoice>, inv: Invoice)
    requires NoClashes(invoices)
    requires forall k :: 0 <= k < |invoices| ==> !Clash(invoices[k], inv)
    ensures NoClashes(invoices + [inv])
  {
    var s := invoices + [inv];
    forall i, j | 0 <= i < j < |s| ensures !Clash(s[i], s[j]) {
      assert s[i] == invoices[i];
    }
  }

  // ----- stock reconciliation -----

  /** `Math.max(0, q - n)`. */
  function ClampedSub(q: int, n: int): (r: int)
    ensures r >= 0
  {
    if q - n > 0 then q - n else 0
  }

  /** Clamped subtractions of non-negative amounts compose into one. */
  lemma ClampedSubCompose(q: int, a: int, b: int)
    requires a >= 0 && b >= 0
    ensures ClampedSub(ClampedSub(q, a), b) == ClampedSub(q, a + b)
  {
  }

  /** One item's stock update: the product's quantity decremented with a
      clamp when the product exists and the update does not fail; otherwise
      no change. */
  function StockStep(products: map<ProductId, Product>, item: LineItem, failed: bool): map<ProductId, Product> {
    if !failed && item.productId in products then
      var p := products[item.productId];
      products[item.productId := p.(quantity := ClampedSub(p.quantity, item.quantity))]
    else products
  }

  /** The products after the first `n` items were processed in order; the
      items at the positions in `failing` are those whose update failed. */
  function StockAfter(products: map<ProductId, Product>, items: seq<LineItem>, failing: set<nat>, n: nat): map<ProductId, Product>
    requires n <= |items|
  {
    if n == 0 then products else StockStep(StockAfter(products, items, failing, n - 1), items[n - 1], n - 1 in failing)
  }

  /** The total quantity the first `n` items take from product `k`, leaving
      out the items whose update failed. */
  function Demand(items: seq<LineItem>, failing: set<nat>, k: ProductId, n: nat): int
    requires n <= |items|
  {
    if n == 0 then 0
    else Demand(items, failing, k, n - 1) + (if n - 1 !in failing && items[n - 1].productId == k then items[n - 1].quantity else 0)
  }

  /** The stock loop never adds or removes products and changes nothing but quantities. */
  lemma {:induction false} StockAfterShape(products: map<ProductId, Product>, items: seq<LineItem>, failing: set<nat>, n: nat)
    requires n <= |items|
    ensures var after := StockAfter(products, items, failing, n);
      && after.Keys == products.Keys
      && forall k :: k in products ==> after[k] == products[k].(quantity := after[k].quantity)
  {
    if n > 0 {
      StockAfterShape(products, items, failing, n - 1);
    }
  }

  /** Each product's quantity ends at its start minus everything the
      non-failing items took from it, clamped at zero: repeated items compose,
      and a failing item only loses its own decrement. */
  lemma {:induction false} StockAfterQuantity(products: map<ProductId, Product>, items: seq<LineItem>, failing: set<nat>, n: nat, k: ProductId)
    requires n <= |items|
    requires forall i :: 0 <= i < |items| ==> items[i].quantity >= 0
    requires k in products && products[k].quantity >= 0
    ensures k in StockAfter(products, items, failing, n)
    ensures StockAfter(products, items, failing, n)[k].quantity == ClampedSub(products[k].quantity, Demand(items, failing, k, n))
    ensures Demand(items, failing, k, n) >= 0
  {
    StockAfterShape(products, items, failing, n);
    if n > 0 {
      StockAfterQuantity(products, items, failing, n - 1, k);
      StockAfterShape(products, items, failing, n - 1);
      var d := Demand(items, failing, k, n - 1);
      var item := items[n - 1];
      if n - 1 !in failing && item.productId == k {
        ClampedSubCompose(products[k].quantity, d, item.quantity);
      }
    }
  }

  /** A product no item names keeps its whole record. */
  lemma {:induction false} StockAfterUntouched(products: map<ProductId, Product>, items: seq<LineItem>, failing: set<nat>, n: nat, k: ProductId)
    requires n <= |items|
    requires k in products
    requires forall i :: 0 <= i < n ==> items[i].productId != k
    ensures k in StockAfter(products, items, failing, n) && StockAfter(products, items, failing, n)[k] == products[k]
  {
    if n > 0 {
      StockAfterUntouched(products, items, failing, n - 1, k);
    }
  }

  /** A failure on item `j` affects only item `j`'s own product: every other
      product ends exactly as if that item had not failed. */
  lemma {:induction false} FailureIsolated(products: map<ProductId, Product>, items: seq<LineItem>, failing: set<nat>, n: nat, j: nat, k: ProductId)
    requires n <= |items| && j < |items|
    requires k in products && k != items[j].productId
    ensures k in StockAfter(products, items, failing + {j}, n) && k in StockAfter(products, items, failing, n)
    ensures StockAfter(products, items, failing + {j}, n)[k] == StockAfter(products, items, failing, n)[k]
  {
    StockAfterShape(products, items, failing + {j}, n);
    StockAfterShape(products, items, failing, n);
    if n > 0 {
      FailureIsolated(products, items, failing, n - 1, j, k);
    }
  }

  /** The stock loop keeps the product collection's invariant. */
  lemma {:induction false} StockAfterKeepsInvariant(products: map<ProductId, Product>, order: seq<ProductId>, clock: nat,
                                                    items: seq<LineItem>, failing: set<nat>, n: nat)
    requires n <= |items|
    requires CatalogInvariant(products, order, clock)
    ensures CatalogInvariant(StockAfter(products, items, failing, n), order, clock)
  {
    if n > 0 {
      StockAfterKeepsInvariant(products, order, clock, items, failing, n - 1);
      var before := StockAfter(products, items, failing, n - 1);
      var item := items[n - 1];
      if n - 1 !in failing && item.productId in before {
        var p := before[item.productId];
        var p' := p.(quantity := ClampedSub(p.quantity, item.quantity));
        assert !KeyTaken(before, p') by {
          forall k | k in before && k != p'.id ensures !SameKey(before[k], p') {
            assert !SameKey(before[k], p);
          }
        }
        ReplaceKeepsInvariant(before, order, clock, p');
      }
    }
  }

  // ----- the invoice collection and the handlers -----

  /** The invoice collection, in insertion order. */
  class InvoiceBook {
    var invoices: seq<Invoice>

    ghost predicate Valid()
      reads this
    {
      NoClashes(invoices)
    }

    constructor ()
      ensures Valid() && invoices == []
    {
      invoices := [];
    }
  }

  /** The first stored invoice under `id`, if any. */
  function FindInvoice(invoices: seq<Invoice>, id: InvoiceId): (r: Option<Invoice>)
    ensures r.Some? ==> r.value in invoices && r.value.id == id
    ensures r.None? ==> forall k :: 0 <= k < |invoices| ==> invoices[k].id != id
  {
    if invoices == [] then None
    else if invoices[0].id == id then Some(invoices[0])
    else FindInvoice(invoices[1..], id)
  }

  /** Looks an invoice up by id: the stored invoice, or NotFound. */
  function GetInvoiceById(book: InvoiceBook, id: InvoiceId): (r: Result<Invoice>)
    reads book
    ensures r.Ok? <==> exists k :: 0 <= k < |book.invoices| && book.invoices[k].id == id
    ensures r.Ok? ==> r.value in book.invoices && r.value.id == id
    ensures r.Err? ==> r.error == NotFound
  {
    var found := FindInvoice(book.invoices, id);
    if found.Some? then Ok(found.value) else Err(NotFound)
  }

  /** The invoice's number or its customer's name contains the query, ignoring case. */
  predicate InvoiceMatches(query: string, inv: Invoice) {
    ContainsIgnoreCase(inv.invoiceNumber, query) || ContainsIgnoreCase(inv.customer.name, query)
  }

  /** The invoices of `invoices` that match the query, in their stored order. */
  function MatchingInvoices(invoices: seq<Invoice>, query: string): seq<Invoice> {
    Filter(invoices, inv => InvoiceMatches(query, inv))
  }

  /** Exactly the stored invoices that match the query, each no more often
      than it is stored; in a collection without duplicate keys no invoice
      comes back twice. */
  function SearchInvoices(book: InvoiceBook, query: string): (r: seq<Invoice>)
    reads book
    ensures |r| <= |book.invoices| && multiset(r) <= multiset(book.invoices)
    ensures forall i :: 0 <= i < |r| ==> r[i] in book.invoices && InvoiceMatches(query, r[i])
    ensures forall k :: 0 <= k < |book.invoices| && InvoiceMatches(query, book.invoices[k]) ==> book.invoices[k] in r
    ensures book.Valid() ==> forall i, j :: 0 <= i < j < |r| ==> r[i].id != r[j].id
  {
    MatchesDistinct(book.invoices, query);
    MatchingInvoices(book.invoices, query)
  }

  /** Filtering a collection without duplicate keys returns no id twice. */
  lemma MatchesDistinct(invoices: seq<Invoice>, query: string)
    ensures NoClashes(invoices) ==>
      var r := MatchingInvoices(invoices, query);
      forall i, j :: 0 <= i < j < |r| ==> r[i].id != r[j].id
  {
    if NoClashes(invoices) {
      FilterKeepsPairwise(invoices, inv => InvoiceMatches(query, inv), (a: Invoice, b: Invoice) => a.id != b.id);
    }
  }

  /** Results come in storage order: an invoice saved later is listed after
      the earlier matches, and only if it matches. */
  lemma MatchesInStoredOrder(invoices: seq<Invoice>, inv: Invoice, query: string)
    ensures MatchingInvoices(invoices + [inv], query) ==
      MatchingInvoices(invoices, query) + (if InvoiceMatches(query, inv) then [inv] else [])
  {
    FilterAppend(invoices, [inv], inv => InvoiceMatches(query, inv));
    assert [inv][1..] == [];
  }

  /** The create handler. The answer is `IssueOutcome`. On any error neither
      collection changes. On success the invoice is appended and then every
      item's product is decremented in order as `StockAfter` says, the
      failing positions being `failingItems`; both invariants hold after. */
  method CreateInvoice(catalog: Catalog, book: InvoiceBook, req: InvoiceRequest, id: InvoiceId,
                       now: nat, retryNow: nat, random: nat, saveFault: bool, retryFault: bool,
                       failingItems: set<nat>)
    returns (r: Result<Invoice>)
    requires catalog.Valid() && book.Valid()
    modifies catalog, book
    ensures catalog.Valid() && book.Valid()
    ensures r == IssueOutcome(old(book.invoices), req, id, now, retryNow, random, saveFault, retryFault)
    ensures r.Err? ==> book.invoices == old(book.invoices) && catalog.products == old(catalog.products)
    ensures r.Ok? ==> book.invoices == old(book.invoices) + [r.value]
    ensures r.Ok? ==> r.value.id == id && GetInvoiceById(book, id) == Ok(r.value)
    ensures r.Ok? ==> catalog.products == StockAfter(old(catalog.products), r.value.items, failingItems, |r.value.items|)
    ensures catalog.order == old(catalog.order) && catalog.clock == old(catalog.clock)
  {
    var sane := Sanitize(req);
    if !InvoiceValidatorsPass(req) || MissingFields(sane) {
      return Err(BadRequest);
    }
    var items := sane.items.value;
    var subtotal := Subtotal(items);
    var gst := InvoiceGst(sane.gst, subtotal);
    var invoice := Invoice(id, SerialFor(now), sane.invoiceNumber, sane.customer.value, items, gst, subtotal + gst);
    assert invoice == Draft(sane, id, now);
    r := SaveWithRetry(book, invoice, retryNow, random, saveFault, retryFault);
    if r.Err? {
      return;
    }
    IssuedTotals(old(book.invoices), req, id, now, retryNow, random, saveFault, retryFault);
    DecrementStock(catalog, items, failingItems);
  }

  /** The stock loop: for each item in order, unless its update fails, a
      stored product named by the item has its quantity reduced by the item's
      quantity, clamped at zero; missing products are skipped. */
  method DecrementStock(catalog: Catalog, items: seq<LineItem>, failingItems: set<nat>)
    requires catalog.Valid()
    modifies catalog
    ensures catalog.Valid()
    ensures catalog.products == StockAfter(old(catalog.products), items, failingItems, |items|)
    ensures catalog.order == old(catalog.order) && catalog.clock == old(catalog.clock)
  {
    var i := 0;
    while i < |items|
      invariant 0 <= i <= |items|
      invariant catalog.products == StockAfter(old(catalog.products), items, failingItems, i)
      invariant catalog.order == old(catalog.order) && catalog.clock == old(catalog.clock)
    {
      var item := items[i];
      ghost var before := catalog.products;
      if i !in failingItems && item.productId in catalog.products {
        var product := catalog.products[item.productId];
        catalog.products := catalog.products[item.productId := product.(quantity := ClampedSub(product.quantity, item.quantity))];
      }
      assert catalog.products == StockStep(before, item, i in failingItems);
      assert catalog.products == StockAfter(old(catalog.products), items, failingItems, i + 1);
      i := i + 1;
    }
    StockAfterKeepsInvariant(old(catalog.products), catalog.order, catalog.clock, items, failingItems, |items|);
  }

  /** Saves `invoice`; on a duplicate key regenerates its number and serial
      and saves once more. The answer is `Persist`'s; only a successful save
      appends, and the collection stays clash-free. */
  method SaveWithRetry(book: InvoiceBook, invoice: Invoice, retryNow: nat, random: nat, saveFault: bool, retryFault: bool)
    returns (r: Result<Invoice>)
    requires book.Valid()
    modifies book
    ensures book.Valid()
    ensures r == Persist(old(book.invoices), invoice, retryNow, random, saveFault, retryFault)
    ensures r.Err? ==> r.error == ServerError && book.invoices == old(book.invoices)
    ensures r.Ok? ==> book.invoices == old(book.invoices) + [r.value] && r.value.id == invoice.id
    ensures r.Ok? ==> FindInvoice(book.invoices, invoice.id) == Some(r.value)
  {
    var saved := invoice;
    var outcome := SaveOutcome(book.invoices, saved, saveFault);
    if outcome == Some(DuplicateKey) {
      var suffix := NatToString(retryNow) + NatToString(random);
      saved := saved.(invoiceNumber := "INV" + suffix, serialNo := "SN" + suffix);
      outcome := SaveOutcome(book.invoices, saved, retryFault);
    }
    if outcome.Some? {
      return Err(ServerError);
    }
    assert forall k :: 0 <= k < |book.invoices| ==> !Clash(book.invoices[k], saved);
    AppendKeepsNoClashes(book.invoices, saved);
    book.invoices := book.invoices + [saved];
    FindLast(book.invoices, saved.id);
    return Ok(saved);
  }

  /** In a clash-free collection, the last invoice is the one found under its id. */
  lemma {:induction false} FindLast(invoices: seq<Invoice>, id: InvoiceId)
    requires NoClashes(invoices) && |invoices| > 0 && invoices[|invoices| - 1].id == id
    ensures FindInvoice(invoices, id) == Some(invoices[|invoices| - 1])
  {
    if |invoices| > 1 {
      assert !Clash(invoices[0], invoices[|invoices| - 1]);
      var rest := invoices[1..];
      assert NoClashes(rest) by {
        forall i, j | 0 <= i < j < |rest| ensures !Clash(rest[i], rest[j]) {
          assert rest[i] == invoices[i + 1] && rest[j] == invoices[j + 1];
        }
      }
      FindLast(rest, id);
    }
  }
}
