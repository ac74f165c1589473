# Invoicing and inventory service: handlers, product schema and product search

This project models the core of a small invoicing and inventory backend. The
model covers four parts:

- **Product schema** (`Models/ProductModel.js`). A product document has a name,
  a variant, a price, a quantity, a category and a gst rate.
  - The name and variant are trimmed.
  - An absent variant, category or gst defaults to "Standard", "General" and 18.
  - Price, quantity and gst must be at least 0.
  - No two products may share a (name, variant) pair.
- **Product handlers** (`Controllers/ProductController.js`): add, list newest
  first, get by id, delete, and partial update. On failure each one answers
  400, 404 or 500. On success, add, get, list and update answer with records,
  and delete with a confirmation message.
- **Product search route** (`Routes/ProductRoutes.js`): a case-insensitive
  name match, capped at ten results.
- **Invoice handlers** (`Controllers/InvoiceController.js`).
  - Issuing an invoice validates the request and totals the client's item
    totals.
  - The gst is the caller's, unless it is absent or zero; then it is 18% of the
    subtotal.
  - The invoice is saved. On a duplicate key the handler regenerates the
    invoice number and serial, and retries once.
  - After the save, each item's product stock is decremented in order. The
    decrement is clamped at zero. A product that is missing, or an update that
    fails, skips only that item.
  - Invoices can also be searched by number or customer name, and fetched by id.

The model is organised in these modules:

- `Responses`: optional values and the 400/404/500 outcomes.
- `Text`: whitespace trimming, ASCII case folding, substring matching and
  decimal rendering.
- `Seqs`: filter, limit and reverse.
- `ProductModel`: the product record, the schema rules, the collection
  invariant, and the `Catalog` class.
  - `Catalog.products` holds the documents by id.
  - `Catalog.order` holds the ids in natural (insertion) order.
  - `Catalog.clock` stamps `createdAt`.
- `ProductController`: the product handlers. The state-changing handlers are
  methods that modify a `Catalog`; the read-only handlers are functions.
- `ProductRoutes`: the search route.
- `InvoiceController`: the invoice handlers, over an `InvoiceBook` class whose
  `invoices` sequence is the invoice collection.

The environment of a request becomes parameters:

- `now` and `retryNow` are the two readings of the clock.
- `random` is the random suffix.
- `saveFault` and `retryFault` say whether a save attempt meets a store error
  other than a duplicate key.
- `failingItems` gives the positions of the items whose stock update throws.

An invoice request passes through `Sanitize`, which applies the route's `trim()` sanitizers before the handler reads the body. A product's name is trimmed by the schema's setter, which gives the stored document the same value.
Amounts are integers in paise.

## Model

| member | source | states |
|---|---|---|
| Text.Trim | Models/ProductModel.js:4-13 | The trim setter's result has no whitespace at either end. It is the middle of the input between two all-whitespace margins. An already trimmed string is unchanged. |
| Text.ContainsIgnoreCase | Routes/ProductRoutes.js:27 | Definition: a `$regex` with `$options: 'i'` on a literal query: the lower-cased query occurs as a substring of the lower-cased text. Its properties are in EmptyQueryMatches and MatchIgnoresCase. |
| Text.TrimEmpty | Controllers/ProductController.js:6 | `trim().notEmpty()` fails exactly when the field is all whitespace: the trim is empty iff every character is whitespace. |
| Text.EmptyQueryMatches | Routes/ProductRoutes.js:25-27 | The empty query (an absent `q` becomes `''`) matches every name. |
| Text.MatchIgnoresCase | Routes/ProductRoutes.js:27 | The `'i'` option: lower-casing either side does not change whether a case-insensitive match holds. |
| Text.LowerTwice | Routes/ProductRoutes.js:27 | Case folding is idempotent. |
| Text.NatToString | Controllers/InvoiceController.js:41 | The rendering of a time stamp inside a template literal is a non-empty string of decimal digits. |
| Text.DecimalRoundTrip | Controllers/InvoiceController.js:41 | The decimal rendering used in serial and invoice numbers reads back as the same number. SerialForInjective uses it to show that distinct times give distinct "SN" serials. |
| Seqs.Filter | Controllers/InvoiceController.js:100-105 | A `find` filter keeps exactly the elements that satisfy the condition. Each kept element is an input element that satisfies it, and each input element that satisfies it is kept. No element comes back more often than it occurs (multiset bound). |
| Seqs.FilterKeepsPairwise | Controllers/InvoiceController.js:100-105 | Filtering keeps relative order: any relation that holds from every earlier to every later input element holds along the result. It gives both distinct results and natural order. |
| Seqs.FilterAppend | Controllers/InvoiceController.js:100-105 | Filtering distributes over concatenation, so matches from an earlier part of the collection come before those from a later part. |
| Seqs.FilterAll | Routes/ProductRoutes.js:26-28 | A condition every element meets filters nothing out. |
| Seqs.Take | Routes/ProductRoutes.js:28 | `limit(n)` is the first `min(n, length)` elements, as a prefix. |
| Seqs.Reversed | Controllers/ProductController.js:43 | Definition: position i of the result holds position length-1-i of the input. Its properties are in ReversedPermutes, ReversedTwice and NewestFirst. |
| Seqs.ReversedPermutes | Controllers/ProductController.js:43 | Reversal is a permutation: every element keeps its multiplicity. |
| Seqs.ReversedTwice | Controllers/ProductController.js:43 | Reversing twice gives the sequence back. |
| ProductModel.NewProduct | Models/ProductModel.js:3-34 | Definition: the document `new Product(...)` builds, with the trim setters on name and variant and the defaults for an absent variant, category and gst. Its properties are in SchemaDefaults and NewProductAccepted. |
| ProductModel.SchemaAccepts | Models/ProductModel.js:3-33 | Definition: the required and min validators run at save. Name and variant are not empty; price, quantity and gst are at least 0. |
| ProductModel.ProductValid | Models/ProductModel.js:4-33 | Definition: what every stored document meets. The schema accepts it (the required and min rules), and its name and variant are trimmed as the setters leave them. |
| ProductModel.SameKey | Models/ProductModel.js:37 | Definition: two documents share the indexed pair (name, variant). |
| ProductModel.KeyTaken | Models/ProductModel.js:37 | Definition: some other stored product already holds the document's (name, variant), so the unique index refuses it. |
| ProductModel.UniqueKeys | Models/ProductModel.js:37 | Definition: the unique index holds over the whole collection, so no two stored products share (name, variant). |
| ProductModel.CatalogInvariant | Models/ProductModel.js:3-37 | Definition: the collection invariant behind `Catalog.Valid()`, which every product handler requires and ensures. Ids in the order are distinct. Every document is valid, stored under its own id and older than the clock. Keys are unique. The order lists exactly the stored ids, with creation times strictly increasing. |
| ProductModel.SaveAccepts | Models/ProductModel.js:3-37 | Definition: an insert succeeds iff the schema accepts the document, its id is new, and no stored product holds its (name, variant); AddProduct's contract states the handler against this. |
| ProductModel.SchemaDefaults | Models/ProductModel.js:3-34 | Construction trims the name and variant. An absent variant, category or gst becomes "Standard", "General" or 18. A supplied gst is kept. |
| ProductModel.NewProductAccepted | Models/ProductModel.js:3-33 | A constructed document passes the required and min validators iff the name is not blank, a supplied variant is not blank, price and quantity are at least 0, and a supplied gst is at least 0. |
| ProductModel.InsertKeepsInvariant | Models/ProductModel.js:3-37 | Inserting a fresh, valid document that takes no stored (name, variant) keeps the collection invariant. The invariant: every document is valid and under its own id, keys are unique, and the order lists the stored ids oldest first. |
| ProductModel.ReplaceKeepsInvariant | Models/ProductModel.js:3-37 | Overwriting a document with a valid one that keeps its id and creation time, and takes no other product's key, keeps the invariant. |
| ProductModel.RemoveKeepsInvariant | Models/ProductModel.js:3-37 | Deleting a stored document, and its id from the order, keeps the invariant. |
| ProductModel.RemoveKeepsOrder | Models/ProductModel.js:34 | After a deletion the order is still duplicate-free, still lists only stored ids, and still has creation times strictly increasing. |
| ProductModel.RemoveId | Controllers/ProductController.js:66 | Removing an id from the order leaves exactly the other ids, one shorter when the id was present and unchanged otherwise. |
| ProductModel.InOrder | Controllers/ProductController.js:43 | Definition: the stored documents, one per id of the order and in that order (natural order). Its properties are in InOrderSize, InOrderMembers, NewestFirst and InOrderFacts. |
| ProductModel.InOrderSize | Models/ProductModel.js:3-37 | Under the collection invariant, the listing has exactly as many entries as there are stored products. |
| ProductModel.InOrderMembers | Models/ProductModel.js:3-37 | When the order lists exactly the stored ids, a document is in the listing iff it is stored. |
| ProductController.AddValidatorsPass | Controllers/ProductController.js:5-10 | Definition: the add route's validators. The trimmed name is not empty, quantity and price are at least 0, and a supplied gst is within 0..100. |
| ProductController.HasFalsyField | Controllers/ProductController.js:21 | Definition: the handler's `!name \|\| !quantity \|\| !price`, that is an empty name or a zero quantity or price. |
| ProductController.AddedGst | Controllers/ProductController.js:29 | Definition: `gst \|\| 18`; an absent or zero gst becomes 18. |
| ProductController.AddedProduct | Controllers/ProductController.js:25-30 | Definition: the document an add builds from name, quantity, price and `gst \|\| 18` only, so variant and category take the schema defaults. Its fields are stated in AddedProductFields. |
| ProductController.AddedProductFields | Controllers/ProductController.js:18-30 | An add stores the trimmed name, the given quantity and price, variant "Standard" and category "General". Its gst is the given one unless that is absent or 0 (`gst \|\| 18`); then it is 18. A request that passed both checks gives a valid document with positive quantity and price. |
| ProductController.AddProduct | Controllers/ProductController.js:12-38 | The method answers 400 iff the validators fail or name, quantity or price is falsy. It answers 500 when the store refuses the document; that includes a taken (name, variant), since a repeated add is not merged. Otherwise it inserts exactly that document under a fresh id, stamped with the clock, and the id reads back as that document. An error changes nothing. |
| ProductController.GetProductById | Controllers/ProductController.js:52-61 | Ok with the stored record iff the id is stored; otherwise 404. |
| ProductController.GetProducts | Controllers/ProductController.js:41-49 | Every stored product, and only stored records, strictly newest first by `createdAt`. The listing has as many entries as there are stored products, so each appears exactly once. |
| ProductController.NewestFirst | Controllers/ProductController.js:43 | Reversing an order along which creation times increase lists every stored document, newest first. |
| ProductController.DeleteProduct | Controllers/ProductController.js:64-76 | 404 with no change iff the id is absent. Otherwise exactly that document is removed, the order loses that id, and a later lookup answers 404. |
| ProductController.UpdateValidatorsPass | Controllers/ProductController.js:79-84 | Definition: the update route's validators. Each applies only to a supplied field: a name that is not blank after trimming, quantity and price at least 0, gst within 0..100. |
| ProductController.Updated | Controllers/ProductController.js:92-97 | Definition: the record `findByIdAndUpdate` returns with `new: true`, with the supplied fields overwritten and the name trimmed. Its properties are stated in UpdateChangesOnlySupplied. |
| ProductController.UpdateChangesOnlySupplied | Controllers/ProductController.js:92-97 | An update overwrites only the supplied fields among name (trimmed), quantity, price and gst. It keeps id, variant, category and creation time. A validated update of a valid product is valid. |
| ProductController.UpdateProduct | Controllers/ProductController.js:86-108 | The method answers 400 iff validation fails. It answers 404 if validation passes and the id is absent. It answers 500 if the id is stored and the updated (name, variant) belongs to another product. Each of these changes nothing. Otherwise the updated record replaces the stored one, and reads back, with the invariant kept. |
| ProductRoutes.QueryText | Routes/ProductRoutes.js:25 | Definition: `req.query.q \|\| ''`; an absent query is the empty string. |
| ProductRoutes.NameMatches | Routes/ProductRoutes.js:27 | Definition: `{ name: { $regex: query, $options: 'i' } }`; the product's name contains the query, ignoring case. |
| ProductRoutes.Matching | Routes/ProductRoutes.js:26-27 | Definition: the `find` on a case-insensitive name match, over the products in natural order. Its properties are stated in SearchFacts. |
| ProductRoutes.SearchFacts | Routes/ProductRoutes.js:26-27 | The matches are exactly the stored records whose name contains the query, ignoring case, in strictly increasing creation order. The empty query matches every product. |
| ProductRoutes.CapFacts | Routes/ProductRoutes.js:28 | `limit(10)` keeps at most ten of the matches, in order. A match it drops comes after everything it keeps. |
| ProductRoutes.SearchProducts | Routes/ProductRoutes.js:23-34 | At most 10 results. Each result is a stored record whose name contains the query, ignoring case. The results are distinct and in strictly increasing creation order. Below the cap, every match is included. A match that is left out means the cap was reached, and every result was created before it. So the results are the first ten matches in natural order. An absent or empty query gives the first 10 products in natural order. |
| InvoiceController.ItemValidatorsPass | Controllers/InvoiceController.js:15-19 | Definition: the per-item validators. The trimmed name is not empty, quantity is at least 1, price and total are at least 0, and a supplied gst is within 0..100. |
| InvoiceController.InvoiceValidatorsPass | Controllers/InvoiceController.js:10-20 | Definition: the create route's validators. The trimmed invoice number and customer name are not empty, there is at least one item, and every item passes. |
| InvoiceController.MissingFields | Controllers/InvoiceController.js:31 | Definition: the handler's falsy check on invoice number, customer and items, or an empty item list. |
| InvoiceController.Sanitize | Controllers/InvoiceController.js:11-15 | The request after the `trim()` sanitizers. The invoice number, the customer's name and phone, and every item's name are replaced by the trims of the sent strings. The customer, the phone and the items are present exactly when they were, with as many items. Apart from its name, every item is as sent, and the gst is unchanged. |
| InvoiceController.SanitizeIdempotent | Controllers/InvoiceController.js:11-15 | Sanitizing an already sanitized request changes nothing. |
| InvoiceController.SanitizedValidation | Controllers/InvoiceController.js:10-20 | The validators trim before they test, so they pass on the sanitized request exactly when they pass on the raw one. |
| InvoiceController.SanitizeItemValidation | Controllers/InvoiceController.js:15-19 | The item validators pass on the item with its name trimmed exactly when they pass on the item as sent. |
| InvoiceController.ValidatedNotMissing | Controllers/InvoiceController.js:31 | Once the validators pass, the handler's falsy check on the sanitized request never fires. |
| InvoiceController.Subtotal | Controllers/InvoiceController.js:36 | Definition: `items.reduce((acc, item) => acc + item.total, 0)`, folded from the left. Its properties are in SubtotalAppend and SubtotalBounds. |
| InvoiceController.SubtotalAppend | Controllers/InvoiceController.js:36 | The `reduce` subtotal of concatenated item lists is the sum of their subtotals. |
| InvoiceController.SubtotalBounds | Controllers/InvoiceController.js:19-36 | With item totals at least 0, as validated, the subtotal is at least 0 and at least every single item's total. |
| InvoiceController.GstAtDefaultRate | Controllers/InvoiceController.js:37 | The computed tax is 18% of the subtotal rounded to the nearest paisa: it lies within half a paisa of 0.18 times the subtotal. It is at least 0 for a non-negative subtotal. |
| InvoiceController.InvoiceGst | Controllers/InvoiceController.js:37 | `req.body.gst \|\| computed`: a supplied non-zero gst is used as is. An absent or zero one is replaced by the 18% figure. |
| InvoiceController.SerialFor | Controllers/InvoiceController.js:41 | Definition: `SN${Date.now()}`, "SN" followed by the clock reading in decimal. |
| InvoiceController.SerialForInjective | Controllers/InvoiceController.js:41 | Two clock readings that give the same serial number are equal. |
| InvoiceController.Draft | Controllers/InvoiceController.js:40-47 | Definition: the invoice built from the sanitized request before the first save, with serial "SN"+now, the number, customer and items, the gst and the grand total. Its properties are in IssuedTotals and IssuedIdentity. |
| InvoiceController.Renumbered | Controllers/InvoiceController.js:54-57 | Definition: the invoice with number "INV" and serial "SN", each followed by the retry time and the random suffix; nothing else changes. |
| InvoiceController.Clash | Controllers/InvoiceController.js:50-52 | Definition: two invoices share a field that is assumed to be uniquely indexed: the id, the invoice number or the serial. |
| InvoiceController.NoClashes | Controllers/InvoiceController.js:50-52 | Definition: the collection invariant behind `InvoiceBook.Valid()`. No two stored invoices clash. |
| InvoiceController.SaveOutcome | Controllers/InvoiceController.js:50-52 | Definition: one `save()`. A store fault, or a duplicate key exactly when a stored invoice shares the id, number or serial, or success. |
| InvoiceController.Persist | Controllers/InvoiceController.js:49-63 | Definition: the first save, and on a duplicate key one retry with the renumbered invoice; any other failure, or a failed retry, is 500. Its properties are in IssueErrors and IssuedIdentity. |
| InvoiceController.IssueOutcome | Controllers/InvoiceController.js:23-84 | Definition: the create handler's answer. It is 400 for failed validation or a field missing from the sanitized request, otherwise Persist of the draft built from the sanitized request. Its properties are in IssueErrors, IssuedTotals, IssuedIdentity and CollidingNumberRenumbered. |
| InvoiceController.IssueErrors | Controllers/InvoiceController.js:24-83 | Issuance answers 400 iff the validators fail or a required field is missing, and never 404. A store fault on the first save is 500, and so is a failed retry after a duplicate key. |
| InvoiceController.IssuedTotals | Controllers/InvoiceController.js:29-47 | An issued invoice holds the sanitized customer and item list. The customer's name is the trim of the sent name. There are as many items as were sent, at least one. Each is as sent, except that its name is the trim of the sent name. The grand total is the subtotal plus the gst, and the gst is `InvoiceGst` of the subtotal. Without a caller gst, the gst is at least 0 and the grand total is at least the subtotal. |
| InvoiceController.IssuedIdentity | Controllers/InvoiceController.js:40-58 | There is at most one retry. An issued invoice either saved at the first attempt, keeping the caller's trimmed number and serial "SN"+now, or hit a duplicate key and carries "INV"/"SN" + retry time + random. It clashes with no stored invoice. |
| InvoiceController.CollidingNumberRenumbered | Controllers/InvoiceController.js:52-57 | A caller number that, once trimmed, is already stored never gives a second invoice under it: the issued invoice carries the regenerated number. |
| InvoiceController.AppendKeepsNoClashes | Controllers/InvoiceController.js:50 | Appending an invoice that clashes with none keeps the collection free of duplicate keys. |
| InvoiceController.ClampedSub | Controllers/InvoiceController.js:70 | `Math.max(0, q - n)` is never negative. |
| InvoiceController.ClampedSubCompose | Controllers/InvoiceController.js:66-71 | Two clamped decrements by non-negative amounts equal one clamped decrement by their sum, so repeated items of one product compose. |
| InvoiceController.StockStep | Controllers/InvoiceController.js:67-76 | Definition: one iteration of the stock loop. A stored product named by the item has its quantity reduced with the clamp, unless that item's update fails; otherwise nothing changes. |
| InvoiceController.StockAfter | Controllers/InvoiceController.js:66-77 | Definition: the products after the first n items were processed in order. Its properties are in StockAfterShape, StockAfterQuantity, StockAfterUntouched, FailureIsolated and StockAfterKeepsInvariant. |
| InvoiceController.StockAfterShape | Controllers/InvoiceController.js:66-77 | The stock loop neither adds nor removes products, and changes no field but quantities. |
| InvoiceController.StockAfterQuantity | Controllers/InvoiceController.js:66-77 | Each product's final quantity is its initial quantity minus the total taken by the non-failing items for it, clamped at 0. |
| InvoiceController.StockAfterUntouched | Controllers/InvoiceController.js:66-73 | A product no item names keeps its whole record. |
| InvoiceController.FailureIsolated | Controllers/InvoiceController.js:67-76 | An item whose update throws affects only its own product: every other product ends as if that item had not failed. |
| InvoiceController.StockAfterKeepsInvariant | Controllers/InvoiceController.js:66-77 | The stock loop keeps the product collection's invariant. |
| InvoiceController.DecrementStock | Controllers/InvoiceController.js:66-77 | The loop leaves the products exactly as `StockAfter` of the items, in order, with the failing positions skipped. It keeps the order, the clock and the invariant. |
| InvoiceController.SaveWithRetry | Controllers/InvoiceController.js:49-63 | The first save, then on a duplicate key one save with regenerated number and serial. The answer matches `Persist`. Only a success appends, and then exactly that invoice, which is found under its id. Any failure is 500 with no change, and the collection stays free of duplicate keys. |
| InvoiceController.CreateInvoice | Controllers/InvoiceController.js:23-84 | The handler's answer is `IssueOutcome`. An error changes neither collection. On success the invoice is appended, is found under its id, and the products are decremented by `StockAfter`. Both invariants hold afterwards. |
| InvoiceController.FindInvoice | Controllers/InvoiceController.js:115 | `findById` returns a stored invoice with that id, or nothing when none has it. |
| InvoiceController.FindLast | Controllers/InvoiceController.js:115 | In a collection free of duplicate keys, the last appended invoice is the one found under its id. |
| InvoiceController.GetInvoiceById | Controllers/InvoiceController.js:113-121 | Ok with a stored invoice under that id iff one exists; otherwise 404. |
| InvoiceController.InvoiceMatches | Controllers/InvoiceController.js:101-104 | Definition: the `$or` of a case-insensitive match of the query on the invoice number or on the customer's name. |
| InvoiceController.MatchingInvoices | Controllers/InvoiceController.js:100-105 | Definition: the `find` with the `$or` of a case-insensitive match on the number or the customer name, over the invoices in natural order. |
| InvoiceController.SearchInvoices | Controllers/InvoiceController.js:97-110 | Exactly the stored invoices whose number or customer name contains the query, ignoring case. The result is no longer than the collection, and returns no invoice more often than it is stored. In a collection free of duplicate keys, no id comes back twice. |
| InvoiceController.MatchesDistinct | Controllers/InvoiceController.js:100-105 | In a collection free of duplicate keys, the search returns each id at most once. |
| InvoiceController.MatchesInStoredOrder | Controllers/InvoiceController.js:100-105 | Results come in natural order: after one more invoice is saved, the search gives the earlier results, followed by the new invoice if it matches. |

## Left out

- Authentication (`verifyToken`), routing and HTTP plumbing: only status classes (400/404/500) and returned records are modelled.
- `escape()` sanitizers: HTML escaping of strings is not modelled; strings are taken as they arrive after trimming.
- JavaScript type coercion and express-validator's parsing of numbers from strings: request fields are typed; `isInt`/`isFloat` become integer bounds.
- Floating point: money is integer paise and the gst is rounded half up, which is what `toFixed(2)` does on exact values but not on every binary float.
- Regular-expression queries: a query is matched as a literal substring with ASCII-only case folding; regex metacharacters, Unicode case folding and invalid patterns (a 500) are not modelled.
- Text.Trim: only ASCII whitespace (space, tab to carriage return) is removed, not the Unicode spaces JavaScript's `trim` also removes.
- Store errors other than the ones named: for products, a failing store in get, list, delete or search (500) and a malformed id (CastError, 500) are not modelled; a lookup is by natural number id.
- ProductController.AddProduct, ProductController.UpdateProduct: a store failure in `product.save()` or in `findByIdAndUpdate` (500) is not modelled. Their Ok-iff clauses hold on the assumption that the store itself does not fail.
- InvoiceController.SearchInvoices, InvoiceController.GetInvoiceById: their 500 answers (a failing store, or a malformed id in `findById`) are not modelled; lookups are by natural number id and the search always succeeds.
- InvoiceController.SearchInvoices: the handler has no default for an absent `query`, which then reaches `$regex` as `undefined`; the model takes the query as a string and does not represent the absent case.
- ProductController.UpdateProduct: that only the supplied fields change assumes the store drops the `undefined` members of `{ name, quantity, price, gst }` from the update, as Mongoose does by default.
- Concurrency: each handler runs atomically; the read-modify-write race in the stock loop between `findById` and `findByIdAndUpdate` is not modelled.
- Natural order is modelled as insertion order, and `createdAt` as a strictly increasing counter; `updatedAt` timestamps are not kept.
- ProductController.AddProduct: a repeated add of an existing (name, variant) is not merged into the stored record; the unique index refuses the document and the handler answers 500.
- ProductModel.SchemaAccepts: the schema bounds gst only from below (at least 0); the upper bound of 100 comes from the route validators.
- ProductController.UpdateProduct: the schema's min validators do not run on updates (the route validators enforce the same bounds); only the trim setter runs.
- getAllInvoices: `Models/InvoiceModel.js` is not part of this model, so the invoice timestamps it sorts by are unknown; the operation is not modelled.
- Document ids: a product's or an invoice's id is a parameter that stands for a freshly generated ObjectId. The model also admits a taken id, which gives a 500 on add and a retry that fails on create; the store never produces one.
- ProductController.DeleteProduct: returns the document `findByIdAndDelete` removed (ProductController.js:66); the handler's response body is only a confirmation message.
- InvoiceController.SaveOutcome: a duplicate key is assumed to arise exactly when a stored invoice shares the id, the invoice number or the serial number, since the invoice schema's indexes are not part of this model; its other validators are not modelled.
- InvoiceController.IssueOutcome: the random suffix is any natural number; the range 0..999 of `Math.floor(Math.random() * 1000)` is not constrained.
- Invoice PDF generation and WhatsApp delivery (`generateInvoicePDF`, `sendInvoiceOnWhatsApp`), and console logging: output side effects, not modelled.
