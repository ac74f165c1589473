/** The product search route: a case-insensitive name filter over the
    collection, capped at ten results. */
module ProductRoutes {
  import opened Responses
  import opened Text
  import opened Seqs
  import opened ProductModel

  /** The route's `limit(10)`. */
  const SearchLimit: nat := 10

  /** `req.query.q || ''`: an absent query is the empty string. */
  function QueryText(q: Option<string>): string {
    if q.Some? then q.value else ""
  }

  predicate NameMatches(query: string, p: Product) {
    ContainsIgnoreCase(p.name, query)
  }

  /** The products of `all` whose name matches the query, in the same order. */
  function Matching(all: seq<Product>, query: string): seq<Product> {
    Filter(all, p => NameMatches(query, p))
  }

  /** The first ten stored products, in natural order, whose name contains the
      query ignoring case. Every result is a stored record that matches; the
      results are distinct and in creation order; a match left out means the
      cap was reached with matches all created before it; the empty query
      takes the first ten products. Nothing is changed. */
  function SearchProducts(catalog: Catalog, q: Option<string>): (r: seq<Product>)
    reads catalog
    requires catalog.Valid()
    ensures |r| <= SearchLimit
    ensures forall i :: 0 <= i < |r| ==>
      r[i].id in catalog.products && catalog.products[r[i].id] == r[i] && ContainsIgnoreCase(r[i].name, QueryText(q))
    ensures forall i, j :: 0 <= i < j < |r| ==> r[i].createdAt < r[j].createdAt
    ensures |r| < SearchLimit ==>
      forall k :: k in catalog.products && ContainsIgnoreCase(catalog.products[k].name, QueryText(q)) ==> catalog.products[k] in r
    ensures forall k :: k in catalog.products && ContainsIgnoreCase(catalog.products[k].name, QueryText(q)) && catalog.products[k] !in r ==>
      |r| == SearchLimit && forall i :: 0 <= i < |r| ==> r[i].createdAt < catalog.products[k].createdAt
    ensures QueryText(q) == "" ==> r == Take(InOrder(catalog.products, catalog.order), SearchLimit)
  {
    assert forall i :: 0 <= i < |catalog.order| ==> catalog.order[i] in catalog.products;
    var all := InOrder(catalog.products, catalog.order);
    var matches := Matching(all, QueryText(q));
    var r := Take(matches, SearchLimit);
    SearchFacts(catalog.products, catalog.order, QueryText(q), all, matches);
    CapFacts(catalog.products, QueryText(q), all, matches, r);
    r
  }

  /** What the limit keeps of the matches: a prefix of at most ten, still in
      creation order, and a match it drops comes after all it keeps. */
  lemma CapFacts(products: map<ProductId, Product>, query: string, all: seq<Product>, matches: seq<Product>, r: seq<Product>)
    requires r == Take(matches, SearchLimit)
    requires forall i :: 0 <= i < |matches| ==>
      matches[i].id in products && products[matches[i].id] == matches[i] && ContainsIgnoreCase(matches[i].name, query)
    requires forall k :: k in products && ContainsIgnoreCase(products[k].name, query) ==> products[k] in matches
    requires forall i, j :: 0 <= i < j < |matches| ==> matches[i].createdAt < matches[j].createdAt
    requires query == "" ==> matches == all
    ensures |r| <= SearchLimit
    ensures forall i :: 0 <= i < |r| ==>
      r[i].id in products && products[r[i].id] == r[i] && ContainsIgnoreCase(r[i].name, query)
    ensures forall i, j :: 0 <= i < j < |r| ==> r[i].createdAt < r[j].createdAt
    ensures |r| < SearchLimit ==>
      forall k :: k in products && ContainsIgnoreCase(products[k].name, query) ==> products[k] in r
    ensures forall k :: k in products && ContainsIgnoreCase(products[k].name, query) && products[k] !in r ==>
      |r| == SearchLimit && forall i :: 0 <= i < |r| ==> r[i].createdAt < products[k].createdAt
    ensures query == "" ==> r == Take(all, SearchLimit)
  {
    forall i | 0 <= i < |r| ensures r[i] == matches[i] { }
    forall k | k in products && ContainsIgnoreCase(products[k].name, query) && products[k] !in r
      ensures |r| == SearchLimit && forall i :: 0 <= i < |r| ==> r[i].createdAt < products[k].createdAt
    {
      var m :| 0 <= m < |matches| && matches[m] == products[k];
      if m < |r| {
        assert r[m] == products[k];
      }
      forall i | 0 <= i < |r| ensures r[i].createdAt < products[k].createdAt {
        assert r[i] == matches[i];
      }
    }
  }

  /** What the filter keeps of the stored products: exactly the matching
      stored records, in creation order; everything for the empty query. */
  lemma SearchFacts(products: map<ProductId, Product>, order: seq<ProductId>, query: string,
                    all: seq<Product>, matches: seq<Product>)
    requires forall i :: 0 <= i < |order| ==> order[i] in products
    requires forall k :: k in products ==> k in order && products[k].id == k
    requires Increasing(products, order)
    requires all == InOrder(products, order)
    requires matches == Matching(all, query)
    ensures forall i :: 0 <= i < |matches| ==>
      matches[i].id in products && products[matches[i].id] == matches[i] && ContainsIgnoreCase(matches[i].name, query)
    ensures forall k :: k in products && ContainsIgnoreCase(products[k].name, query) ==> products[k] in matches
    ensures forall i, j :: 0 <= i < j < |matches| ==> matches[i].createdAt < matches[j].createdAt
    ensures query == "" ==> matches == all
  {
    InOrderFacts(products, order);
    MatchesSound(products, query, all, matches);
    MatchesComplete(products, order, query, all, matches);
    MatchesOrdered(query, all, matches);
    if query == "" {
      EmptyQueryKeepsAll(all);
    }
  }

  /** The natural-order listing holds stored records, oldest first. */
  lemma InOrderFacts(products: map<ProductId, Product>, order: seq<ProductId>)
    requires forall i :: 0 <= i < |order| ==> order[i] in products
    requires forall k :: k in products ==> products[k].id == k
    requires Increasing(products, order)
    ensures var all := InOrder(products, order);
      && (forall i :: 0 <= i < |all| ==> all[i].id in products && products[all[i].id] == all[i])
      && (forall i, j :: 0 <= i < j < |all| ==> all[i].createdAt < all[j].createdAt)
  {
  }

  lemma MatchesSound(products: map<ProductId, Product>, query: string, all: seq<Product>, matches: seq<Product>)
    requires forall i :: 0 <= i < |all| ==> all[i].id in products && products[all[i].id] == all[i]
    requires matches == Matching(all, query)
    ensures forall i :: 0 <= i < |matches| ==>
      matches[i].id in products && products[matches[i].id] == matches[i] && ContainsIgnoreCase(matches[i].name, query)
  {
    forall i | 0 <= i < |matches|
      ensures matches[i].id in products && products[matches[i].id] == matches[i] && ContainsIgnoreCase(matches[i].name, query)
    {
      assert matches[i] in all && NameMatches(query, matches[i]);
    }
  }

  lemma MatchesComplete(products: map<ProductId, Product>, order: seq<ProductId>, query: string,
                        all: seq<Product>, matches: seq<Product>)
    requires forall i :: 0 <= i < |order| ==> order[i] in products
    requires forall k :: k in products ==> k in order
    requires all == InOrder(products, order)
    requires matches == Matching(all, query)
    ensures forall k :: k in products && ContainsIgnoreCase(products[k].name, query) ==> products[k] in matches
  {
    forall k | k in products && ContainsIgnoreCase(products[k].name, query)
      ensures products[k] in matches
    {
      var m :| 0 <= m < |order| && order[m] == k;
      assert all[m] == products[k] && NameMatches(query, all[m]);
    }
  }

  lemma MatchesOrdered(query: string, all: seq<Product>, matches: seq<Product>)
    requires forall i, j :: 0 <= i < j < |all| ==> all[i].createdAt < all[j].createdAt
    requires matches == Matching(all, query)
    ensures forall i, j :: 0 <= i < j < |matches| ==> matches[i].createdAt < matches[j].createdAt
  {
    FilterKeepsPairwise(all, p => NameMatches(query, p), (a: Product, b: Product) => a.createdAt < b.createdAt);
  }

  lemma EmptyQueryKeepsAll(all: seq<Product>)
    ensures Matching(all, "") == all
  {
    forall i | 0 <= i < |all| ensures NameMatches("", all[i]) {
      EmptyQueryMatches(all[i].name);
    }
    FilterAll(all, p => NameMatches("", p));
  }
}
