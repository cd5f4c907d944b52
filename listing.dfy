/**
 * The catalog query of one render pass (`main` in app.py): the category
 * list shown in the switcher, and the rows shown in the grid for a selected
 * category and a trimmed search text.
 */
module Listing {
  import opened Text
  import opened Sequences
  import opened Catalog

  /** The sentinel category that stands for "every product". */
  const AllProducts: string := "全商品"

  /** The category column, in row order. */
  function CategoryColumn(catalog: seq<Product>): seq<string> {
    seq(|catalog|, k requires 0 <= k < |catalog| => catalog[k].category)
  }

  /** The distinct values of `xs` in order of first appearance (pandas' `unique`). */
  function Unique(xs: seq<string>): seq<string> {
    if xs == [] then []
    else
      var u := Unique(xs[..|xs| - 1]);
      if xs[|xs| - 1] in u then u else u + [xs[|xs| - 1]]
  }

  /** `Unique` keeps every value of `xs` and no other, and none twice. */
  lemma {:induction false} UniqueSpec(xs: seq<string>)
    ensures forall x :: x in Unique(xs) <==> x in xs
    ensures forall i, j :: 0 <= i < j < |Unique(xs)| ==> Unique(xs)[i] != Unique(xs)[j]
  {
    if xs != [] {
      var init, last := xs[..|xs| - 1], xs[|xs| - 1];
      UniqueSpec(init);
      assert xs == init + [last];
    }
  }

  /** A category value the switcher shows: its stripped form is not empty. */
  predicate IsShownCategory(c: string) {
    Strip(c) != ""
  }

  function Identity(s: string): string {
    s
  }

  /** The non-blank distinct categories, before sorting. */
  function ShownCategories(catalog: seq<Product>): seq<string> {
    Keep(Unique(CategoryColumn(catalog)), IsShownCategory)
  }

  /**
   * The switcher's list: the sentinel, then the distinct non-blank
   * categories of the whole catalog in ascending order. It has one entry
   * per shown category besides the sentinel.
   */
  function CategoryList(catalog: seq<Product>): (r: seq<string>)
    ensures |r| == 1 + |ShownCategories(catalog)| && r[0] == AllProducts
  {
    SortByLength(ShownCategories(catalog), Identity);
    [AllProducts] + SortBy(ShownCategories(catalog), Identity)
  }

  /** Each non-blank category of the catalog occurs once among the shown ones, any other value never. */
  lemma ShownCategoriesCount(catalog: seq<Product>, c: string)
    ensures multiset(ShownCategories(catalog))[c] ==
      if IsShownCategory(c) && c in CategoryColumn(catalog) then 1 else 0
  {
    var u := Unique(CategoryColumn(catalog));
    UniqueSpec(CategoryColumn(catalog));
    KeepCount(u, IsShownCategory, c);
    DistinctCount(u, c);
  }

  /**
   * The category list is never empty and starts with the sentinel; after it
   * come, strictly ascending (so each once), exactly the categories of the
   * catalog that are not all white space.
   */
  lemma CategoryListShape(catalog: seq<Product>)
    ensures var r := CategoryList(catalog);
      && |r| >= 1 && r[0] == AllProducts
      && (forall i, j :: 1 <= i < j < |r| ==> LexLt(r[i], r[j]))
      && (forall c :: c in r[1..] <==>
            (exists k :: 0 <= k < |catalog| && catalog[k].category == c) && !IsBlank(c))
  {
    var kept := ShownCategories(catalog);
    var sorted := SortBy(kept, Identity);
    assert CategoryList(catalog)[1..] == sorted;
    SortByCorrect(kept, Identity);
    forall c ensures multiset(sorted)[c] <= 1 {
      ShownCategoriesCount(catalog, c);
    }
    SortedOnceIsStrict(sorted);
    forall c ensures c in sorted <==>
        (exists k :: 0 <= k < |catalog| && catalog[k].category == c) && !IsBlank(c)
    {
      ShownCategoriesCount(catalog, c);
      StripEmptyIffBlank(c);
      ColumnMembers(catalog, c);
    }
  }

  /** A value is in the category column exactly when some row has it. */
  lemma ColumnMembers(catalog: seq<Product>, c: string)
    ensures c in CategoryColumn(catalog) <==> exists k :: 0 <= k < |catalog| && catalog[k].category == c
  {
    if c in CategoryColumn(catalog) {
      var k :| 0 <= k < |catalog| && CategoryColumn(catalog)[k] == c;
      assert catalog[k].category == c;
    }
    if exists k :: 0 <= k < |catalog| && catalog[k].category == c {
      var k :| 0 <= k < |catalog| && catalog[k].category == c;
      assert CategoryColumn(catalog)[k] == c;
    }
  }

  /** A sorted sequence in which no value occurs twice is strictly ascending. */
  lemma SortedOnceIsStrict(xs: seq<string>)
    requires SortedBy(xs, Identity)
    requires forall x :: multiset(xs)[x] <= 1
    ensures forall i, j :: 0 <= i < j < |xs| ==> LexLt(xs[i], xs[j])
  {
    forall i, j | 0 <= i < j < |xs| ensures xs[i] != xs[j] {
      if xs[i] == xs[j] {
        RepeatedValueCount(xs, i, j);
        assert false;
      }
    }
  }

  /** A value found at two positions occurs at least twice. */
  lemma RepeatedValueCount(xs: seq<string>, i: nat, j: nat)
    requires i < j < |xs| && xs[i] == xs[j]
    ensures multiset(xs)[xs[i]] >= 2
  {
    assert xs == xs[..i] + [xs[i]] + xs[i + 1..j] + [xs[j]] + xs[j + 1..];
  }

  /** In a sequence without repetitions every value occurs at most once. */
  lemma {:induction false} DistinctCount(xs: seq<string>, x: string)
    requires forall i, j :: 0 <= i < j < |xs| ==> xs[i] != xs[j]
    ensures multiset(xs)[x] == if x in xs then 1 else 0
  {
    if xs != [] {
      var init := xs[..|xs| - 1];
      DistinctCount(init, x);
      assert xs == init + [xs[|xs| - 1]];
      if x == xs[|xs| - 1] {
        assert x !in init;
      }
    }
  }

  /** The product name matches the search text, ignoring ASCII case. */
  predicate NameMatches(p: Product, query: string) {
    ContainsIgnoringCase(p.productName, query)
  }

  /**
   * The row mask of one pass: a non-empty search text matches names across
   * the whole catalog; otherwise a selection other than the sentinel or the
   * empty string keeps the rows of that category; otherwise every row.
   */
  predicate Selects(p: Product, selected: string, query: string) {
    if query != "" then NameMatches(p, query)
    else if selected != "" && selected != AllProducts then p.category == selected
    else true
  }

  /** The masked catalog, still in file order. */
  function Masked(catalog: seq<Product>, selected: string, query: string): seq<Product> {
    Keep(catalog, p => Selects(p, selected, query))
  }

  function ProductName(p: Product): string {
    p.productName
  }

  /**
   * The rows the grid shows: the masked catalog sorted by product name;
   * there are as many as the mask keeps, so never more than the catalog has.
   */
  function Query(catalog: seq<Product>, selected: string, query: string): (r: seq<Product>)
    ensures |r| == |Masked(catalog, selected, query)| <= |catalog|
  {
    SortByLength(Masked(catalog, selected, query), ProductName);
    SortBy(Masked(catalog, selected, query), ProductName)
  }

  /** The shown rows are sorted by name and are a permutation of the masked rows. */
  lemma QuerySortedPermutation(catalog: seq<Product>, selected: string, query: string)
    ensures SortedBy(Query(catalog, selected, query), ProductName)
    ensures multiset(Query(catalog, selected, query)) == multiset(Masked(catalog, selected, query))
  {
    SortByCorrect(Masked(catalog, selected, query), ProductName);
  }

  /** Each row occurs in the result as often as in the catalog if the mask selects it, else never. */
  lemma QueryCount(catalog: seq<Product>, selected: string, query: string, p: Product)
    ensures multiset(Query(catalog, selected, query))[p] ==
            if Selects(p, selected, query) then multiset(catalog)[p] else 0
  {
    QuerySortedPermutation(catalog, selected, query);
    KeepCount(catalog, p => Selects(p, selected, query), p);
  }

  /**
   * A non-empty search text yields exactly the catalog rows whose name
   * contains it case-insensitively, whatever category is selected.
   */
  lemma QuerySearch(catalog: seq<Product>, selected: string, query: string)
    requires query != ""
    ensures forall p :: multiset(Query(catalog, selected, query))[p] ==
                        if ContainsIgnoringCase(p.productName, query) then multiset(catalog)[p] else 0
  {
    forall p ensures multiset(Query(catalog, selected, query))[p] ==
      if ContainsIgnoringCase(p.productName, query) then multiset(catalog)[p] else 0
    {
      QueryCount(catalog, selected, query, p);
    }
  }

  /** With a non-empty search text the selected category has no influence at all. */
  lemma QuerySearchIgnoresCategory(catalog: seq<Product>, selected1: string, selected2: string, query: string)
    requires query != ""
    ensures Query(catalog, selected1, query) == Query(catalog, selected2, query)
  {
    KeepAgreeing(catalog, p => Selects(p, selected1, query), p => Selects(p, selected2, query));
  }

  /** Without a search text, the sentinel or an empty selection shows the whole catalog. */
  lemma QueryAll(catalog: seq<Product>, selected: string)
    requires selected == AllProducts || selected == ""
    ensures multiset(Query(catalog, selected, "")) == multiset(catalog)
  {
    QuerySortedPermutation(catalog, selected, "");
    KeepAll(catalog, p => Selects(p, selected, ""));
  }

  /** Without a search text, any other selection shows exactly the rows of that category. */
  lemma QueryCategory(catalog: seq<Product>, selected: string)
    requires selected != AllProducts && selected != ""
    ensures forall p :: multiset(Query(catalog, selected, ""))[p] ==
                        if p.category == selected then multiset(catalog)[p] else 0
  {
    forall p ensures multiset(Query(catalog, selected, ""))[p] ==
      if p.category == selected then multiset(catalog)[p] else 0
    {
      QueryCount(catalog, selected, "", p);
    }
  }

  /** Searching the result of a search again, with any selection, finds the same rows. */
  lemma QuerySearchIdempotent(catalog: seq<Product>, selected1: string, selected2: string, query: string)
    requires query != ""
    ensures multiset(Query(Query(catalog, selected1, query), selected2, query))
         == multiset(Query(catalog, selected1, query))
  {
    var once := Query(catalog, selected1, query);
    forall p ensures multiset(Query(once, selected2, query))[p] == multiset(once)[p] {
      QueryCount(once, selected2, query, p);
      QueryCount(catalog, selected1, query, p);
    }
  }
}
