/** The product listing route: the loader derives the list of distinct
    categories from the products the database returned, and the page keeps
    a selected category, mirrored in the URL's `category` parameter, that
    narrows the listing. The database query itself (active products, newest
    first) is not part of this model: its result is the loader's input. */
module Products {
  import opened Forms

  /** A product row, reduced to the fields the route's logic reads. */
  datatype Product = Product(id: string, title: string, category: string)

  /** What the loader hands to the page. */
  datatype LoaderData = LoaderData(products: seq<Product>, categories: seq<string>)

  /** URL query parameters, one value per name. */
  type SearchParams = map<string, string>

  predicate NoDuplicates<T(==)>(s: seq<T>)
  {
    forall i, j :: 0 <= i < j < |s| ==> s[i] != s[j]
  }

  /** `[...new Set(xs)]`: each value once, kept at the place where a `Set`
      fed left to right first inserts it. */
  function Distinct(xs: seq<string>): (r: seq<string>)
    ensures NoDuplicates(r)
    ensures forall x :: x in r <==> x in xs
  {
    if xs == [] then []
    else
      var d := Distinct(xs[..|xs| - 1]);
      var x := xs[|xs| - 1];
      assert forall y :: y in xs <==> y in xs[..|xs| - 1] || y == x by {
        assert xs == xs[..|xs| - 1] + [x];
      }
      if x in d then d else d + [x]
  }

  /** The position of the first occurrence of `x` in `xs`. */
  function FirstIndex<T(==)>(xs: seq<T>, x: T): (k: nat)
    requires x in xs
    ensures k < |xs| && xs[k] == x
    ensures forall j :: 0 <= j < k ==> xs[j] != x
  {
    if xs[0] == x then 0 else 1 + FirstIndex(xs[1..], x)
  }

  /** Appending an element does not move the first occurrence of a value
      already present. */
  lemma FirstIndexAppend<T>(ys: seq<T>, y: T, x: T)
    requires x in ys
    ensures FirstIndex(ys + [y], x) == FirstIndex(ys, x)
  {
    var k, k' := FirstIndex(ys + [y], x), FirstIndex(ys, x);
    assert (ys + [y])[k'] == x;
    assert k <= k';
    assert ys[k] == x;
  }

  /** `Distinct` lists values in the order of their first occurrence. */
  lemma {:induction false} DistinctKeepsFirstOccurrenceOrder(xs: seq<string>, i: nat, j: nat)
    requires i < j < |Distinct(xs)|
    ensures FirstIndex(xs, Distinct(xs)[i]) < FirstIndex(xs, Distinct(xs)[j])
  {
    var ys, x := xs[..|xs| - 1], xs[|xs| - 1];
    assert xs == ys + [x];
    var d := Distinct(ys);
    var r := Distinct(xs);
    assert r[i] in ys by { assert r[i] in r; }
    FirstIndexAppend(ys, x, r[i]);
    if x in d || j < |d| {
      assert r[j] in ys by { assert r[j] in d; }
      FirstIndexAppend(ys, x, r[j]);
      DistinctKeepsFirstOccurrenceOrder(ys, i, j);
    } else {
      assert r[j] == x && x !in ys;
      assert FirstIndex(xs, x) == |ys|;
    }
  }

  /** `products.map((product) => product.category)` */
  function CategoryOf(products: seq<Product>): (r: seq<string>)
    ensures |r| == |products| && forall i :: 0 <= i < |r| ==> r[i] == products[i].category
  {
    seq(|products|, i requires 0 <= i < |products| => products[i].category)
  }

  /** The route's loader, given the products the query returned. */
  function Loader(products: seq<Product>): (r: LoaderData)
    ensures r.products == products
    ensures NoDuplicates(r.categories)
    ensures forall c :: c in r.categories <==> exists i :: 0 <= i < |products| && products[i].category == c
  {
    var cs := CategoryOf(products);
    assert forall c :: c in cs <==> exists i :: 0 <= i < |products| && products[i].category == c by {
      forall c ensures c in cs <==> exists i :: 0 <= i < |products| && products[i].category == c {
        if c in cs {
          var i :| 0 <= i < |cs| && cs[i] == c;
          assert products[i].category == c;
        }
      }
    }
    LoaderData(products, Distinct(cs))
  }

  /** The loader lists categories in the order in which they first occur
      among the products. */
  lemma CategoriesInFirstOccurrenceOrder(products: seq<Product>, i: nat, j: nat)
    requires i < j < |Loader(products).categories|
    ensures FirstIndex(CategoryOf(products), Loader(products).categories[i]) <
            FirstIndex(CategoryOf(products), Loader(products).categories[j])
  {
    DistinctKeepsFirstOccurrenceOrder(CategoryOf(products), i, j);
  }

  /** `a` is `b` with some elements left out, the rest in their order. */
  predicate IsSubsequence<T(==)>(a: seq<T>, b: seq<T>)
    decreases |b|
  {
    a == [] || (b != [] && ((a[0] == b[0] && IsSubsequence(a[1..], b[1..])) || IsSubsequence(a, b[1..])))
  }

  /** `products.filter((product) => product.category === c)` */
  function WithCategory(products: seq<Product>, c: string): (r: seq<Product>)
    ensures IsSubsequence(r, products)
    ensures forall p :: multiset(r)[p] == if p.category == c then multiset(products)[p] else 0
  {
    if products == [] then []
    else
      var rest := WithCategory(products[1..], c);
      assert products == [products[0]] + products[1..];
      if products[0].category == c then
        var r := [products[0]] + rest;
        assert r[1..] == rest;
        r
      else
        assert rest == [] || IsSubsequence(rest, products[1..]);
        rest
  }

  /** `filteredProducts`: the whole list while no category is selected,
      otherwise exactly the products of the selected category, each as many
      times as it occurs and in the original order. */
  function FilteredProducts(products: seq<Product>, selected: string): (r: seq<Product>)
    ensures selected == "" ==> r == products
    ensures IsSubsequence(r, products)
    ensures forall p :: p in r ==> selected == "" || p.category == selected
    ensures forall p :: multiset(r)[p] == if selected == "" || p.category == selected then multiset(products)[p] else 0
  {
    if selected != "" then WithCategory(products, selected) else
      assert IsSubsequence(products, products) by { SubsequenceOfItself(products); }
      products
  }

  lemma {:induction false} SubsequenceOfItself<T>(s: seq<T>)
    ensures IsSubsequence(s, s)
  {
    if s != [] {
      SubsequenceOfItself(s[1..]);
    }
  }

  /** Picking a category the loader offered always shows some product, and
      a non-empty category it did not offer (one typed into the URL) shows
      none. */
  lemma SelectionShowsProductsIffOffered(products: seq<Product>, c: string)
    requires c != ""
    ensures FilteredProducts(products, c) != [] <==> c in Loader(products).categories
  {
    var r := FilteredProducts(products, c);
    if c in Loader(products).categories {
      var i :| 0 <= i < |products| && products[i].category == c;
      assert products[i] in multiset(products);
      assert products[i] in multiset(r);
    }
  }

  /** `searchParams.get("category") || ""` */
  function CategoryParam(params: SearchParams): (c: string)
    ensures c != "" ==> "category" in params && params["category"] == c
    ensures "category" in params ==> c == params["category"]
    ensures "category" !in params ==> c == ""
  {
    if "category" in params then params["category"] else ""
  }

  /** The products page: the loader's data, and the two pieces of state the
      category picker updates together. */
  class ProductsPage {
    const data: LoaderData
    var selectedCategory: string
    var searchParams: SearchParams

    /** The selected category is the one the URL names. */
    predicate Synced()
      reads this
    {
      selectedCategory == CategoryParam(searchParams)
    }

    /** What the grid shows. */
    function Shown(): (r: seq<Product>)
      reads this
      ensures selectedCategory == "" ==> r == data.products
      ensures forall p :: p in r ==> selectedCategory == "" || p.category == selectedCategory
      ensures r == FilteredProducts(data.products, selectedCategory)
    {
      FilteredProducts(data.products, selectedCategory)
    }

    /** The page as first rendered: the selection starts from the URL's
        `category` parameter, or empty when that is missing or empty. */
    constructor (data: LoaderData, params: SearchParams)
      ensures this.data == data && searchParams == params
      ensures selectedCategory == (if "category" in params then params["category"] else "")
      ensures Synced()
    {
      this.data := data;
      searchParams := params;
      selectedCategory := CategoryParam(params);
    }

    /** `handleCategoryChange(value)`: a chosen category becomes the
        selection and the URL's only parameter; clearing the picker
        (`null` or `""`) empties both. */
    method HandleCategoryChange(value: Option<string>)
      modifies this
      ensures value.Some? && value.value != "" ==>
        selectedCategory == value.value && searchParams == map["category" := value.value]
      ensures value.None? || value.value == "" ==>
        selectedCategory == "" && searchParams == map[]
      ensures Synced()
      ensures selectedCategory != "" <==> "category" in searchParams
    {
      var v := if value.Some? then value.value else "";
      selectedCategory := v;
      if v != "" {
        searchParams := map["category" := v];
      } else {
        searchParams := map[];
      }
    }
  }
}
