/** The product listing page: the category-restricted fetch, the search and price
    filter, the price sort, the price-range inputs and the add-to-cart button that
    writes the stored cart directly. */
module ProductsPage {
  import opened Wrappers
  import opened Seqs
  import opened Text
  import opened CategoryData
  import opened Descendants
  import opened ProductImages
  import opened Catalog
  import opened Cart

  /** `fetchProducts`: with no selected category every product; otherwise the products
      whose category is in the selected id's descendant list over the whole table.
      `None` when a query fails, in which case the page keeps its old products. */
  method FetchProducts(table: seq<Category>, products: seq<Product>, selected: Option<Id>, storeFails: bool)
    returns (fetched: Option<seq<Product>>)
    requires WellFormed(table)
    ensures storeFails <==> fetched.None?
    ensures !storeFails && selected.None? ==> fetched == Some(products)
    ensures !storeFails && selected.Some? ==>
      fetched == Some(ProductsIn(products, DescendantIds(table, selected.value))) &&
      forall p :: p in fetched.value <==> p in products && InSubtree(table, selected.value, p.categoryId)
  {
    if storeFails {
      return None;
    }
    if selected.None? {
      return Some(products);
    }
    var categoryIds := CollectDescendants(table, selected.value);
    fetched := Some(ProductsIn(products, categoryIds));
    forall p ensures p in fetched.value <==> p in products && InSubtree(table, selected.value, p.categoryId) {
      DescendantIdsExact(table, selected.value, p.categoryId);
    }
  }

  /** A price bound as `Number.parseInt` leaves it: `None` stands for NaN. */
  type Bound = Option<int>

  /** `product.price >= priceRange[0] && product.price <= priceRange[1]`: a NaN bound
      compares false. */
  predicate InPriceRange(price: real, low: Bound, high: Bound) {
    low.Some? && high.Some? && low.value as real <= price <= high.value as real
  }

  /** The `filter` step of `filteredProducts`. */
  function ListingFilter(products: seq<Product>, term: string, low: Bound, high: Bound): seq<Product> {
    Filter(products, (p: Product) => NameMatches(p, term) && InPriceRange(p.price, low, high))
  }

  /** A product is listed exactly when its name contains the term case-insensitively
      and its price lies in the range, both ends included; the listing keeps the fetch
      order. */
  lemma ListingFilterExact(products: seq<Product>, term: string, low: Bound, high: Bound)
    ensures forall p :: p in ListingFilter(products, term, low, high) <==>
      p in products && Contains(Lower(p.name), Lower(term)) &&
      low.Some? && high.Some? && low.value as real <= p.price <= high.value as real
    ensures IsSubsequence(ListingFilter(products, term, low, high), products)
  {
    FilterIsSubsequence(products, (p: Product) => NameMatches(p, term) && InPriceRange(p.price, low, high));
  }

  /** Whether `a` may stay ahead of `b`: a non-positive comparator result. */
  predicate InOrder(a: Product, b: Product, ascending: bool) {
    if ascending then a.price <= b.price else b.price <= a.price
  }

  predicate SortedBy(s: seq<Product>, ascending: bool) {
    forall i, j :: 0 <= i < j < |s| ==> InOrder(s[i], s[j], ascending)
  }

  /** Put `x` ahead of the first element it may precede; elements equal to `x` stay
      behind it, which keeps the sort stable. */
  function Insert(x: Product, s: seq<Product>, ascending: bool): seq<Product> {
    if s == [] || InOrder(x, s[0], ascending) then [x] + s
    else [s[0]] + Insert(x, s[1..], ascending)
  }

  lemma {:induction false} InsertPermutes(x: Product, s: seq<Product>, ascending: bool)
    ensures multiset(Insert(x, s, ascending)) == multiset(s) + multiset{x}
  {
    if s != [] && !InOrder(x, s[0], ascending) {
      InsertPermutes(x, s[1..], ascending);
      assert s == [s[0]] + s[1..];
    }
  }

  /** An element that may precede every element of a sorted list can head it. */
  lemma SortedCons(y: Product, s: seq<Product>, ascending: bool)
    requires SortedBy(s, ascending)
    requires forall j :: 0 <= j < |s| ==> InOrder(y, s[j], ascending)
    ensures SortedBy([y] + s, ascending)
  {
    var r := [y] + s;
    forall i, j | 0 <= i < j < |r| ensures InOrder(r[i], r[j], ascending) {
      assert r[j] == s[j - 1];
      if i > 0 {
        assert r[i] == s[i - 1];
      }
    }
  }

  /** Every element of an insertion result is the inserted one or came from the list. */
  lemma InsertElements(x: Product, s: seq<Product>, ascending: bool, y: Product)
    requires y in Insert(x, s, ascending)
    ensures y == x || y in s
  {
    InsertPermutes(x, s, ascending);
    assert y in multiset(Insert(x, s, ascending));
  }

  lemma {:induction false} InsertSorted(x: Product, s: seq<Product>, ascending: bool)
    requires SortedBy(s, ascending)
    ensures SortedBy(Insert(x, s, ascending), ascending)
  {
    if s == [] {
      assert Insert(x, s, ascending) == [x];
    } else if InOrder(x, s[0], ascending) {
      forall j | 0 <= j < |s| ensures InOrder(x, s[j], ascending) {
        if j > 0 {
          assert InOrder(s[0], s[j], ascending);
        }
      }
      SortedCons(x, s, ascending);
    } else {
      var tail := s[1..];
      var rest := Insert(x, tail, ascending);
      assert SortedBy(tail, ascending) by {
        forall i, j | 0 <= i < j < |tail| ensures InOrder(tail[i], tail[j], ascending) {
          assert tail[i] == s[i + 1] && tail[j] == s[j + 1];
        }
      }
      InsertSorted(x, tail, ascending);
      forall j | 0 <= j < |rest| ensures InOrder(s[0], rest[j], ascending) {
        InsertElements(x, tail, ascending, rest[j]);
        if rest[j] != x {
          var k :| 0 <= k < |tail| && tail[k] == rest[j];
          assert s[k + 1] == rest[j];
        }
      }
      SortedCons(s[0], rest, ascending);
    }
  }

  /** Insertion sort by price: `sort((a, b) => a.price - b.price)` when `ascending`,
      `sort((a, b) => b.price - a.price)` otherwise. */
  function SortByPrice(s: seq<Product>, ascending: bool): (r: seq<Product>)
    ensures multiset(r) == multiset(s)
    ensures SortedBy(r, ascending)
  {
    if s == [] then []
    else
      var rest := SortByPrice(s[1..], ascending);
      InsertPermutes(s[0], rest, ascending);
      InsertSorted(s[0], rest, ascending);
      assert s == [s[0]] + s[1..];
      Insert(s[0], rest, ascending)
  }

  /** `filteredProducts`: the filter, then the sort the key asks for; any key other than
      "price-low" and "price-high" leaves the fetch order. */
  function FilteredProducts(products: seq<Product>, term: string, low: Bound, high: Bound, sortBy: string)
    : seq<Product>
  {
    var kept := ListingFilter(products, term, low, high);
    if sortBy == "price-low" then SortByPrice(kept, true)
    else if sortBy == "price-high" then SortByPrice(kept, false)
    else kept
  }

  /** The listing is a permutation of the filtered products; "price-low" sorts it by
      ascending price, "price-high" by descending price, any other key keeps it as is. */
  lemma FilteredProductsSorted(products: seq<Product>, term: string, low: Bound, high: Bound, sortBy: string)
    ensures var kept := ListingFilter(products, term, low, high);
      var r := FilteredProducts(products, term, low, high, sortBy);
      multiset(r) == multiset(kept) &&
      (sortBy == "price-low" ==> forall i, j :: 0 <= i < j < |r| ==> r[i].price <= r[j].price) &&
      (sortBy == "price-high" ==> forall i, j :: 0 <= i < j < |r| ==> r[i].price >= r[j].price) &&
      (sortBy != "price-low" && sortBy != "price-high" ==> r == kept)
  {
    var kept := ListingFilter(products, term, low, high);
    var r := FilteredProducts(products, term, low, high, sortBy);
    if sortBy == "price-low" {
      assert SortedBy(r, true);
    } else if sortBy == "price-high" {
      assert SortedBy(r, false);
    }
  }

  /** `handlePriceChange`: a copy of the range with only the indexed bound replaced. */
  function WithBound(range: (Bound, Bound), index: int, value: Bound): (r: (Bound, Bound))
    requires index == 0 || index == 1
    ensures index == 0 ==> r.0 == value && r.1 == range.1
    ensures index == 1 ==> r.0 == range.0 && r.1 == value
  {
    if index == 0 then (value, range.1) else (range.0, value)
  }

  /** The listing page's filter state. */
  class Listing {
    var products: seq<Product>
    var selectedCategoryId: Option<Id>
    var selectedCategoryName: string
    var isFilterOpen: bool
    var priceRange: (Bound, Bound)

    constructor()
      ensures products == [] && selectedCategoryId.None? && selectedCategoryName == "All Categories"
      ensures !isFilterOpen && priceRange == (Some(0), Some(50000))
    {
      products := [];
      selectedCategoryId := None;
      selectedCategoryName := "All Categories";
      isFilterOpen := false;
      priceRange := (Some(0), Some(50000));
    }

    /** The effect on `selectedCategoryId`: a failed fetch keeps the old products. */
    method Refresh(table: seq<Category>, all: seq<Product>, storeFails: bool)
      requires WellFormed(table)
      modifies this
      ensures storeFails ==> products == old(products)
      ensures !storeFails && selectedCategoryId.None? ==> products == all
      ensures !storeFails && selectedCategoryId.Some? ==>
        products == ProductsIn(all, DescendantIds(table, selectedCategoryId.value))
      ensures selectedCategoryId == old(selectedCategoryId) && selectedCategoryName == old(selectedCategoryName)
      ensures isFilterOpen == old(isFilterOpen) && priceRange == old(priceRange)
    {
      var fetched := FetchProducts(table, all, selectedCategoryId, storeFails);
      if fetched.Some? {
        products := fetched.value;
      }
    }

    /** `handleCategorySelect`: record the choice and close the filter panel. */
    method HandleCategorySelect(categoryId: Option<Id>, categoryName: string)
      modifies this
      ensures selectedCategoryId == categoryId && selectedCategoryName == categoryName && !isFilterOpen
      ensures products == old(products) && priceRange == old(priceRange)
    {
      selectedCategoryId := categoryId;
      selectedCategoryName := categoryName;
      isFilterOpen := false;
    }

    /** `handlePriceChange`: replace one bound by the parsed input. */
    method HandlePriceChange(index: int, parsed: Bound)
      requires index == 0 || index == 1
      modifies this
      ensures priceRange == WithBound(old(priceRange), index, parsed)
      ensures products == old(products) && selectedCategoryId == old(selectedCategoryId)
      ensures selectedCategoryName == old(selectedCategoryName) && isFilterOpen == old(isFilterOpen)
    {
      priceRange := WithBound(priceRange, index, parsed);
    }

    /** What the grid shows. */
    function Shown(term: string, sortBy: string): seq<Product>
      reads this
    {
      FilteredProducts(products, term, priceRange.0, priceRange.1, sortBy)
    }
  }

  /** The item the listing's `addToCart` builds: the listing image as a string, and
      quantity 1. */
  function ListingCartItem(p: Product, parse: Parser): (r: CartItem)
    ensures r.id == p.id && r.name == p.name && r.price == p.price
    ensures r.quantity == 1 && r.category == CategoryLabel(p)
    ensures r.image == Str(ListingImage(p.imageUrl, parse, ProductsPlaceholder))
  {
    CartItem(p.id, p.name, p.price, CategoryLabel(p), Str(ListingImage(p.imageUrl, parse, ProductsPlaceholder)), 1)
  }

  /** An item added from the listing whose image text is not JSON (an ordinary URL)
      makes the cart page load every cart holding it as empty. */
  lemma ListingAddedUrlEmptiesCartPage(p: Product, parse: Parser, items: seq<CartItem>)
    requires parse(ListingImage(p.imageUrl, parse, ProductsPlaceholder)).None?
    requires ListingCartItem(p, parse) in items
    ensures LoadImages(items, parse).None?
  {
    var i :| 0 <= i < |items| && items[i] == ListingCartItem(p, parse);
    PlainUrlImageFailsLoad(items, parse, i, ListingImage(p.imageUrl, parse, ProductsPlaceholder));
  }

  /** `addToCart`: read the stored cart (an absent entry reads as `[]`), raise the
      quantity of the first item with the product's id by one in place, or append the
      new item, and write the cart back. This is the context's merge with quantity 1. */
  method AddToCart(storage: CartStorage, product: Product, parse: Parser)
    modifies storage
    ensures var before := if old(storage.cart).Some? then old(storage.cart).value else [];
      storage.cart == Some(MergeAdd(before, ListingCartItem(product, parse)))
  {
    var cartItem := ListingCartItem(product, parse);
    var existingCart := if storage.cart.Some? then storage.cart.value else [];
    var existingItemIndex := FindIndex(existingCart, product.id);
    if existingItemIndex > -1 {
      existingCart := existingCart[existingItemIndex :=
        existingCart[existingItemIndex].(quantity := existingCart[existingItemIndex].quantity + 1)];
    } else {
      existingCart := existingCart + [cartItem];
    }
    storage.cart := Some(existingCart);
  }

  /** On a cart with unique ids, the button raises an existing item's quantity by exactly
      one and changes nothing else, or appends one new item with quantity 1; ids stay
      unique either way. */
  lemma AddToCartEffect(before: seq<CartItem>, product: Product, parse: Parser)
    requires IdsUnique(before)
    ensures var after := MergeAdd(before, ListingCartItem(product, parse));
      var i := FindIndex(before, product.id);
      IdsUnique(after) &&
      (i > -1 ==> |after| == |before| && after[i] == before[i].(quantity := before[i].quantity + 1) &&
                  forall k :: 0 <= k < |before| && k != i ==> after[k] == before[k]) &&
      (i == -1 ==> after == before + [ListingCartItem(product, parse)])
  {
    MergeAddKeepsInvariants(before, ListingCartItem(product, parse));
  }
}
