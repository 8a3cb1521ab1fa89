/** The product administration page: its search and category filter, the stock
    figures and badges, and deleting a product. */
module AdminProducts {
  import opened Wrappers
  import opened Seqs
  import opened Text
  import opened CategoryData
  import opened Catalog

  /** `categoryFilter ? product.categories?.name === categoryFilter : true`. */
  predicate CategoryMatches(p: Product, categoryFilter: string) {
    categoryFilter == "" || p.categoryName == Some(categoryFilter)
  }

  /** `filteredProducts` of the administration page. */
  function AdminFilter(products: seq<Product>, searchTerm: string, categoryFilter: string): seq<Product> {
    Filter(products, (p: Product) => NameMatches(p, searchTerm) && CategoryMatches(p, categoryFilter))
  }

  /** A product is shown exactly when its name contains the search term, ignoring
      letter case, and either no category is chosen or its category's name is the chosen
      one; the table keeps the fetch order and shows at most every product ("Showing n
      of m"). */
  lemma AdminFilterExact(products: seq<Product>, searchTerm: string, categoryFilter: string)
    ensures forall p :: p in AdminFilter(products, searchTerm, categoryFilter) <==>
      p in products && Contains(Lower(p.name), Lower(searchTerm)) &&
      (categoryFilter == "" || p.categoryName == Some(categoryFilter))
    ensures IsSubsequence(AdminFilter(products, searchTerm, categoryFilter), products)
    ensures |AdminFilter(products, searchTerm, categoryFilter)| <= |products|
  {
    FilterIsSubsequence(products, (p: Product) => NameMatches(p, searchTerm) && CategoryMatches(p, categoryFilter));
  }

  /** With both filters cleared the table shows every product. */
  lemma ClearedFiltersShowAll(products: seq<Product>)
    ensures AdminFilter(products, "", "") == products
  {
    forall p | p in products
      ensures NameMatches(p, "") && CategoryMatches(p, "")
    {
      EmptyTermMatchesAll(p);
    }
    FilterAll(products, (p: Product) => NameMatches(p, "") && CategoryMatches(p, ""));
  }

  /** The "In Stock" figure: products with a positive quantity. */
  function InStock(products: seq<Product>): seq<Product> {
    Filter(products, (p: Product) => p.quantity > 0)
  }

  datatype Badge = Green | Yellow | Red

  /** The stock badge's colour: more than ten, one to ten, none. */
  function StockBadge(quantity: int): (b: Badge)
    ensures b == Green <==> quantity > 10
    ensures b == Yellow <==> 0 < quantity <= 10
    ensures b == Red <==> quantity <= 0
  {
    if quantity > 10 then Green else if quantity > 0 then Yellow else Red
  }

  /** The "In Stock" figure counts exactly the products whose badge is not red. */
  lemma InStockIsNonRed(products: seq<Product>)
    ensures InStock(products) == Filter(products, (p: Product) => StockBadge(p.quantity) != Red)
    ensures forall p :: p in InStock(products) <==> p in products && StockBadge(p.quantity) != Red
  {
    FilterCongruent(products, (p: Product) => p.quantity > 0, (p: Product) => StockBadge(p.quantity) != Red);
  }

  /** The page's state: the product list, the active categories, and the two filters. */
  class AdminProductsPage {
    var products: seq<Product>
    var categories: seq<Category>
    var searchTerm: string
    var categoryFilter: string

    constructor()
      ensures products == [] && categories == [] && searchTerm == "" && categoryFilter == ""
    {
      products := [];
      categories := [];
      searchTerm := "";
      categoryFilter := "";
    }

    /** `fetchProducts`: a failed query keeps the old list. */
    method FetchProducts(all: seq<Product>, storeFails: bool)
      modifies this
      ensures products == (if storeFails then old(products) else all)
      ensures categories == old(categories) && searchTerm == old(searchTerm) && categoryFilter == old(categoryFilter)
    {
      if !storeFails {
        products := all;
      }
    }

    /** `fetchCategories`: the active categories only. */
    method FetchCategories(table: seq<Category>, storeFails: bool)
      modifies this
      ensures categories == (if storeFails then old(categories) else ActiveOnly(table))
      ensures products == old(products) && searchTerm == old(searchTerm) && categoryFilter == old(categoryFilter)
    {
      if !storeFails {
        categories := ActiveOnly(table);
      }
    }

    /** `deleteProduct`: when the user confirms and the store deletes the row, drop every
        listed product with that id; otherwise nothing changes. */
    method DeleteProduct(id: Id, confirmed: bool, storeFails: bool)
      modifies this
      ensures products == (if confirmed && !storeFails then Filter(old(products), (p: Product) => p.id != id)
                           else old(products))
      ensures categories == old(categories) && searchTerm == old(searchTerm) && categoryFilter == old(categoryFilter)
    {
      if !confirmed {
        return;
      }
      if !storeFails {
        products := Filter(products, (p: Product) => p.id != id);
      }
    }

    /** The "Clear Filters" button. */
    method ClearFilters()
      modifies this
      ensures searchTerm == "" && categoryFilter == ""
      ensures products == old(products) && categories == old(categories)
    {
      searchTerm := "";
      categoryFilter := "";
    }

    function Shown(): seq<Product>
      reads this
    {
      AdminFilter(products, searchTerm, categoryFilter)
    }
  }

  /** Deleting removes exactly the products with that id and keeps the rest in order. */
  lemma DeleteRemovesOnlyThatId(products: seq<Product>, id: Id)
    ensures var r := Filter(products, (p: Product) => p.id != id);
      (forall p :: p in r <==> p in products && p.id != id) && IsSubsequence(r, products)
  {
    FilterIsSubsequence(products, (p: Product) => p.id != id);
  }
}
