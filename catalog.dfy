/** Product rows and the listing tests the pages apply to them. */
module Catalog {
  import opened Wrappers
  import opened Seqs
  import opened Text
  import opened CategoryData
  import opened ProductImages

  /** A product row joined with its category's name (`categories?.name`). */
  datatype Product = Product(
    id: Id,
    name: string,
    description: string,
    price: real,
    quantity: int,
    categoryId: Id,
    categoryName: Option<string>,
    imageUrl: Value)

  /** `product.name.toLowerCase().includes(searchTerm.toLowerCase())`. */
  predicate NameMatches(p: Product, term: string) {
    Contains(Lower(p.name), Lower(term))
  }

  /** An empty search term matches every product. */
  lemma EmptyTermMatchesAll(p: Product)
    ensures NameMatches(p, "")
  {
    ContainsEmpty(Lower(p.name));
  }

  /** Terms that differ only in letter case select the same products, and so do names. */
  lemma NameMatchIgnoresCase(p: Product, q: Product, t: string, u: string)
    requires Lower(p.name) == Lower(q.name) && Lower(t) == Lower(u)
    ensures NameMatches(p, t) == NameMatches(q, u)
  {
  }

  /** `categoryIds.includes(product.category_id)` as a filter, which is also what the
      store's `.in("category_id", categoryIds)` returns. */
  function ProductsIn(products: seq<Product>, ids: seq<Id>): (r: seq<Product>)
    ensures forall p :: p in r <==> p in products && p.categoryId in ids
    ensures |r| <= |products|
  {
    Filter(products, (p: Product) => p.categoryId in ids)
  }

  /** `product.categories?.name || "Unknown"`. */
  function CategoryLabel(p: Product): string {
    match p.categoryName
    case Some(n) => if n == "" then "Unknown" else n
    case None => "Unknown"
  }
}
