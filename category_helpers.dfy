/** The category helper library: the breadcrumb path of a category, the ids of a
    category and all its descendants, the products of a category tree, and the
    `" > "`-joined path text (the last is `Ancestry.FormatCategoryPath`). A store query
    that throws is a boolean parameter, and the library's `catch` blocks then return
    their fallback values; an error a query returns without throwing is not modelled. */
module CategoryHelpers {
  import opened Wrappers
  import opened Seqs
  import opened CategoryData
  import opened Descendants
  import opened Ancestry
  import opened Catalog

  /** `getCategoryPath`: nothing for a falsy id or a failing store, otherwise the rows
      from the root down to the category, as far as they are found. */
  method GetCategoryPath(cats: seq<Category>, categoryId: Option<Id>, storeFails: bool)
    returns (path: seq<Category>)
    requires Ranked(cats)
    ensures categoryId.None? || storeFails ==> path == []
    ensures categoryId.Some? && !storeFails ==> path == PathTo(cats, categoryId)
  {
    if categoryId.None? {
      return [];
    }
    if storeFails {
      return [];
    }
    path := WalkToRoot(cats, categoryId.value);
  }

  /** `getAllDescendantCategoryIds`: nothing for a falsy id, the id alone when the store
      fails, otherwise the id followed by every descendant in pre-order. */
  method GetAllDescendantCategoryIds(cats: seq<Category>, categoryId: Option<Id>, storeFails: bool)
    returns (ids: seq<Id>)
    requires WellFormed(cats)
    ensures categoryId.None? ==> ids == []
    ensures categoryId.Some? && storeFails ==> ids == [categoryId.value]
    ensures categoryId.Some? && !storeFails ==>
      ids == DescendantIds(cats, categoryId.value) &&
      forall x :: x in ids <==> InSubtree(cats, categoryId.value, x)
  {
    if categoryId.None? {
      return [];
    }
    if storeFails {
      return [categoryId.value];
    }
    var descendants := [categoryId.value];
    ids := PushChildren(cats, categoryId.value, descendants);
    forall x ensures x in ids <==> InSubtree(cats, categoryId.value, x) {
      DescendantIdsExact(cats, categoryId.value, x);
    }
  }

  /** `getProductsInCategoryTree`: the products whose category is the given one or lies
      below it, in store order; nothing for a falsy id (the `in` filter gets an empty
      list) or when the product query fails; only the category's own products when the
      category queries fail. */
  method GetProductsInCategoryTree(
    cats: seq<Category>, products: seq<Product>, categoryId: Option<Id>,
    categoriesFail: bool, productsFail: bool)
    returns (r: seq<Product>)
    requires WellFormed(cats)
    ensures productsFail || categoryId.None? ==> r == []
    ensures !productsFail && categoryId.Some? && categoriesFail ==>
      r == ProductsIn(products, [categoryId.value])
    ensures !productsFail && categoryId.Some? && !categoriesFail ==>
      r == ProductsIn(products, DescendantIds(cats, categoryId.value)) &&
      forall p :: p in r <==> p in products && InSubtree(cats, categoryId.value, p.categoryId)
  {
    var categoryIds := GetAllDescendantCategoryIds(cats, categoryId, categoriesFail);
    if productsFail {
      return [];
    }
    r := ProductsIn(products, categoryIds);
    if categoryId.None? {
      FilterNone(products, (p: Product) => p.categoryId in categoryIds);
    }
  }
}
