/** The home page: category tabs (an "All" sentinel followed by the active categories),
    the descendant cache built for every category, the tab counts and the 12-product
    view of the selected tab, and the image it sends with a product to the cart. */
module HomePage {
  import opened Wrappers
  import opened Seqs
  import opened CategoryData
  import opened Descendants
  import opened CategoryForest
  import opened ProductImages
  import opened Catalog
  import opened Cart

  /** `{ id, label }`: the sentinel has no id and the label "All". */
  datatype Tab = Tab(id: Option<Id>, caption: string)

  const AllTab: Tab := Tab(None, "All")

  /** `formattedCategories`: the sentinel, then one tab per fetched row, in order. */
  function Tabs(data: seq<Category>): (r: seq<Tab>)
    ensures |r| == |data| + 1 && r[0] == AllTab
    ensures forall i :: 0 <= i < |data| ==> r[i + 1] == Tab(Some(data[i].id), data[i].name)
  {
    [AllTab] + seq(|data|, i requires 0 <= i < |data| => Tab(Some(data[i].id), data[i].name))
  }

  /** `buildCategoryHierarchy`: for every fetched row, its id mapped to the list
      `getDescendants` builds for it. */
  method BuildCategoryHierarchy(data: seq<Category>) returns (hierarchy: map<Id, seq<Id>>)
    requires WellFormed(data)
    ensures hierarchy.Keys == IdSet(data)
    ensures forall k :: k in hierarchy ==> hierarchy[k] == DescendantIds(data, k)
  {
    hierarchy := map[];
    var i := 0;
    while i < |data|
      invariant 0 <= i <= |data|
      invariant hierarchy.Keys == IdSet(data[..i])
      invariant forall k :: k in hierarchy ==> hierarchy[k] == DescendantIds(data, k)
    {
      var category := data[i];
      assert data[..i + 1] == data[..i] + [category];
      IndexSnoc(data[..i], category, category.id);
      var descendants := CollectDescendants(data, category.id);
      hierarchy := hierarchy[category.id := descendants];
      i := i + 1;
    }
    assert data[..i] == data;
  }

  /** `categoryHierarchy[id] || [id]`. */
  function EntryFor(hierarchy: map<Id, seq<Id>>, id: Id): (r: seq<Id>)
    ensures id in hierarchy ==> r == hierarchy[id]
    ensures id !in hierarchy ==> r == [id]
  {
    if id in hierarchy then hierarchy[id] else [id]
  }

  /** A tab and its `productCount`. */
  datatype TabCount = TabCount(tab: Tab, count: nat)

  /** The count of one tab: every product for a tab labelled "All", otherwise the
      products whose category is in the tab's cached entry. (Products always carry a
      category id, so a non-"All" tab without an id counts none.) */
  function CountFor(hierarchy: map<Id, seq<Id>>, products: seq<Product>, tab: Tab): nat {
    if tab.caption == "All" then |products|
    else match tab.id
      case None => 0
      case Some(id) => |ProductsIn(products, EntryFor(hierarchy, id))|
  }

  /** `categoriesWithCounts`: nothing until both lists are non-empty; then each tab with
      its count, in tab order, keeping only positive counts. */
  function CategoriesWithCounts(tabs: seq<Tab>, products: seq<Product>, hierarchy: map<Id, seq<Id>>)
    : seq<TabCount>
  {
    if |tabs| == 0 || |products| == 0 then []
    else
      var counted := seq(|tabs|, i requires 0 <= i < |tabs| => TabCount(tabs[i], CountFor(hierarchy, products, tabs[i])));
      Filter(counted, (tc: TabCount) => tc.count > 0)
  }

  /** The count list is empty without tabs or products; otherwise a tab is listed,
      with its count, exactly when its count is positive. */
  lemma CountsListPositive(tabs: seq<Tab>, products: seq<Product>, hierarchy: map<Id, seq<Id>>, t: Tab, n: nat)
    ensures |tabs| == 0 || |products| == 0 ==> CategoriesWithCounts(tabs, products, hierarchy) == []
    ensures |tabs| > 0 && |products| > 0 ==>
      (TabCount(t, n) in CategoriesWithCounts(tabs, products, hierarchy) <==>
        t in tabs && n == CountFor(hierarchy, products, t) && n > 0)
  {
    if |tabs| > 0 && |products| > 0 {
      var counted := seq(|tabs|, i requires 0 <= i < |tabs| => TabCount(tabs[i], CountFor(hierarchy, products, tabs[i])));
      if t in tabs {
        var i :| 0 <= i < |tabs| && tabs[i] == t;
        assert counted[i] == TabCount(t, CountFor(hierarchy, products, t));
      }
      if TabCount(t, n) in counted {
        var i :| 0 <= i < |counted| && counted[i] == TabCount(t, n);
        assert tabs[i] == t;
      }
    }
  }

  /** The sentinel always counts every product, so it is listed whenever there are
      products and tabs. */
  lemma AllCountsEverything(data: seq<Category>, products: seq<Product>, hierarchy: map<Id, seq<Id>>)
    requires |products| > 0
    ensures TabCount(AllTab, |products|) in CategoriesWithCounts(Tabs(data), products, hierarchy)
  {
    CountsListPositive(Tabs(data), products, hierarchy, AllTab, |products|);
  }

  /** With the cache built for the fetched rows, a category tab counts exactly the
      products whose category is that category or lies below it. */
  lemma CountMeansSubtree(data: seq<Category>, products: seq<Product>,
                          hierarchy: map<Id, seq<Id>>, c: Category, tab: Tab)
    requires WellFormed(data) && c in data
    requires hierarchy.Keys == IdSet(data)
    requires forall k :: k in hierarchy ==> hierarchy[k] == DescendantIds(data, k)
    requires tab == Tab(Some(c.id), c.name) && c.name != "All"
    ensures CountFor(hierarchy, products, tab) ==
      |ProductsIn(products, DescendantIds(data, c.id))|
    ensures forall p :: p in ProductsIn(products, DescendantIds(data, c.id)) <==>
      p in products && InSubtree(data, c.id, p.categoryId)
  {
    forall p ensures p in ProductsIn(products, DescendantIds(data, c.id)) <==>
      p in products && InSubtree(data, c.id, p.categoryId)
    {
      DescendantIdsExact(data, c.id, p.categoryId);
    }
  }

  /** A category whose name is "All" is treated as the sentinel and counts every product. */
  lemma CategoryNamedAllCountsEverything(hierarchy: map<Id, seq<Id>>, products: seq<Product>, id: Id)
    ensures CountFor(hierarchy, products, Tab(Some(id), "All")) == |products|
  {
  }

  /** The first tab with the label, if any (`categories.find`). */
  function FindTab(tabs: seq<Tab>, caption: string): (r: Option<Tab>)
    ensures r.Some? ==> r.value in tabs && r.value.caption == caption
    ensures r.None? ==> forall t :: t in tabs ==> t.caption != caption
  {
    if tabs == [] then None
    else if tabs[0].caption == caption then Some(tabs[0])
    else FindTab(tabs[1..], caption)
  }

  /** `filteredProducts`: the first 12 products for "All", for a label no tab has, or
      for a tab without an id; otherwise the first 12 products whose category is in
      the selected tab's entry. */
  function FilteredProducts(activeCategory: string, tabs: seq<Tab>, products: seq<Product>,
                            hierarchy: map<Id, seq<Id>>): seq<Product>
  {
    if activeCategory == "All" then Take(products, 12)
    else match FindTab(tabs, activeCategory)
      case None => Take(products, 12)
      case Some(t) =>
        if t.id.None? then Take(products, 12)
        else Take(ProductsIn(products, EntryFor(hierarchy, t.id.value)), 12)
  }

  /** The view is the first 12 products for "All", for a label no tab has and for a
      found tab without an id; for a found tab with an id it is the first 12 of that
      tab's products in their original order, so it shows as many products as the tab
      counts, up to 12. */
  lemma FilteredProductsShape(activeCategory: string, tabs: seq<Tab>, products: seq<Product>,
                              hierarchy: map<Id, seq<Id>>)
    ensures var r := FilteredProducts(activeCategory, tabs, products, hierarchy);
      |r| <= 12 &&
      (activeCategory == "All" || FindTab(tabs, activeCategory).None? ==>
        r == Take(products, 12)) &&
      (activeCategory != "All" && FindTab(tabs, activeCategory).Some? ==>
        var t := FindTab(tabs, activeCategory).value;
        (t.id.None? ==> r == Take(products, 12)) &&
        (t.id.Some? ==>
          r == Take(ProductsIn(products, EntryFor(hierarchy, t.id.value)), 12) &&
          |r| == if CountFor(hierarchy, products, t) < 12 then CountFor(hierarchy, products, t) else 12))
  {
  }

  /** `handleAddToCart`'s image: the first element of a native array (undefined for an
      empty one), otherwise the field as it is. */
  function CartImage(field: Value): Value {
    match field
    case Arr(a) => if |a| > 0 then Str(a[0]) else Absent
    case _ => field
  }

  /** The item `handleAddToCart` passes to the cart context: quantity 1. */
  function HomeCartItem(p: Product): (r: CartItem)
    ensures r.id == p.id && r.name == p.name && r.price == p.price
    ensures r.quantity == 1 && r.category == CategoryLabel(p)
    ensures r.image == CartImage(p.imageUrl)
  {
    CartItem(p.id, p.name, p.price, CategoryLabel(p), CartImage(p.imageUrl), 1)
  }

  /** The image choice of `handleAddToCart`: a non-empty native array gives its first
      URL, which is the first URL of the reference list; an empty one gives nothing; any
      other field, a JSON text of an array included, goes to the cart unparsed. */
  lemma CartImageChoice(field: Value, parse: Parser)
    ensures field.Arr? && |field.items| > 0 ==> CartImage(field) == Str(ImageList(field, parse)[0])
    ensures field.Arr? && field.items == [] ==> CartImage(field) == Absent
    ensures !field.Arr? ==> CartImage(field) == field
  {
  }

  /** A product whose image field is a JSON text goes into the cart with that text, and
      the cart page's load reads it back as its parsed value, so such an item does not
      empty the cart. */
  lemma HomeAddedEncodedImageLoads(p: Product, parse: Parser)
    requires p.imageUrl.Str? && parse(p.imageUrl.s).Some?
    ensures ParseImage(HomeCartItem(p).image, parse) == parse(p.imageUrl.s)
  {
  }

  /** A product whose image field is an array of plain URLs goes into the cart with a
      plain-URL image, and every cart holding that item then loads as empty on the cart
      page. */
  lemma HomeAddedArrayImageEmptiesCartPage(p: Product, items: seq<CartItem>, parse: Parser)
    requires p.imageUrl.Arr? && |p.imageUrl.items| > 0 && parse(p.imageUrl.items[0]).None?
    requires HomeCartItem(p) in items
    ensures LoadImages(items, parse).None?
  {
    var i :| 0 <= i < |items| && items[i] == HomeCartItem(p);
    PlainUrlImageFailsLoad(items, parse, i, p.imageUrl.items[0]);
  }

  /** The home page counts over active categories only: with an active root over an
      inactive child, a product of that child is not among the products the root's
      active-only descendant list selects (what the home count and view filter by),
      while the full table's list (the one the products page uses) selects it. */
  lemma HomeIgnoresInactiveChildren(products: seq<Product>, p: Product)
    requires p in products && p.categoryId == 2
    ensures var root := Category(1, "Pens", None, 0, 0, true);
      var child := Category(2, "Gel Pens", Some(1), 1, 0, false);
      var table := [root, child];
      2 !in DescendantIds(ActiveOnly(table), 1) && 2 in DescendantIds(table, 1) &&
      p !in ProductsIn(products, DescendantIds(ActiveOnly(table), 1)) &&
      p in ProductsIn(products, DescendantIds(table, 1))
  {
    var root := Category(1, "Pens", None, 0, 0, true);
    var child := Category(2, "Gel Pens", Some(1), 1, 0, false);
    var table := [root, child];
    assert table[1] == child;
    ActiveOnlyWellFormed(table);
    assert forall r :: r in ActiveOnly(table) ==> r == root;
    assert UniqueIds(table);
    DescendantIdsExact(table, 1, 2);
    assert Below(table, 1, child);
    DescendantIdsExact(ActiveOnly(table), 1, 2);
    assert forall r :: r in ActiveOnly(table) ==> r.id != 2;
  }

  /** The scenario table: Stationery > Pens > Gel Pens, all active. */
  function ScenarioTable(): seq<Category> {
    [Category(1, "Stationery", None, 0, 0, true),
     Category(2, "Pens", Some(1), 1, 0, true),
     Category(3, "Gel Pens", Some(2), 2, 0, true)]
  }

  lemma ScenarioWellFormed()
    ensures WellFormed(ScenarioTable())
  {
    var data := ScenarioTable();
    assert forall c :: c in data ==> c == data[0] || c == data[1] || c == data[2];
  }

  lemma ScenarioChildren()
    ensures Children(ScenarioTable(), 3) == []
    ensures Children(ScenarioTable(), 2) == [ScenarioTable()[2]]
    ensures Children(ScenarioTable(), 1) == [ScenarioTable()[1]]
  {
    var data := ScenarioTable();
    assert data[1..] == [data[1], data[2]];
    assert data[1..][1..] == [data[2]];
    assert data[1..][1..][1..] == [];
  }

  lemma ScenarioDescendants()
    ensures WellFormed(ScenarioTable())
    ensures DescendantIds(ScenarioTable(), 3) == [3]
    ensures DescendantIds(ScenarioTable(), 2) == [2, 3]
    ensures DescendantIds(ScenarioTable(), 1) == [1, 2, 3]
  {
    var data := ScenarioTable();
    ScenarioWellFormed();
    ScenarioChildren();
    assert DescendantIds(data, 3) == [3] + SubtreeIds(data, 3, []);
    var gel := [data[2]];
    assert gel[1..] == [];
    assert SubtreeIds(data, 2, gel) == DescendantIds(data, 3) + SubtreeIds(data, 2, []);
    var pens := [data[1]];
    assert pens[1..] == [];
    assert SubtreeIds(data, 1, pens) == DescendantIds(data, 2) + SubtreeIds(data, 1, []);
  }

  /** With one product in Stationery, two in Pens and three in Gel Pens, and the cache
      built for the scenario table, the three tabs count 6, 5 and 3. */
  lemma ThreeLevelCounts(hierarchy: map<Id, seq<Id>>)
    requires WellFormed(ScenarioTable())
    requires hierarchy.Keys == IdSet(ScenarioTable())
    requires forall k :: k in hierarchy ==> hierarchy[k] == DescendantIds(ScenarioTable(), k)
    ensures var products := [ScenarioProduct(1, 1), ScenarioProduct(2, 2), ScenarioProduct(3, 2),
                             ScenarioProduct(4, 3), ScenarioProduct(5, 3), ScenarioProduct(6, 3)];
      CountFor(hierarchy, products, Tab(Some(1), "Stationery")) == 6 &&
      CountFor(hierarchy, products, Tab(Some(2), "Pens")) == 5 &&
      CountFor(hierarchy, products, Tab(Some(3), "Gel Pens")) == 3
  {
    var data := ScenarioTable();
    ScenarioDescendants();
    assert data[0].id == 1 && data[1].id == 2 && data[2].id == 3;
    assert 1 in IdSet(data) && 2 in IdSet(data) && 3 in IdSet(data);
    ScenarioCounts([ScenarioProduct(1, 1), ScenarioProduct(2, 2), ScenarioProduct(3, 2),
                    ScenarioProduct(4, 3), ScenarioProduct(5, 3), ScenarioProduct(6, 3)]);
  }

  /** A product of the scenario: only its id and category matter. */
  function ScenarioProduct(id: Id, categoryId: Id): Product {
    Product(id, "Item", "", 1.0, 1, categoryId, None, Absent)
  }

  lemma CountStep(p: Product, rest: seq<Product>, ids: seq<Id>)
    ensures |ProductsIn([p] + rest, ids)| == (if p.categoryId in ids then 1 else 0) + |ProductsIn(rest, ids)|
  {
    assert ([p] + rest)[1..] == rest;
  }

  /** Counting the scenario's products over any id list, one product at a time. */
  lemma ScenarioCountOver(products: seq<Product>, ids: seq<Id>)
    requires products == [ScenarioProduct(1, 1), ScenarioProduct(2, 2), ScenarioProduct(3, 2),
                          ScenarioProduct(4, 3), ScenarioProduct(5, 3), ScenarioProduct(6, 3)]
    ensures |ProductsIn(products, ids)| ==
      (if 1 in ids then 1 else 0) + (if 2 in ids then 2 else 0) + (if 3 in ids then 3 else 0)
  {
    var empty: seq<Product> := [];
    var p6 := [ScenarioProduct(6, 3)] + empty;
    var p5 := [ScenarioProduct(5, 3)] + p6;
    var p4 := [ScenarioProduct(4, 3)] + p5;
    var p3 := [ScenarioProduct(3, 2)] + p4;
    var p2 := [ScenarioProduct(2, 2)] + p3;
    assert products == [ScenarioProduct(1, 1)] + p2;
    CountStep(ScenarioProduct(6, 3), empty, ids);
    CountStep(ScenarioProduct(5, 3), p6, ids);
    CountStep(ScenarioProduct(4, 3), p5, ids);
    CountStep(ScenarioProduct(3, 2), p4, ids);
    CountStep(ScenarioProduct(2, 2), p3, ids);
    CountStep(ScenarioProduct(1, 1), p2, ids);
  }

  lemma ScenarioCounts(products: seq<Product>)
    requires products == [ScenarioProduct(1, 1), ScenarioProduct(2, 2), ScenarioProduct(3, 2),
                          ScenarioProduct(4, 3), ScenarioProduct(5, 3), ScenarioProduct(6, 3)]
    ensures |ProductsIn(products, [1, 2, 3])| == 6
    ensures |ProductsIn(products, [2, 3])| == 5
    ensures |ProductsIn(products, [3])| == 3
  {
    ScenarioCountOver(products, [1, 2, 3]);
    ScenarioCountOver(products, [2, 3]);
    ScenarioCountOver(products, [3]);
  }
}
