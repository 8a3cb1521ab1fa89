# Storefront core, modelled in Dafny

This project models the logic at the centre of a small client-rendered storefront.
Around it sit page markup and calls to a hosted database, an auth service and an
object store. The model covers five groups:

- **The category hierarchy.** Categories are flat records (`id`, `parent_id`, `level`, `sort_order`, `is_active`). The model covers:
  - the upward walk that builds a root-first breadcrumb path;
  - the recursive "the category and all its descendants" id lists;
  - the two-pass forest build of the admin category tree and the category selector, with its expand/collapse set, its highlighting and its "All Categories" row.
- **Category-based product listings.**
  - The home page's "All" tab and category tabs, with counts and a 12-product view.
  - The products page's category restriction, search, inclusive price range and price sort.
  - The admin product table's search and exact category-name filter, its "In Stock" figure and its stock badges.
- **The cart.** It exists in two copies:
  - the cart context provider, whose add merges quantities and whose save effect writes only non-empty carts;
  - the cart page, which JSON-parses item images when it loads, removes the storage entry for an empty cart, clamps quantities at 1 and guards checkout.

  The products page also keeps its own add-to-cart, which writes the stored cart directly.
- **The tolerant image-field readers.** The three `getProductImage` versions differ, and the model makes the differences explicit.
- **The new-product form.** It covers file admission for previews, index-based removal from the paired image and preview lists, required-field validation, and uploading every file in order before the insert.

Modules follow the source files:

| Module(s) | Source |
|---|---|
| `CategoryHelpers`, `Ancestry`, `Descendants` | `lib/category-helpers.js` |
| `CategoryBreadcrumb` | `components/category-breadcrumb.jsx` |
| `CategorySelector` | `components/category-selector.jsx` |
| `AdminCategories` | `app/admin/categories/page.jsx` |
| `CategoryForest` | the two-pass build shared by the selector and the admin page |
| `HomePage` | `app/page.js` |
| `ProductsPage` | `app/products/page.jsx` |
| `AdminProducts` | `app/admin/products/page.jsx` |
| `NewProduct` | `app/admin/products/new/page.jsx` |
| `CartContext` | `context/cart-context.jsx` |
| `CartPage` | `app/cart/page.jsx` |
| `Cart` | the item list and its updaters, shared by both cart copies |
| `ProductImages` | the three image readers |
| `Catalog` | product rows and name search |

Shared helpers:

- `CategoryData` holds category records;
- `Seqs` holds `filter` and `slice`;
- `Text` holds lower-casing, substring search and `join`;
- `Wrappers` holds `Option` and `Result`.

Modelling choices:

- **The category table is a `seq<Category>` in query order.**
  - A lookup by id follows `.single()`: it gives the row when exactly one row has that id, and no row when none or several do.
  - "The children of `p`" are the rows whose `parent_id` is `p`, in row order.
  - A sequence keeps the row order on which every listing of children depends; a map would not.
- **Falsy ids and parent ids are `None`.** Row ids are taken to be non-zero, as the tables' serial keys are; an id of 0 would be falsy in the source but is an ordinary id in the model.
- **Acyclicity is a precondition.** The source has no cycle guard. `Ranked` requires a parent row's `level` to be strictly below its child's, and `WellFormed` adds unique ids. The descendant recursion decreases a height measure, and the upward walk decreases a level measure.
- **Store calls become parameters.**
  - A failed database query is a boolean parameter.
  - `JSON.parse` is a parameter `string -> Option<Value>`, where `None` means it throws.
  - A storage upload is a parameter `File -> Result<url, message>`.
- **The browser's "cart" storage entry is a `CartStorage` object.** It holds `Option<seq<CartItem>>`, and the JSON encoding of the whole cart is read back unchanged.

Where the pages disagree with each other or with what the schema suggests, the model follows each page's code:

- **The home page and the products page use different category tables.** One would expect their descendant lists to agree. But the home page builds them from active categories only, while the products page uses every category (`HomePage.HomeIgnoresInactiveChildren`).
- **The image normalisation is a reference function only.** The stored forms (a native array, its JSON text, a bare URL) suggest one normaliser: array, then JSON text, then a bare URL. No page implements it, so `ProductImages.ImageList` is that reference, and each page's reader is related to it.
- **A bare-URL image empties the cart on the cart page.** The cart page parses every string image as JSON. Any cart item whose image is a bare URL therefore makes the whole stored cart load as empty (`Cart.PlainUrlImageFailsLoad`). The products page always sends the text of its listing image, so an item from it empties the cart whenever that text is an ordinary URL (`ProductsPage.ListingAddedUrlEmptiesCartPage`). The home page sends the head of a native array, or any other field unparsed. So its items empty the cart when the field is a native array whose head is not JSON, or a bare-URL string (`HomePage.HomeAddedArrayImageEmptiesCartPage`). A JSON-text field loads (`HomePage.HomeAddedEncodedImageLoads`).

## Model

| member | source | states |
|---|---|---|
| CategoryData.Lookup | lib/category-helpers.js:14 | a found row is the only row with the requested id; a miss means the number of rows with that id is not one |
| CategoryData.LookupMisses | lib/category-helpers.js:14-16 | with unique ids, a lookup misses exactly when no row has the id |
| CategoryData.LookupRejectsDuplicates | lib/category-helpers.js:14-20 | two rows with the same id make the lookup fail, so the walk stops there |
| CategoryData.LookupFinds | lib/category-helpers.js:14-16 | with unique ids (`.single()`), looking up any row's id finds exactly that row |
| CategoryData.Children | app/page.js:115 | the children of `id` are exactly the rows whose parent id is `id` |
| CategoryData.ActiveOnly | components/category-selector.jsx:18-22 | the active-only query keeps exactly the active rows |
| CategoryData.ActiveOnlyWellFormed | app/page.js:69-73 | dropping inactive rows keeps ids unique and parent levels below child levels |
| CategoryData.DistinctRowsDistinctIds | lib/category-helpers.js:14 | with unique ids, two different rows never share an id |
| Ancestry.WalkToRoot | lib/category-helpers.js:13-21 | the `while` loop that prepends each found row and moves to its parent yields the root-first path `PathTo` |
| Ancestry.PathEndsAtStart | lib/category-helpers.js:13-21 | the path is empty exactly when the start id is not found; otherwise its last row is the starting category |
| Ancestry.PathLinked | lib/category-helpers.js:17-18 | every path row is a table row and each row's parent id is the id of the row before it |
| Ancestry.PathLevelsIncrease | lib/category-helpers.js:13-21 | levels strictly increase from the root to the starting category |
| Ancestry.PathBoundedByTable | lib/category-helpers.js:13 | on acyclic data the walk stops and the path never has more rows than the table |
| Ancestry.FormatExtendsParent | lib/category-helpers.js:74-76 | `formatCategoryPath` of `[]` is `""`; a category's path text is its parent's path text, `" > "` and its own name |
| CategoryHelpers.GetCategoryPath | lib/category-helpers.js:5-29 | no id, or a failing store, gives `[]`; otherwise the root-first path to the category |
| CategoryHelpers.GetAllDescendantCategoryIds | lib/category-helpers.js:31-52 | no id gives `[]`; a failing store gives `[id]`; otherwise the pre-order list, whose members are exactly the id and its transitive descendants |
| CategoryHelpers.GetProductsInCategoryTree | lib/category-helpers.js:54-72 | a product is returned exactly when its category is the id or lies below it; an error gives `[]`, and a failed descendant lookup restricts the query to `[id]` |
| Descendants.DescendantIdsExact | lib/category-helpers.js:37-47 | an id is in the descendant list exactly when it is the category or a transitive descendant of it |
| Descendants.CollectDescendants | app/page.js:113-122 | the push loop yields the category, then each child's own list in row order (`DescendantIds`) |
| Descendants.PushChildren | lib/category-helpers.js:37-44 | the recursive `getChildren` appends, for each child in row order, the child and then its own descendants |
| Descendants.SubtreeSnoc | app/page.js:117-119 | one more child appends that child's whole list |
| CategoryForest.IdSet | app/admin/categories/page.jsx:43-45 | the map's key set is exactly the set of row ids |
| CategoryForest.LastWithId | app/admin/categories/page.jsx:43-45 | the node kept under an id is the last row with that id (`Map.set` overwrites) |
| CategoryForest.IndexRows | app/admin/categories/page.jsx:43-45 | the first pass maps every id to a copy of its row with no children |
| CategoryForest.LinkRows | app/admin/categories/page.jsx:48-57 | the second pass gives each node the ids of its children in row order, and gives the root list the rows with a falsy parent, in row order |
| CategoryForest.BuildForest | components/category-selector.jsx:27-45 | keys are the row ids; each node copies its row and lists its children in row order; the roots are the rows with no parent |
| CategoryForest.NodesCopyRows | app/admin/categories/page.jsx:44 | with unique ids each node is its own row |
| CategoryForest.RootsExactlyOnce | app/admin/categories/page.jsx:54-55 | a row is a root exactly when its parent id is falsy, and no root appears twice |
| CategoryForest.ChildrenExactlyOnce | app/admin/categories/page.jsx:49-53 | a row is among `p`'s children exactly when its parent id is `p`, and no child appears twice |
| CategoryForest.OrphansDropped | app/admin/categories/page.jsx:50-51 | a row whose parent id matches no row is neither a root nor anyone's child |
| CategoryForest.Toggled | app/admin/categories/page.jsx:67-75 | toggling flips membership of the given id and of no other id |
| CategoryForest.ToggleInvolution | components/category-selector.jsx:55-63 | toggling the same id twice restores the set |
| CategoryForest.ToggleShowsChildren | components/category-selector.jsx:66-67 | children are shown only for a node that has children and is expanded; toggling a node flips only its own display |
| AdminCategories.AdminCategoriesPage.FetchCategories | app/admin/categories/page.jsx:31-65 | the admin tree is built from every row, active or not; a failure keeps the old tree |
| AdminCategories.AdminCategoriesPage.ToggleExpanded | app/admin/categories/page.jsx:67-75 | the expanded set becomes the toggled copy, and nothing else changes |
| AdminCategories.AdminCoversInactive | app/admin/categories/page.jsx:34 | every row, inactive ones included, has its own node |
| CategorySelector.Selector.FetchCategories | components/category-selector.jsx:16-53 | the selector's forest is built from the active rows only; every node is active |
| CategorySelector.Selector.ToggleExpanded | components/category-selector.jsx:55-63 | the expanded set becomes the toggled copy |
| CategorySelector.SelectorActiveOnly | components/category-selector.jsx:21 | an inactive category never gets a node |
| CategorySelector.AtMostOneHighlighted | components/category-selector.jsx:68 | the "All" row and a node are never both highlighted, and two highlighted nodes have one id |
| CategorySelector.ChooseAll | components/category-selector.jsx:113 | choosing "All" reports no id and the label "All Categories" |
| CategorySelector.ChooseNode | components/category-selector.jsx:77 | choosing a node reports its id and name |
| CategorySelector.Stored | app/products/page.jsx:61-62 | a reported `null` is kept as the "All" selection, an id as that id |
| CategorySelector.ChoiceHighlights | components/category-selector.jsx:68-113 | once the parent stores a click, choosing "All" highlights the "All" row and no node; choosing a node highlights exactly the nodes of that category and not the "All" row |
| CategoryBreadcrumb.Breadcrumb.OnCategoryId | components/category-breadcrumb.jsx:11-38 | no id, or a failed fetch, keeps the old path; otherwise the root-first path |
| CategoryBreadcrumb.CurrentCrumbIsRequested | components/category-breadcrumb.jsx:56 | on well-formed data, a crumb is styled current exactly when it is the requested category's crumb |
| CategoryBreadcrumb.RendersIffFound | components/category-breadcrumb.jsx:40 | the breadcrumb renders exactly when the requested category is found |
| ProductImages.ListingShowsFirstListed | app/products/page.jsx:73-90 | the products and admin readers show the first URL of the reference list, and the placeholder exactly when it has none |
| ProductImages.HomeShowsOnlyParsedArrays | app/page.js:155-165 | the home reader shows an image only when the field's JSON parses to a non-empty array, and then that array's head |
| ProductImages.PagesAgreeOnEncodedArrays | app/admin/products/page.jsx:84-101 | a JSON-encoded non-empty array shows its head on all three pages |
| ProductImages.PagesDifferOnRawValues | app/page.js:155-165 | a bare URL or a native array of URLs is shown by the listings but replaced by the placeholder on the home page |
| ProductImages.StoredFormsNormalise | app/products/page.jsx:73-90 | in the reference list, a bare URL becomes one URL, and a native array and its JSON text become the same list |
| Catalog.ProductsIn | lib/category-helpers.js:64 | a product is kept exactly when its category id is in the id list |
| Catalog.EmptyTermMatchesAll | app/products/page.jsx:94 | an empty search term matches every product |
| HomePage.Tabs | app/page.js:77-80 | the "All" sentinel comes first, then one tab per fetched row in order |
| HomePage.BuildCategoryHierarchy | app/page.js:109-130 | every fetched id gets an entry, and each entry is that id's descendant list |
| HomePage.EntryFor | app/page.js:33 | a missing entry falls back to `[id]` |
| HomePage.CountsListPositive | app/page.js:24-41 | with no tabs or no products the count list is empty; otherwise a tab is listed with its count exactly when the count is positive |
| HomePage.AllCountsEverything | app/page.js:28-29 | the "All" tab counts every product and is always listed when there are products |
| HomePage.CountMeansSubtree | app/page.js:33-34 | a category tab counts exactly the products in that category or below it |
| HomePage.CategoryNamedAllCountsEverything | app/page.js:28 | a real category named "All" also counts every product |
| HomePage.FindTab | app/page.js:49 | the first tab with the label, or none when no tab has it |
| HomePage.FilteredProductsShape | app/page.js:44-59 | at most 12 products; "All", an unknown label or a found tab without an id gives the first 12 products; a tab with an id gives the first 12 of its products in their original order, as many as the tab counts up to 12 |
| HomePage.HomeCartItem | app/page.js:132-144 | the item has the product's id, name and price, its category name (or "Unknown"), the chosen image and quantity 1 |
| HomePage.CartImageChoice | app/page.js:135 | a non-empty native array gives its first URL (the reference list's first), an empty one gives nothing, and every other field is sent unparsed |
| HomePage.HomeAddedEncodedImageLoads | app/page.js:135 | an item whose image field is JSON text is read back by the cart page as the parsed value |
| HomePage.HomeAddedArrayImageEmptiesCartPage | app/page.js:135 | an item added from the home page with an array of plain URLs makes the cart page load any cart holding it as empty |
| HomePage.HomeIgnoresInactiveChildren | app/page.js:69-73 | for an active root over an inactive child, the child's id is missing from the active-only descendant list and present in the full-table list, so a product of that child is not among the products the home page filters by for the root but is among those the full-table list selects |
| HomePage.ThreeLevelCounts | app/page.js:24-41 | for Stationery > Pens > Gel Pens holding 1, 2 and 3 products, the tabs count 6, 5 and 3 |
| ProductsPage.FetchProducts | app/products/page.jsx:26-59 | no selection gives every product; a selection gives exactly the products in the category or below it; a failure gives nothing new |
| ProductsPage.ListingFilterExact | app/products/page.jsx:93-97 | a product is listed exactly when its name contains the term ignoring case and its price is within both bounds inclusive; fetch order is kept |
| ProductsPage.InsertPermutes | app/products/page.jsx:98-102 | inserting adds exactly one element |
| ProductsPage.InsertSorted | app/products/page.jsx:98-102 | inserting into a sorted list keeps it sorted |
| ProductsPage.SortByPrice | app/products/page.jsx:98-102 | the result is a permutation of the input, sorted by price in the requested direction |
| ProductsPage.FilteredProductsSorted | app/products/page.jsx:92-102 | "price-low" gives ascending prices, "price-high" descending ones, any other key keeps fetch order; always a permutation of the filtered products |
| ProductsPage.WithBound | app/products/page.jsx:67-71 | only the indexed bound changes |
| ProductsPage.Listing.HandlePriceChange | app/products/page.jsx:67-71 | the range becomes the copy with one bound replaced, and nothing else changes |
| ProductsPage.Listing.HandleCategorySelect | app/products/page.jsx:61-65 | the choice is recorded and the filter panel closes |
| ProductsPage.Listing.Refresh | app/products/page.jsx:21-59 | the fetch for the selected category replaces the products, or keeps them on failure |
| ProductsPage.ListingCartItem | app/products/page.jsx:105-112 | the item has the product's id, name and price, the listing image, its category name (or "Unknown") and quantity 1 |
| ProductsPage.ListingAddedUrlEmptiesCartPage | app/products/page.jsx:110 | an item added from the listing whose image text is not JSON makes the cart page load any cart holding it as empty |
| ProductsPage.AddToCart | app/products/page.jsx:114-123 | the stored cart (or `[]`) has the product's item raised by 1 in place, or gets the new item appended |
| ProductsPage.AddToCartEffect | app/products/page.jsx:115-120 | an existing item goes up by exactly 1 with everything else unchanged; a new product is appended with quantity 1; ids stay unique |
| Cart.FindIndex | context/cart-context.jsx:33 | the index of the first item with the id, or -1 when none has it |
| Cart.MergeAddExisting | context/cart-context.jsx:35-42 | adding a product already in the cart adds its quantity to that item in place; every other item stays |
| Cart.MergeAddNew | context/cart-context.jsx:44-46 | adding a new product appends it unchanged |
| Cart.MergeAddKeepsInvariants | context/cart-context.jsx:30-48 | ids stay unique; quantities stay positive when the added quantity is |
| Cart.RemoveId | context/cart-context.jsx:50-52 | exactly the items with other ids remain |
| Cart.RemoveIdKeepsOrder | app/cart/page.jsx:39-41 | removal keeps the remaining items in order |
| Cart.RemoveIdKeepsInvariants | context/cart-context.jsx:50-52 | removal keeps ids unique and quantities positive |
| Cart.AtLeastOne | context/cart-context.jsx:56 | `Math.max(1, q)` is at least 1 and leaves a positive quantity unchanged |
| Cart.SetQuantityEffect | context/cart-context.jsx:54-58 | the matching items get `max(1, q)`, every other item is unchanged, positions and invariants stay |
| Cart.TotalAppend | context/cart-context.jsx:65-67 | the total of a concatenation is the sum of the totals |
| Cart.TotalAfterAddAt | context/cart-context.jsx:35-42 | adding a product already in the cart raises the total by the added quantity at the stored item's price |
| Cart.TotalAfterAddNew | context/cart-context.jsx:44-46 | adding a new product raises the total by its own price times its quantity |
| Cart.TotalSplits | app/cart/page.jsx:39-41 | the old total is the kept items' total plus the removed items' total |
| Cart.TotalAfterSetQuantity | app/cart/page.jsx:43-47 | updating one item swaps its subtotal for the subtotal at the clamped quantity |
| Cart.LoadImages | app/cart/page.jsx:18-21 | the load fails exactly when some image string fails to parse; otherwise each item keeps everything but its parsed image |
| Cart.PlainUrlImageFailsLoad | app/cart/page.jsx:18-26 | one bare-URL image empties the whole loaded cart |
| CartContext.CartProvider.Save | context/cart-context.jsx:24-28 | only a non-empty cart is written |
| CartContext.CartProvider.Load | context/cart-context.jsx:11-21 | a stored cart replaces the state, and the save that follows stores a non-empty state and otherwise leaves storage as it was |
| CartContext.CartProvider.AddToCart | context/cart-context.jsx:30-48 | the state becomes the merged cart, which is stored; the invariants are kept |
| CartContext.CartProvider.RemoveFromCart | context/cart-context.jsx:50-52 | the state loses exactly that id; an emptied cart leaves the old stored copy |
| CartContext.CartProvider.UpdateQuantity | context/cart-context.jsx:54-58 | the state gets the clamped quantity; the invariants are kept |
| CartContext.CartProvider.ClearCart | context/cart-context.jsx:60-63 | the state and the storage entry are both emptied |
| CartContext.StaleCopyAfterLastRemoval | context/cart-context.jsx:24-28 | removing the only item of a stored one-item cart empties the state and leaves that item in storage |
| CartPage.CartPageState.Persist | app/cart/page.jsx:31-37 | a non-empty cart is stored; an empty one removes the entry |
| CartPage.CartPageState.Mount | app/cart/page.jsx:14-28 | the stored cart is loaded with parsed images, or is empty when any parse fails |
| CartPage.CartPageState.RemoveFromCart | app/cart/page.jsx:39-41 | that id leaves, and storage follows the persist rule |
| CartPage.CartPageState.UpdateQuantity | app/cart/page.jsx:43-47 | the clamped quantity is set, and storage follows the persist rule |
| CartPage.CartPageState.ClearCart | app/cart/page.jsx:49-52 | the state and the entry are emptied |
| CartPage.CartPageState.HandleCheckout | app/cart/page.jsx:58-81 | an empty cart does nothing; a non-empty one opens the chat and is then cleared |
| CartPage.InputSetsQuantity | app/cart/page.jsx:166 | the quantity field sets the typed number when it is at least 1, and 1 otherwise |
| CartPage.DecrementStaysPositive | app/cart/page.jsx:157-158 | an enabled minus button lowers the quantity by exactly one, never below 1 |
| AdminProducts.AdminFilterExact | app/admin/products/page.jsx:103-107 | a product is shown exactly when its name matches ignoring case and either no category is chosen or its category name equals the choice; order kept; at most the total (437-438) |
| AdminProducts.ClearedFiltersShowAll | app/admin/products/page.jsx:227-232 | with both filters cleared every product is shown |
| AdminProducts.StockBadge | app/admin/products/page.jsx:316-320 | green above 10, yellow from 1 to 10, red otherwise |
| AdminProducts.InStockIsNonRed | app/admin/products/page.jsx:165 | the "In Stock" figure counts exactly the products whose badge is not red |
| AdminProducts.AdminProductsPage.DeleteProduct | app/admin/products/page.jsx:72-82 | after a confirmed and successful delete, the products with that id leave the list; otherwise nothing changes |
| AdminProducts.AdminProductsPage.FetchCategories | app/admin/products/page.jsx:57-70 | the category list holds the active rows (the "Categories" figure, 176) |
| AdminProducts.AdminProductsPage.FetchProducts | app/admin/products/page.jsx:38-55 | the fetched products replace the list, or it is kept on failure |
| AdminProducts.AdminProductsPage.ClearFilters | app/admin/products/page.jsx:229-232 | both filters are emptied |
| AdminProducts.DeleteRemovesOnlyThatId | app/admin/products/page.jsx:78 | exactly the products with other ids remain, in order |
| NewProduct.WithoutIndex | app/admin/products/new/page.jsx:87-90 | the entry at the index is dropped and the rest keep their order; an index outside the list drops nothing |
| NewProduct.PreviewsOf | app/admin/products/new/page.jsx:50-61 | a preview is made for exactly the image files of at most 5 MB, in order |
| NewProduct.NewProductForm.HandleImageChange | app/admin/products/new/page.jsx:39-85 | every chosen file is appended to the images; previews are appended for admitted files only |
| NewProduct.NewProductForm.RemoveImage | app/admin/products/new/page.jsx:87-90 | the same index leaves both lists |
| NewProduct.NewProductForm.HandleSubmit | app/admin/products/new/page.jsx:92-144 | a missing name, price, quantity or category fails with "Please fill in all required fields"; every upload must succeed before the insert; the inserted row carries the URLs in image order |
| NewProduct.UploadAllSucceeds | app/admin/products/new/page.jsx:103-119 | the uploads succeed exactly when every file uploads, giving one URL per file in file order |
| NewProduct.UploadAllFailsAtFirst | app/admin/products/new/page.jsx:112-114 | a failure reports the first failing file's message, and every earlier file was uploaded |
| NewProduct.UploadFailureSticks | app/admin/products/new/page.jsx:114 | once an upload fails, the later files do not change the outcome |
| NewProduct.ErrorText | app/admin/products/new/page.jsx:140 | the shown error is never empty, and it is the error's own message when there is one |
| NewProduct.RemoveKeepsAlignmentWhenAllAdmitted | app/admin/products/new/page.jsx:87-90 | when every file got a preview, removal keeps each preview beside its file |
| NewProduct.RemoveAfterRejectedFileMisaligns | app/admin/products/new/page.jsx:47-61 | after a rejected file, removing the only preview tile removes the rejected file, leaving an admitted file with no preview |

## Left out

- The database, auth and object-store services are not modelled. A failed query, delete, upload or insert is a boolean or a `Result` parameter. The auth check and its redirect to the login page are left out, and so is `router.push` after an insert.
- A query that returns an error without throwing is not modelled as such. The category walk and `getChildren` read only `data`, so in the source such an error reads as "row not found" or "no children": the walk stops with the rows found so far, and the descendant list is partial. The model's failure parameters stand only for the errors that reach a `catch` or an explicit `error` check.
- The descendant, count and product-list contracts assume unique ids (`UniqueIds`), which the primary key guarantees. The upward walk needs only `Ranked`: `Lookup` follows `.single()` for any table, so a duplicated id stops the walk (`CategoryData.LookupRejectsDuplicates`).
- An id of 0 is not treated as falsy: category and product ids are assumed non-zero, as the tables' serial keys are. Only a falsy parent id or start id is `None`.
- Parent cycles are out of scope. `Ranked` (parent level below child level) is a precondition, because the source's `while` loop and recursion never stop on a cycle.
- Browser effects are opaque: `localStorage` serialisation, `FileReader`, `window.open`, `confirm` and `alert`, and the checkout's `setTimeout`. Storage holds the item list itself. The user's answer to `confirm` is a parameter.
- File previews are modelled as synchronous and in file order. The real `FileReader` callbacks finish asynchronously, in any order, and may fail.
- The WhatsApp checkout message is not modelled: its text, `toFixed` and `encodeURIComponent` are formatting only.
- Upload file names built from `Math.random` are left out, because they are random.
- `Number.parseInt` and `Number.parseFloat` are reduced to their results. A parsed number is passed in as `Option<int>`, with `None` for NaN. The new-product row keeps the entered price and quantity as text.
- Prices are real numbers, not IEEE doubles, so rounding in totals and comparator results is not modelled.
- `toLowerCase` is ASCII-only; Unicode case mapping is not modelled.
- Image arrays hold strings only. A field holding a non-array object or another JSON value is `Other`. For such a field the listing readers' JavaScript would return the object itself, but the model shows the placeholder.
- The home page's "category" of a product is its `category_id`. A product without a category id is outside the model.
- `ProductsPage.SortByPrice`: JavaScript's `sort` is stable. The model's insertion sort is stable too, but stability is not stated as a lemma.
- Loading flags, toasts, the `useMemo` and `useCallback` caching and all JSX rendering are left out. `HomePage.FilteredProducts` and `HomePage.CategoriesWithCounts` are the memoised values themselves.
- `deleteCategory` and the category edit forms are not part of this model. The same goes for the product edit page, authentication pages, navigation bar polling and static pages.
