/** The category selector component: a forest of the active categories, its expanded
    set, the highlighted row and what a click reports. */
module CategorySelector {
  import opened Wrappers
  import opened Seqs
  import opened CategoryData
  import opened CategoryForest

  /** The `selectedCategoryId` prop: `null`, a category id, or another value such as
      `undefined` or the empty string, which matches neither `null` nor any id. */
  datatype Selection = NullSelection | IdSelection(id: Id) | Unset

  class Selector {
    var nodes: map<Id, Node>
    var roots: seq<Id>
    var expanded: set<Id>
    var loading: bool

    constructor()
      ensures nodes == map[] && roots == [] && expanded == {} && loading
    {
      nodes := map[];
      roots := [];
      expanded := {};
      loading := true;
    }

    /** `fetchCategories`: the query keeps only active rows (in level and sort order),
        then the two-pass build runs on them; a failing query keeps the old forest. */
    method FetchCategories(table: seq<Category>, storeFails: bool)
      modifies this
      ensures !loading && expanded == old(expanded)
      ensures storeFails ==> nodes == old(nodes) && roots == old(roots)
      ensures !storeFails ==>
        nodes.Keys == IdSet(ActiveOnly(table)) &&
        (forall k :: k in nodes ==>
          nodes[k].category == LastWithId(ActiveOnly(table), k) &&
          nodes[k].category.isActive &&
          nodes[k].children == ChildIds(ActiveOnly(table), k)) &&
        roots == RootIds(ActiveOnly(table))
    {
      if !storeFails {
        var data := ActiveOnly(table);
        var built, top := BuildForest(data);
        nodes := built;
        roots := top;
      }
      loading := false;
    }

    /** `toggleExpanded`. */
    method ToggleExpanded(categoryId: Id)
      modifies this
      ensures expanded == Toggled(old(expanded), categoryId)
      ensures nodes == old(nodes) && roots == old(roots) && loading == old(loading)
    {
      var newExpanded := expanded;
      if categoryId in newExpanded {
        newExpanded := newExpanded - {categoryId};
      } else {
        newExpanded := newExpanded + {categoryId};
      }
      expanded := newExpanded;
    }
  }

  /** `selectedCategoryId === category.id`. */
  predicate IsSelected(selected: Selection, node: Node) {
    selected == IdSelection(node.category.id)
  }

  /** `selectedCategoryId === null`: the "All Categories" row is highlighted. */
  predicate AllSelected(selected: Selection) {
    selected == NullSelection
  }

  /** At most one row is highlighted: never the "All" row together with a node, never
      two nodes of different categories, and nothing for an unset selection. */
  lemma AtMostOneHighlighted(selected: Selection, a: Node, b: Node)
    ensures AllSelected(selected) ==> !IsSelected(selected, a)
    ensures IsSelected(selected, a) && IsSelected(selected, b) ==> a.category.id == b.category.id
    ensures selected == Unset ==> !AllSelected(selected) && !IsSelected(selected, a)
  {
  }

  /** What `onCategorySelect` receives: the "All" row reports no id and the label
      "All Categories"; a node reports its own id and name. */
  function ChooseAll(): (r: (Option<Id>, string))
    ensures r.0.None? && r.1 == "All Categories"
  {
    (None, "All Categories")
  }

  function ChooseNode(node: Node): (r: (Option<Id>, string))
    ensures r.0 == Some(node.category.id) && r.1 == node.category.name
  {
    (Some(node.category.id), node.category.name)
  }

  /** How a parent page keeps the reported id and passes it back as
      `selectedCategoryId` (`setSelectedCategoryId(categoryId)`,
      `setCategoryId(id)`): no id becomes `null`, an id stays that id. */
  function Stored(reported: Option<Id>): (r: Selection)
    ensures reported.None? ==> AllSelected(r)
    ensures reported.Some? ==> r.IdSelection? && r.id == reported.value
  {
    match reported
    case None => NullSelection
    case Some(id) => IdSelection(id)
  }

  /** A click, stored by the parent and rendered again, highlights exactly what was
      clicked: choosing "All" highlights the "All" row and no node; choosing a node
      highlights that node, every node of the same category and nothing else. */
  lemma ChoiceHighlights(node: Node, other: Node)
    ensures AllSelected(Stored(ChooseAll().0)) && !IsSelected(Stored(ChooseAll().0), other)
    ensures !AllSelected(Stored(ChooseNode(node).0))
    ensures IsSelected(Stored(ChooseNode(node).0), other) <==> other.category.id == node.category.id
  {
  }

  /** The selector's forest never holds an inactive category. */
  lemma SelectorActiveOnly(table: seq<Category>, c: Category)
    requires UniqueIds(table) && c in table && !c.isActive
    ensures c.id !in IdSet(ActiveOnly(table))
  {
    forall r | r in ActiveOnly(table) ensures r.id != c.id {
      DistinctRowsDistinctIds(table, r, c);
    }
  }
}
