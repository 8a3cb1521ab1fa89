/** The admin category page: the whole table as a forest (no `is_active` filter) and
    the set of expanded node ids. */
module AdminCategories {
  import opened Wrappers
  import opened CategoryData
  import opened CategoryForest

  class AdminCategoriesPage {
    var nodes: map<Id, Node>
    var roots: seq<Id>
    var expanded: set<Id>
    var loading: bool

    constructor()
      ensures nodes == map[] && roots == [] && expanded == {} && loading
    {
      nodes := map[];
      roots := [];
      expanded := {};
      loading := true;
    }

    /** `fetchCategories` on the rows the query returns (every row, in level and sort
        order): on success the forest of all of them; on a failing query the old forest
        stays. Loading ends either way. */
    method FetchCategories(rows: seq<Category>, storeFails: bool)
      modifies this
      ensures !loading && expanded == old(expanded)
      ensures storeFails ==> nodes == old(nodes) && roots == old(roots)
      ensures !storeFails ==>
        nodes.Keys == IdSet(rows) &&
        (forall k :: k in nodes ==>
          nodes[k].category == LastWithId(rows, k) && nodes[k].children == ChildIds(rows, k)) &&
        roots == RootIds(rows)
    {
      loading := true;
      if !storeFails {
        var built, top := BuildForest(rows);
        nodes := built;
        roots := top;
      }
      loading := false;
    }

    /** `toggleExpanded`. */
    method ToggleExpanded(categoryId: Id)
      modifies this
      ensures expanded == Toggled(old(expanded), categoryId)
      ensures nodes == old(nodes) && roots == old(roots) && loading == old(loading)
    {
      var newExpanded := expanded;
      if categoryId in newExpanded {
        newExpanded := newExpanded - {categoryId};
      } else {
        newExpanded := newExpanded + {categoryId};
      }
      expanded := newExpanded;
    }
  }

  /** Inactive rows are part of the admin forest: every row of the table has a node. */
  lemma AdminCoversInactive(rows: seq<Category>, c: Category)
    requires UniqueIds(rows) && c in rows
    ensures c.id in IdSet(rows) && LastWithId(rows, c.id) == c
  {
    NodesCopyRows(rows, c);
  }
}
