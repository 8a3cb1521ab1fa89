/** The breadcrumb component: its `categoryPath` state, the effect that refills it when
    the `categoryId` prop changes, and what it renders. */
module CategoryBreadcrumb {
  import opened Wrappers
  import opened CategoryData
  import opened Ancestry

  class Breadcrumb {
    var categoryPath: seq<Category>

    /** `useState([])`. */
    constructor()
      ensures categoryPath == []
    {
      categoryPath := [];
    }

    /** The effect on a new `categoryId`: no walk for a falsy id; otherwise the root-first
        path replaces the state, unless a query throws, when the state is kept. */
    method OnCategoryId(cats: seq<Category>, categoryId: Option<Id>, storeFails: bool)
      requires Ranked(cats)
      modifies this
      ensures categoryId.None? || storeFails ==> categoryPath == old(categoryPath)
      ensures categoryId.Some? && !storeFails ==> categoryPath == PathTo(cats, categoryId)
    {
      if categoryId.Some? && !storeFails {
        var path := WalkToRoot(cats, categoryId.value);
        categoryPath := path;
      }
    }

    /** `categoryPath.length === 0` renders nothing. */
    predicate Renders()
      reads this
    {
      |categoryPath| > 0
    }
  }

  /** The crumb at `index` gets the "current" style. */
  predicate IsCurrentCrumb(path: seq<Category>, index: int) {
    index == |path| - 1
  }

  /** On well-formed data the crumb marked current is exactly the crumb of the requested
      category: no other crumb on the path carries its id. */
  lemma {:induction false} CurrentCrumbIsRequested(cats: seq<Category>, start: Id, index: int)
    requires WellFormed(cats)
    requires var path := PathTo(cats, Some(start)); 0 <= index < |path|
    ensures var path := PathTo(cats, Some(start));
      IsCurrentCrumb(path, index) <==> path[index].id == start
  {
    var path := PathTo(cats, Some(start));
    PathEndsAtStartOf(cats, Some(start));
    PathLinked(cats, Some(start));
    PathLevelsIncrease(cats, Some(start));
    var last := path[|path| - 1];
    if index < |path| - 1 {
      assert path[index].level < last.level;
      assert path[index] in cats && last in cats;
      DistinctRowsDistinctIds(cats, path[index], last);
    }
  }

  /** A table miss renders nothing; a found category renders. */
  lemma RendersIffFound(cats: seq<Category>, start: Id)
    requires Ranked(cats)
    ensures PathTo(cats, Some(start)) != [] <==> Lookup(cats, start).Some?
  {
  }
}
