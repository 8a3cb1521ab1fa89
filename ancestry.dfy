/** The upward walk from a category to its root, shared by the category helper
    library and the breadcrumb: look the current id up, put the row in front of the
    path, continue with its parent, stop at a null parent or a row that is not found. */
module Ancestry {
  import opened Wrappers
  import opened Seqs
  import opened Text
  import opened CategoryData

  /** How many more rows the walk can still find from `current`. */
  function PathMeasure(cats: seq<Category>, current: Option<Id>): nat
    requires Ranked(cats)
  {
    match current
    case None => 0
    case Some(id) =>
      match Lookup(cats, id)
      case None => 0
      case Some(c) => c.level - MinLevel(cats) + 1
  }

  /** The root-first path that ends at `current`'s row. */
  function PathTo(cats: seq<Category>, current: Option<Id>): seq<Category>
    requires Ranked(cats)
    decreases PathMeasure(cats, current)
  {
    match current
    case None => []
    case Some(id) =>
      match Lookup(cats, id)
      case None => []
      case Some(c) => PathTo(cats, c.parentId) + [c]
  }

  /** The `while (currentId)` loop with `path.unshift(category)`. */
  method WalkToRoot(cats: seq<Category>, start: Id) returns (path: seq<Category>)
    requires Ranked(cats)
    ensures path == PathTo(cats, Some(start))
  {
    path := [];
    var currentId: Option<Id> := Some(start);
    while currentId.Some?
      invariant PathTo(cats, currentId) + path == PathTo(cats, Some(start))
      decreases PathMeasure(cats, currentId)
    {
      var category := Lookup(cats, currentId.value);
      if category.Some? {
        path := [category.value] + path;
        currentId := category.value.parentId;
      } else {
        break;
      }
    }
  }

  /** The path is empty exactly when the starting row is not found, and otherwise ends
      with that row. */
  lemma PathEndsAtStart(cats: seq<Category>, start: Id)
    requires Ranked(cats)
    ensures var path := PathTo(cats, Some(start));
      (path == [] <==> Lookup(cats, start).None?) &&
      (path != [] ==> path[|path| - 1] == Lookup(cats, start).value)
  {
  }

  /** Every row on the path is a row of the table, and each row's parent is the row
      placed just before it; the first row is a root or has a parent that is not found. */
  lemma {:induction false} PathLinked(cats: seq<Category>, current: Option<Id>)
    requires Ranked(cats)
    ensures var path := PathTo(cats, current);
      (forall c :: c in path ==> c in cats) &&
      (forall i :: 0 < i < |path| ==> path[i].parentId == Some(path[i - 1].id)) &&
      (path != [] ==> path[0].parentId.None? || Lookup(cats, path[0].parentId.value).None?)
    decreases PathMeasure(cats, current)
  {
    if current.Some? && Lookup(cats, current.value).Some? {
      var c := Lookup(cats, current.value).value;
      var up := PathTo(cats, c.parentId);
      PathLinked(cats, c.parentId);
      var path := up + [c];
      assert PathTo(cats, current) == path;
      if up != [] {
        PathEndsAtStartOf(cats, c.parentId);
        assert path[0] == up[0];
      }
      forall i | 0 < i < |path| ensures path[i].parentId == Some(path[i - 1].id) {
        if i == |path| - 1 {
          PathEndsAtStartOf(cats, c.parentId);
        } else {
          assert path[i] == up[i] && path[i - 1] == up[i - 1];
        }
      }
    }
  }

  lemma PathEndsAtStartOf(cats: seq<Category>, current: Option<Id>)
    requires Ranked(cats)
    ensures var path := PathTo(cats, current);
      path != [] ==> current.Some? && path[|path| - 1] == Lookup(cats, current.value).value
  {
  }

  /** Levels strictly increase along the path. */
  lemma {:induction false} PathLevelsIncrease(cats: seq<Category>, current: Option<Id>)
    requires Ranked(cats)
    ensures var path := PathTo(cats, current);
      forall i, j :: 0 <= i < j < |path| ==> path[i].level < path[j].level
  {
    var path := PathTo(cats, current);
    PathLinked(cats, current);
    forall i | 0 < i < |path| ensures path[i - 1].level < path[i].level {
      assert path[i - 1] in path && path[i] in path;
    }
    forall i, j | 0 <= i < j < |path| ensures path[i].level < path[j].level {
      StepsIncrease(path, i, j);
    }
  }

  lemma {:induction false} StepsIncrease(path: seq<Category>, i: nat, j: nat)
    requires i < j < |path|
    requires forall k :: 0 < k < |path| ==> path[k - 1].level < path[k].level
    ensures path[i].level < path[j].level
    decreases j - i
  {
    if i + 1 < j {
      StepsIncrease(path, i + 1, j);
    }
  }

  /** On acyclic data the walk visits each row at most once, so the path is never longer
      than the table. */
  lemma PathBoundedByTable(cats: seq<Category>, current: Option<Id>)
    requires Ranked(cats)
    ensures |PathTo(cats, current)| <= |cats|
  {
    var path := PathTo(cats, current);
    PathLinked(cats, current);
    PathLevelsIncrease(cats, current);
    assert Distinct(path) by {
      forall i, j | 0 <= i < |path| && 0 <= j < |path| && i != j ensures path[i] != path[j] {
        if i < j {
          assert path[i].level < path[j].level;
        } else {
          assert path[j].level < path[i].level;
        }
      }
    }
    DistinctWithinLength(path, cats);
  }

  /** `formatCategoryPath`: the names joined with " > ". */
  function FormatCategoryPath(path: seq<Category>): string {
    Join(seq(|path|, i requires 0 <= i < |path| => path[i].name), " > ")
  }

  /** An empty path formats as "", and a category's formatted path is its parent's
      formatted path followed by " > " and its own name (just its name at a root). */
  lemma FormatExtendsParent(cats: seq<Category>, c: Category)
    requires Ranked(cats)
    requires Lookup(cats, c.id) == Some(c)
    ensures FormatCategoryPath([]) == ""
    ensures var up := PathTo(cats, c.parentId);
      FormatCategoryPath(PathTo(cats, Some(c.id))) ==
        if up == [] then c.name else FormatCategoryPath(up) + " > " + c.name
  {
    var up := PathTo(cats, c.parentId);
    var path := up + [c];
    assert PathTo(cats, Some(c.id)) == path;
    var names := seq(|path|, i requires 0 <= i < |path| => path[i].name);
    var upNames := seq(|up|, i requires 0 <= i < |up| => up[i].name);
    assert names == upNames + [c.name];
    if up != [] {
      JoinSnoc(upNames, c.name, " > ");
    }
  }
}
