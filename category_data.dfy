/** Category records as the category table returns them, and the two lookups every
    page performs on that table: "fetch by id" and "fetch children". */
module CategoryData {
  import opened Wrappers
  import opened Seqs

  type Id = int

  /** One row of the category table. A null, undefined or otherwise falsy
      `parent_id` is `None`; so is a root's. */
  datatype Category = Category(
    id: Id,
    name: string,
    parentId: Option<Id>,
    level: int,
    sortOrder: int,
    isActive: bool)

  /** `id` is the table's primary key. */
  ghost predicate UniqueIds(cats: seq<Category>) {
    forall i, j :: 0 <= i < |cats| && 0 <= j < |cats| && cats[i].id == cats[j].id ==> i == j
  }

  /** Acyclic parent links, witnessed by the stored `level`: a parent row sits at a
      strictly lower level than each of its children. (The stored levels are even
      parent level + 1; nothing here needs more than "lower".) */
  ghost predicate Ranked(cats: seq<Category>) {
    forall p, c :: p in cats && c in cats && c.parentId == Some(p.id) ==> p.level < c.level
  }

  ghost predicate WellFormed(cats: seq<Category>) {
    UniqueIds(cats) && Ranked(cats)
  }

  /** The ids of the rows, in order (`data.map(c => c.id)`). */
  function IdsOf(cats: seq<Category>): (r: seq<Id>)
    ensures |r| == |cats|
    ensures forall i :: 0 <= i < |cats| ==> r[i] == cats[i].id
  {
    seq(|cats|, i requires 0 <= i < |cats| => cats[i].id)
  }

  /** The rows `.eq("id", id)` selects, in table order. */
  function WithId(cats: seq<Category>, id: Id): (r: seq<Category>)
    ensures forall c :: c in r <==> c in cats && c.id == id
  {
    Filter(cats, (c: Category) => c.id == id)
  }

  /** "Fetch by id" (`.eq("id", id).single()`): the row when exactly one row has that
      id; no row or several rows make `.single()` report an error with null data. */
  function Lookup(cats: seq<Category>, id: Id): (r: Option<Category>)
    ensures r.Some? ==> r.value in cats && r.value.id == id
    ensures r.Some? ==> forall c :: c in cats && c.id == id ==> c == r.value
    ensures r.None? ==> |WithId(cats, id)| != 1
  {
    var rows := WithId(cats, id);
    if |rows| == 1 then Some(rows[0]) else None
  }

  /** A primary key never repeats a row. */
  lemma UniqueIdsDistinct(cats: seq<Category>)
    requires UniqueIds(cats)
    ensures Distinct(cats)
  {
    forall i, j | 0 <= i < |cats| && 0 <= j < |cats| && cats[i] == cats[j] ensures i == j {
      assert cats[i].id == cats[j].id;
    }
  }

  /** With unique ids, looking up a row's id finds that very row. */
  lemma LookupFinds(cats: seq<Category>, c: Category)
    requires UniqueIds(cats)
    requires c in cats
    ensures Lookup(cats, c.id) == Some(c)
  {
    var rows := WithId(cats, c.id);
    UniqueIdsDistinct(cats);
    FilterDistinct(cats, (x: Category) => x.id == c.id);
    forall x | x in rows ensures x in [c] {
      var a :| 0 <= a < |cats| && cats[a] == x;
      var b :| 0 <= b < |cats| && cats[b] == c;
    }
    DistinctWithinLength(rows, [c]);
    assert c in rows;
  }

  /** With unique ids, a lookup misses exactly when no row has the id. */
  lemma LookupMisses(cats: seq<Category>, id: Id)
    requires UniqueIds(cats)
    ensures Lookup(cats, id).None? <==> forall c :: c in cats ==> c.id != id
  {
    if c :| c in cats && c.id == id {
      LookupFinds(cats, c);
    }
  }

  /** Two rows with the same id make the lookup fail, as `.single()` does. */
  lemma LookupRejectsDuplicates(cats: seq<Category>, i: nat, j: nat)
    requires i < j < |cats| && cats[i].id == cats[j].id
    ensures Lookup(cats, cats[i].id).None?
  {
    FilterKeepsTwo(cats, (c: Category) => c.id == cats[i].id, i, j);
  }

  /** "Fetch children" (`cat.parent_id === id`): the rows whose parent is `id`, in table order. */
  function Children(cats: seq<Category>, id: Id): (r: seq<Category>)
    ensures forall c :: c in r <==> c in cats && c.parentId == Some(id)
  {
    Filter(cats, (c: Category) => c.parentId == Some(id))
  }

  /** `data.filter(c => c.is_active)`: the rows a query with `.eq("is_active", true)` returns. */
  function ActiveOnly(cats: seq<Category>): (r: seq<Category>)
    ensures forall c :: c in r <==> c in cats && c.isActive
  {
    Filter(cats, (c: Category) => c.isActive)
  }

  /** Dropping rows keeps the table well formed. */
  lemma ActiveOnlyWellFormed(cats: seq<Category>)
    requires WellFormed(cats)
    ensures WellFormed(ActiveOnly(cats))
  {
    var r := ActiveOnly(cats);
    UniqueIdsDistinct(cats);
    FilterDistinct(cats, (c: Category) => c.isActive);
    forall i, j | 0 <= i < |r| && 0 <= j < |r| && r[i].id == r[j].id ensures i == j {
      assert r[i] in cats && r[j] in cats;
      var a :| 0 <= a < |cats| && cats[a] == r[i];
      var b :| 0 <= b < |cats| && cats[b] == r[j];
      assert a == b;
    }
  }

  function MaxLevel(cats: seq<Category>): (r: int)
    ensures forall c :: c in cats ==> c.level <= r
    ensures cats == [] ==> r == 0
  {
    if cats == [] then 0
    else var m := MaxLevel(cats[1..]);
    if |cats| == 1 || cats[0].level > m then cats[0].level else m
  }

  function MinLevel(cats: seq<Category>): (r: int)
    ensures forall c :: c in cats ==> r <= c.level
    ensures cats == [] ==> r == 0
  {
    if cats == [] then 0
    else var m := MinLevel(cats[1..]);
    if |cats| == 1 || cats[0].level < m then cats[0].level else m
  }

  /** How many levels separate `id` from the deepest row: the measure on which the
      downward recursions terminate. An id without a row counts as lying just above
      the shallowest row. */
  function Height(cats: seq<Category>, id: Id): nat
  {
    match Lookup(cats, id)
    case Some(c) => MaxLevel(cats) - c.level
    case None =>
      if cats == [] then 1 else
      assert MinLevel(cats) <= cats[0].level <= MaxLevel(cats);
      MaxLevel(cats) - MinLevel(cats) + 1
  }

  /** Every child of `id` is strictly closer to the bottom than `id` itself. */
  lemma ChildIsLower(cats: seq<Category>, id: Id, k: Category)
    requires WellFormed(cats)
    requires k in cats && k.parentId == Some(id)
    ensures Height(cats, k.id) < Height(cats, id)
  {
    LookupFinds(cats, k);
  }

  /** With unique ids, two different rows never share an id. */
  lemma DistinctRowsDistinctIds(cats: seq<Category>, a: Category, b: Category)
    requires UniqueIds(cats) && a in cats && b in cats && a != b
    ensures a.id != b.id
  {
    var i :| 0 <= i < |cats| && cats[i] == a;
    var j :| 0 <= j < |cats| && cats[j] == b;
  }
}
