/** The two-pass forest build shared by the admin category page and the category
    selector (`fetchCategories`), and their expanded-set toggle (`toggleExpanded`).
    A node's `children` holds ids rather than nodes: the source pushes the very node
    objects kept in its map, so a child reached through its parent is the map's node
    for that id. */
module CategoryForest {
  import opened Wrappers
  import opened Seqs
  import opened CategoryData

  /** `{ ...cat, children: [] }`, with the children it later receives. */
  datatype Node = Node(category: Category, children: seq<Id>)

  predicate IsRoot(c: Category) {
    c.parentId.None?
  }

  /** The ids that occur in `cats`. */
  function IdSet(cats: seq<Category>): (r: set<Id>)
    ensures forall x :: x in r <==> exists c :: c in cats && c.id == x
  {
    set c | c in cats :: c.id
  }

  /** The row a `Map.set` per row leaves behind for `id`: the last one carrying it. */
  function LastWithId(cats: seq<Category>, id: Id): (r: Category)
    requires id in IdSet(cats)
    ensures r in cats && r.id == id
  {
    var last := cats[|cats| - 1];
    if last.id == id then last
    else
      assert forall c :: c in cats && c != last ==> c in cats[..|cats| - 1] by {
        assert cats == cats[..|cats| - 1] + [last];
      }
      LastWithId(cats[..|cats| - 1], id)
  }

  /** With unique ids that row is the only row with the id. */
  lemma LastWithIdUnique(cats: seq<Category>, c: Category)
    requires UniqueIds(cats) && c in cats
    ensures LastWithId(cats, c.id) == c
  {
    var r := LastWithId(cats, c.id);
    var i :| 0 <= i < |cats| && cats[i] == r;
    var j :| 0 <= j < |cats| && cats[j] == c;
  }

  /** `ids` of a sequence with one more row. */
  lemma IdsOfSnoc(cats: seq<Category>, c: Category)
    ensures IdsOf(cats + [c]) == IdsOf(cats) + [c.id]
  {
    assert forall i :: 0 <= i < |cats| + 1 ==> IdsOf(cats + [c])[i] == (IdsOf(cats) + [c.id])[i];
  }

  /** With unique ids, the ids of any filtered part of the table are pairwise distinct. */
  lemma {:induction false} FilteredIdsDistinct(cats: seq<Category>, keep: Category -> bool)
    requires UniqueIds(cats)
    ensures Distinct(IdsOf(Filter(cats, keep)))
  {
    if cats != [] {
      var tail := cats[1..];
      assert UniqueIds(tail) by {
        forall i, j | 0 <= i < |tail| && 0 <= j < |tail| && tail[i].id == tail[j].id
          ensures i == j
        {
          assert cats[i + 1].id == cats[j + 1].id;
        }
      }
      FilteredIdsDistinct(tail, keep);
      var rest := IdsOf(Filter(tail, keep));
      if keep(cats[0]) {
        var r := IdsOf(Filter(cats, keep));
        assert Filter(cats, keep) == [cats[0]] + Filter(tail, keep);
        forall k | 0 <= k < |rest| ensures rest[k] != cats[0].id {
          var f := Filter(tail, keep)[k];
          assert f in tail;
          var m :| 0 <= m < |tail| && tail[m] == f;
          assert cats[m + 1] == f;
        }
        forall i, j | 0 <= i < |r| && 0 <= j < |r| && i != j ensures r[i] != r[j] {
          if i > 0 && j > 0 {
            assert r[i] == rest[i - 1] && r[j] == rest[j - 1];
          } else if i == 0 {
            assert r[j] == rest[j - 1];
          } else {
            assert r[i] == rest[i - 1];
          }
        }
      } else {
        assert Filter(cats, keep) == Filter(tail, keep);
      }
    }
  }

  /** The child ids the second pass attaches to `id`: every row whose parent is `id`, in
      input order. */
  function ChildIds(cats: seq<Category>, id: Id): seq<Id> {
    IdsOf(Children(cats, id))
  }

  /** The root list the second pass builds: every row with a falsy parent, in order. */
  function RootIds(cats: seq<Category>): seq<Id> {
    IdsOf(Filter(cats, IsRoot))
  }

  /** The ids of a sequence of rows are exactly the rows' ids. */
  lemma IdsOfMembers(rows: seq<Category>)
    ensures forall x :: x in IdsOf(rows) <==> exists c :: c in rows && c.id == x
  {
    forall x | x in IdsOf(rows) ensures exists c :: c in rows && c.id == x {
      var i :| 0 <= i < |rows| && IdsOf(rows)[i] == x;
      assert rows[i] in rows;
    }
    forall c | c in rows ensures c.id in IdsOf(rows) {
      var i :| 0 <= i < |rows| && rows[i] == c;
      assert IdsOf(rows)[i] == c.id;
    }
  }

  /** A node's child list names exactly the rows whose parent is that node. */
  lemma ChildIdsMembers(cats: seq<Category>, id: Id)
    ensures forall x :: x in ChildIds(cats, id) <==>
      exists c :: c in cats && c.parentId == Some(id) && c.id == x
  {
    IdsOfMembers(Children(cats, id));
  }

  /** The root list names exactly the rows with a falsy parent. */
  lemma RootIdsMembers(cats: seq<Category>)
    ensures forall x :: x in RootIds(cats) <==> exists c :: c in cats && IsRoot(c) && c.id == x
  {
    IdsOfMembers(Filter(cats, IsRoot));
  }

  /** One more row, as the first pass sees it. */
  lemma IndexSnoc(cats: seq<Category>, c: Category, k: Id)
    ensures IdSet(cats + [c]) == IdSet(cats) + {c.id}
    ensures k in IdSet(cats + [c]) ==>
      LastWithId(cats + [c], k) == if c.id == k then c else LastWithId(cats, k)
  {
    assert (cats + [c])[..|cats|] == cats;
  }

  /** One more row, as the second pass sees it. */
  lemma LinkSnoc(cats: seq<Category>, c: Category, k: Id)
    ensures ChildIds(cats + [c], k) == ChildIds(cats, k) + (if c.parentId == Some(k) then [c.id] else [])
    ensures RootIds(cats + [c]) == RootIds(cats) + (if IsRoot(c) then [c.id] else [])
  {
    var keep := (x: Category) => x.parentId == Some(k);
    FilterSnoc(cats, c, keep);
    FilterSnoc(cats, c, IsRoot);
    IdsOfSnoc(Children(cats, k), c);
    IdsOfSnoc(Filter(cats, IsRoot), c);
  }

  /** The first `forEach`: a childless node per id, the last row with an id winning. */
  method IndexRows(data: seq<Category>) returns (nodes: map<Id, Node>)
    ensures nodes.Keys == IdSet(data)
    ensures forall k :: k in nodes ==> nodes[k] == Node(LastWithId(data, k), [])
  {
    nodes := map[];
    var i := 0;
    while i < |data|
      invariant 0 <= i <= |data|
      invariant nodes.Keys == IdSet(data[..i])
      invariant forall k :: k in nodes ==> nodes[k] == Node(LastWithId(data[..i], k), [])
    {
      var cat := data[i];
      assert data[..i + 1] == data[..i] + [cat];
      forall k ensures k in IdSet(data[..i + 1]) ==>
        LastWithId(data[..i + 1], k) == if cat.id == k then cat else LastWithId(data[..i], k)
      {
        IndexSnoc(data[..i], cat, k);
      }
      IndexSnoc(data[..i], cat, cat.id);
      nodes := nodes[cat.id := Node(cat, [])];
      i := i + 1;
    }
    assert data[..i] == data;
  }

  /** What one step of the second pass does to the nodes. */
  function Attach(nodes: map<Id, Node>, cat: Category): map<Id, Node> {
    if cat.parentId.Some? && cat.parentId.value in nodes then
      var parent := nodes[cat.parentId.value];
      nodes[cat.parentId.value := parent.(children := parent.children + [cat.id])]
    else nodes
  }

  /** The second pass's invariant on the nodes after the rows in `prefix`. */
  ghost predicate LinkedUpTo(nodes: map<Id, Node>, index: map<Id, Node>, prefix: seq<Category>) {
    nodes.Keys == index.Keys &&
    forall k :: k in nodes ==>
      nodes[k].category == index[k].category && nodes[k].children == ChildIds(prefix, k)
  }

  lemma LinkStep(nodes: map<Id, Node>, index: map<Id, Node>, prefix: seq<Category>, cat: Category)
    requires LinkedUpTo(nodes, index, prefix)
    ensures LinkedUpTo(Attach(nodes, cat), index, prefix + [cat])
  {
    var after := Attach(nodes, cat);
    forall k | k in after
      ensures after[k].category == index[k].category && after[k].children == ChildIds(prefix + [cat], k)
    {
      LinkSnoc(prefix, cat, k);
    }
  }

  /** What one step of the second pass does to the roots. */
  lemma RootStep(prefix: seq<Category>, cat: Category)
    ensures RootIds(prefix + [cat]) == RootIds(prefix) + (if IsRoot(cat) then [cat.id] else [])
  {
    LinkSnoc(prefix, cat, 0);
  }

  /** The second `forEach`: each row is appended to the root list (falsy parent), or to
      its parent node's children (parent present), or dropped (parent absent). */
  method LinkRows(data: seq<Category>, index: map<Id, Node>) returns (nodes: map<Id, Node>, roots: seq<Id>)
    requires forall k :: k in index ==> index[k].children == []
    ensures nodes.Keys == index.Keys
    ensures forall k :: k in nodes ==>
      nodes[k].category == index[k].category && nodes[k].children == ChildIds(data, k)
    ensures roots == RootIds(data)
  {
    nodes := index;
    roots := [];
    var i := 0;
    while i < |data|
      invariant 0 <= i <= |data|
      invariant LinkedUpTo(nodes, index, data[..i])
      invariant roots == RootIds(data[..i])
    {
      var cat := data[i];
      LinkStep(nodes, index, data[..i], cat);
      RootStep(data[..i], cat);
      assert data[..i + 1] == data[..i] + [cat];
      nodes := Attach(nodes, cat);
      if IsRoot(cat) {
        roots := roots + [cat.id];
      }
      i := i + 1;
    }
    assert data[..i] == data;
  }

  /** The forest of `fetchCategories`: every id gets a node copied from its row, every
      node's children are exactly the rows naming it as parent in input order, and the
      roots are exactly the rows with a falsy parent in input order. */
  method BuildForest(data: seq<Category>) returns (nodes: map<Id, Node>, roots: seq<Id>)
    ensures nodes.Keys == IdSet(data)
    ensures forall k :: k in nodes ==>
      nodes[k].category == LastWithId(data, k) && nodes[k].children == ChildIds(data, k)
    ensures roots == RootIds(data)
  {
    var index := IndexRows(data);
    nodes, roots := LinkRows(data, index);
  }

  /** With unique ids every node is a copy of its own row. */
  lemma NodesCopyRows(data: seq<Category>, c: Category)
    requires UniqueIds(data) && c in data
    ensures c.id in IdSet(data) && LastWithId(data, c.id) == c
  {
    LastWithIdUnique(data, c);
  }

  /** With unique ids, each row with a falsy parent is in the root list exactly once, and
      no other row is. */
  lemma RootsExactlyOnce(data: seq<Category>, c: Category)
    requires UniqueIds(data) && c in data
    ensures c.id in RootIds(data) <==> IsRoot(c)
    ensures Distinct(RootIds(data))
  {
    FilteredIdsDistinct(data, IsRoot);
    RootIdsMembers(data);
    if c.id in RootIds(data) {
      var r :| r in data && IsRoot(r) && r.id == c.id;
      LastWithIdUnique(data, c);
      LastWithIdUnique(data, r);
    }
  }

  /** With unique ids, each row whose parent is `p` is in `p`'s children exactly once,
      and no other row is. */
  lemma ChildrenExactlyOnce(data: seq<Category>, p: Id, c: Category)
    requires UniqueIds(data) && c in data
    ensures c.id in ChildIds(data, p) <==> c.parentId == Some(p)
    ensures Distinct(ChildIds(data, p))
  {
    FilteredIdsDistinct(data, (x: Category) => x.parentId == Some(p));
    ChildIdsMembers(data, p);
    if c.id in ChildIds(data, p) {
      var r :| r in data && r.parentId == Some(p) && r.id == c.id;
      LastWithIdUnique(data, c);
      LastWithIdUnique(data, r);
    }
  }

  /** With unique ids, a row whose parent id matches no row is dropped: it is neither a
      root nor any node's child. */
  lemma OrphansDropped(data: seq<Category>, c: Category, k: Id)
    requires UniqueIds(data) && c in data
    requires c.parentId.Some? && c.parentId.value !in IdSet(data)
    ensures c.id !in RootIds(data)
    ensures k in IdSet(data) ==> c.id !in ChildIds(data, k)
  {
    RootsExactlyOnce(data, c);
    if k in IdSet(data) {
      ChildrenExactlyOnce(data, k, c);
    }
  }

  /** `toggleExpanded`: a copy of the set with `id` removed if present, added otherwise. */
  function Toggled(expanded: set<Id>, id: Id): (r: set<Id>)
    ensures id in r <==> id !in expanded
    ensures forall x :: x != id ==> (x in r <==> x in expanded)
  {
    if id in expanded then expanded - {id} else expanded + {id}
  }

  /** Toggling the same id twice restores the set. */
  lemma ToggleInvolution(expanded: set<Id>, id: Id)
    ensures Toggled(Toggled(expanded, id), id) == expanded
  {
  }

  /** `hasChildren && isExpanded`: whether a node's children are rendered. */
  predicate ShowsChildren(node: Node, expanded: set<Id>) {
    |node.children| > 0 && node.category.id in expanded
  }

  /** Toggling a node with children flips whether they are shown, leaves every other
      node as it was, and never shows the children of a childless node. */
  lemma ToggleShowsChildren(node: Node, other: Node, expanded: set<Id>)
    requires other.category.id != node.category.id
    ensures |node.children| > 0 ==>
      ShowsChildren(node, Toggled(expanded, node.category.id)) == !ShowsChildren(node, expanded)
    ensures ShowsChildren(other, Toggled(expanded, node.category.id)) == ShowsChildren(other, expanded)
    ensures node.children == [] ==> !ShowsChildren(node, Toggled(expanded, node.category.id))
  {
  }
}
