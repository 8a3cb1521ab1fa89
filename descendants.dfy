/** "A category and everything under it": the pre-order id list that the home page
    caches per category, that the products page sends as an `in` filter, and that the
    category helper library builds, together with the proof that it lists exactly the
    category and its transitive children. */
module Descendants {
  import opened Wrappers
  import opened Seqs
  import opened CategoryData

  /** The list the three implementations build: `id` itself, then, for each child in
      table order, that child's own list (so every child precedes its own children). */
  function DescendantIds(cats: seq<Category>, id: Id): seq<Id>
    requires WellFormed(cats)
    decreases Height(cats, id), 1, 0
  {
    [id] + SubtreeIds(cats, id, Children(cats, id))
  }

  /** The concatenated lists of the given children of `parent`. */
  function SubtreeIds(cats: seq<Category>, parent: Id, kids: seq<Category>): seq<Id>
    requires WellFormed(cats)
    requires forall k :: k in kids ==> k in cats && k.parentId == Some(parent)
    decreases Height(cats, parent), 0, |kids|
  {
    if kids == [] then []
    else
      ChildIsLower(cats, parent, kids[0]);
      DescendantIds(cats, kids[0].id) + SubtreeIds(cats, parent, kids[1..])
  }

  /** Reference definition, read upwards: row `r` lies under category `a` when its parent
      is `a` or its parent row lies under `a`. */
  ghost predicate Below(cats: seq<Category>, a: Id, r: Category)
    requires Ranked(cats)
    requires r in cats
    decreases r.level - MinLevel(cats)
  {
    r.parentId == Some(a) || exists q :: q in cats && r.parentId == Some(q.id) && Below(cats, a, q)
  }

  /** `x` is `a` itself or the id of a row under `a`. */
  ghost predicate InSubtree(cats: seq<Category>, a: Id, x: Id)
    requires Ranked(cats)
  {
    x == a || exists r :: r in cats && r.id == x && Below(cats, a, r)
  }

  lemma {:induction false} SubtreeSnoc(cats: seq<Category>, parent: Id, kids: seq<Category>, k: Category)
    requires WellFormed(cats)
    requires forall c :: c in kids ==> c in cats && c.parentId == Some(parent)
    requires k in cats && k.parentId == Some(parent)
    ensures SubtreeIds(cats, parent, kids + [k]) == SubtreeIds(cats, parent, kids) + DescendantIds(cats, k.id)
    decreases |kids|
  {
    if kids == [] {
      assert [k][1..] == [];
    } else {
      var longer := kids + [k];
      assert longer[0] == kids[0];
      assert longer[1..] == kids[1..] + [k];
      SubtreeSnoc(cats, parent, kids[1..], k);
      assert SubtreeIds(cats, parent, longer) ==
        DescendantIds(cats, kids[0].id) + SubtreeIds(cats, parent, longer[1..]);
      assert SubtreeIds(cats, parent, kids) ==
        DescendantIds(cats, kids[0].id) + SubtreeIds(cats, parent, kids[1..]);
    }
  }

  /** Each listed child's whole list is part of the concatenation. */
  lemma {:induction false} SubtreeHasChild(cats: seq<Category>, parent: Id, kids: seq<Category>, k: Category, x: Id)
    requires WellFormed(cats)
    requires forall c :: c in kids ==> c in cats && c.parentId == Some(parent)
    requires k in kids
    requires x in DescendantIds(cats, k.id)
    ensures x in SubtreeIds(cats, parent, kids)
    decreases |kids|
  {
    if kids[0] != k {
      SubtreeHasChild(cats, parent, kids[1..], k, x);
    }
  }

  /** The list of `id` is closed under "child of". */
  lemma {:induction false} ClosedUnderChildren(cats: seq<Category>, id: Id, x: Id, r: Category)
    requires WellFormed(cats)
    requires x in DescendantIds(cats, id)
    requires r in cats && r.parentId == Some(x)
    ensures r.id in DescendantIds(cats, id)
    decreases Height(cats, id), 1, 0
  {
    var kids := Children(cats, id);
    if x == id {
      assert r.id in DescendantIds(cats, r.id);
      SubtreeHasChild(cats, id, kids, r, r.id);
    } else {
      SubtreesClosedUnderChildren(cats, id, kids, x, r);
    }
  }

  lemma {:induction false} SubtreesClosedUnderChildren(cats: seq<Category>, parent: Id, kids: seq<Category>, x: Id, r: Category)
    requires WellFormed(cats)
    requires forall c :: c in kids ==> c in cats && c.parentId == Some(parent)
    requires x in SubtreeIds(cats, parent, kids)
    requires r in cats && r.parentId == Some(x)
    ensures r.id in SubtreeIds(cats, parent, kids)
    decreases Height(cats, parent), 0, |kids|
  {
    var k := kids[0];
    ChildIsLower(cats, parent, k);
    if x in DescendantIds(cats, k.id) {
      ClosedUnderChildren(cats, k.id, x, r);
    } else {
      SubtreesClosedUnderChildren(cats, parent, kids[1..], x, r);
    }
  }

  /** Everything listed under a category that lies in `a`'s subtree lies in it too. */
  lemma {:induction false} DescendantsSound(cats: seq<Category>, a: Id, id: Id)
    requires WellFormed(cats)
    requires InSubtree(cats, a, id)
    ensures forall x :: x in DescendantIds(cats, id) ==> InSubtree(cats, a, x)
    decreases Height(cats, id), 1, 0
  {
    SubtreesSound(cats, a, id, Children(cats, id));
  }

  lemma {:induction false} SubtreesSound(cats: seq<Category>, a: Id, parent: Id, kids: seq<Category>)
    requires WellFormed(cats)
    requires InSubtree(cats, a, parent)
    requires forall c :: c in kids ==> c in cats && c.parentId == Some(parent)
    ensures forall x :: x in SubtreeIds(cats, parent, kids) ==> InSubtree(cats, a, x)
    decreases Height(cats, parent), 0, |kids|
  {
    if kids != [] {
      var k := kids[0];
      ChildIsLower(cats, parent, k);
      assert Below(cats, a, k) by {
        if parent != a {
          var r :| r in cats && r.id == parent && Below(cats, a, r);
          assert k.parentId == Some(r.id);
        }
      }
      assert InSubtree(cats, a, k.id);
      DescendantsSound(cats, a, k.id);
      SubtreesSound(cats, a, parent, kids[1..]);
    }
  }

  /** Every row under `a` is listed in `a`'s list. */
  lemma {:induction false} BelowIsListed(cats: seq<Category>, a: Id, r: Category)
    requires WellFormed(cats)
    requires r in cats && Below(cats, a, r)
    ensures r.id in DescendantIds(cats, a)
    decreases r.level - MinLevel(cats)
  {
    if r.parentId == Some(a) {
      ClosedUnderChildren(cats, a, a, r);
    } else {
      var q :| q in cats && r.parentId == Some(q.id) && Below(cats, a, q);
      BelowIsListed(cats, a, q);
      ClosedUnderChildren(cats, a, q.id, r);
    }
  }

  /** The descendant list of `a` contains exactly `a` and every id of a row below `a`. */
  lemma DescendantIdsExact(cats: seq<Category>, a: Id, x: Id)
    requires WellFormed(cats)
    ensures x in DescendantIds(cats, a) <==> InSubtree(cats, a, x)
  {
    if x in DescendantIds(cats, a) {
      DescendantsSound(cats, a, a);
    }
    if InSubtree(cats, a, x) && x != a {
      var r :| r in cats && r.id == x && Below(cats, a, r);
      BelowIsListed(cats, a, r);
    }
  }

  /** One round of the `getDescendants` loop: appending a child's result extends the
      list by that child's whole descendant list. */
  lemma CollectStep(cats: seq<Category>, categoryId: Id, done: seq<Category>, child: Category,
                    before: seq<Id>, sub: seq<Id>)
    requires WellFormed(cats)
    requires forall c :: c in done ==> c in cats && c.parentId == Some(categoryId)
    requires child in cats && child.parentId == Some(categoryId)
    requires before == [categoryId] + SubtreeIds(cats, categoryId, done)
    requires sub == DescendantIds(cats, child.id)
    ensures before + sub == [categoryId] + SubtreeIds(cats, categoryId, done + [child])
  {
    SubtreeSnoc(cats, categoryId, done, child);
  }

  /** `getDescendants` of the home page and `getDescendantIds` of the products page:
      start with the id, then for each child append the child's own result. */
  method CollectDescendants(cats: seq<Category>, categoryId: Id) returns (descendants: seq<Id>)
    requires WellFormed(cats)
    ensures descendants == DescendantIds(cats, categoryId)
    decreases Height(cats, categoryId)
  {
    descendants := [categoryId];
    var children := Children(cats, categoryId);
    var i := 0;
    while i < |children|
      invariant 0 <= i <= |children|
      invariant descendants == [categoryId] + SubtreeIds(cats, categoryId, children[..i])
    {
      var child := children[i];
      ChildIsLower(cats, categoryId, child);
      var sub := CollectDescendants(cats, child.id);
      CollectStep(cats, categoryId, children[..i], child, descendants, sub);
      descendants := descendants + sub;
      assert children[..i + 1] == children[..i] + [child];
      i := i + 1;
    }
    assert children[..i] == children;
  }

  /** One round of the `getChildren` loop: pushing a child's id and then its own
      children extends the list by the child's whole descendant list. */
  lemma PushStep(cats: seq<Category>, parentId: Id, done: seq<Category>, child: Category,
                 descendants: seq<Id>, before: seq<Id>, out: seq<Id>)
    requires WellFormed(cats)
    requires forall c :: c in done ==> c in cats && c.parentId == Some(parentId)
    requires child in cats && child.parentId == Some(parentId)
    requires before == descendants + SubtreeIds(cats, parentId, done)
    requires out == (before + [child.id]) + SubtreeIds(cats, child.id, Children(cats, child.id))
    ensures out == descendants + SubtreeIds(cats, parentId, done + [child])
  {
    SubtreeSnoc(cats, parentId, done, child);
    assert DescendantIds(cats, child.id) == [child.id] + SubtreeIds(cats, child.id, Children(cats, child.id));
  }

  /** The nested `getChildren` of the category helper library: push each child's id onto
      the shared list, then recurse into that child. */
  method PushChildren(cats: seq<Category>, parentId: Id, descendants: seq<Id>) returns (out: seq<Id>)
    requires WellFormed(cats)
    ensures out == descendants + SubtreeIds(cats, parentId, Children(cats, parentId))
    decreases Height(cats, parentId)
  {
    out := descendants;
    var children := Children(cats, parentId);
    var i := 0;
    while i < |children|
      invariant 0 <= i <= |children|
      invariant out == descendants + SubtreeIds(cats, parentId, children[..i])
    {
      var child := children[i];
      ChildIsLower(cats, parentId, child);
      ghost var before := out;
      out := out + [child.id];
      out := PushChildren(cats, child.id, out);
      PushStep(cats, parentId, children[..i], child, descendants, before, out);
      assert children[..i + 1] == children[..i] + [child];
      i := i + 1;
    }
    assert children[..i] == children;
  }
}
