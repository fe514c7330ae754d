/**
  * Reading a document back from the heap and giving it back: json_serialize_to_string_pretty, json_dumps and
  * json_value_free. A node that was given back no longer shows anything.
  */
module JsonRelease {
  import opened JsonTree
  import opened JsonHeap
  import opened JsonOwnership

  /** The document the cells spell out, read node by node; the text itself is left to the library. */
  method Serialize(v: Node, ghost t: Json, ghost space: set<Node>) returns (text: Json)
    requires Shows(v, t, space)
    ensures text == t
    decreases t
  {
    match v.cell {
      case ObjectCell(members) =>
        var entries := [];
        var i := 0;
        while i < |members|
          invariant i <= |members| && entries == t.entries[..i]
        {
          var val := Serialize(members[i].val, t.entries[i].val, space);
          entries := entries + [Entry(members[i].name, val)];
          i := i + 1;
        }
        text := Object(entries);
      case ArrayCell(elems) =>
        var items := [];
        var i := 0;
        while i < |elems|
          invariant i <= |elems| && items == t.items[..i]
        {
          var item := Serialize(elems[i], t.items[i], space);
          items := items + [item];
          i := i + 1;
        }
        text := Array(items);
      case StringCell(s) =>
        text := Str(s);
      case IntCell(n) =>
        text := Int(n);
      case FreedCell =>
        text := Null;
    }
  }

  function NodesOf(owned: seq<Node>): set<Node> {
    set n | n in owned
  }

  /** v shows t through the nodes it owns and no others, and owns none of them twice. */
  ghost predicate OwnsOnce(v: Node, t: Json, owned: seq<Node>, nodes: set<Node>)
    reads nodes
  {
    nodes == NodesOf(owned) && Shows(v, t, nodes) && Owned(v, t, nodes) == owned && Distinct(owned)
  }

  lemma {:induction false} OwnedBelow(v: Node, t: Json, space: set<Node>, k: nat, i: nat)
    requires Shows(v, t, space) && i < k <= t.Width() == CellWidth(v.cell)
    requires Shows(ChildNode(v.cell, i), t.Child(i), space)
    ensures forall n :: n in Owned(ChildNode(v.cell, i), t.Child(i), space) ==> n in OwnedChildren(v, t, space, k)
    decreases k
  {
    if i < k - 1 {
      OwnedBelow(v, t, space, k - 1, i);
    }
  }

  /** The nodes a value owns are all that its tree depends on. */
  lemma {:induction false} OwnedShows(v: Node, t: Json, space: set<Node>)
    requires Shows(v, t, space)
    ensures var nodes := NodesOf(Owned(v, t, space));
            Shows(v, t, nodes) && Owned(v, t, nodes) == Owned(v, t, space)
    decreases t
  {
    var nodes := NodesOf(Owned(v, t, space));
    forall i | 0 <= i < t.Width()
      ensures CellWidth(v.cell) == t.Width() && Shows(ChildNode(v.cell, i), t.Child(i), nodes)
    {
      ChildShows(v, t, space, i);
      var child := ChildNode(v.cell, i);
      OwnedShows(child, t.Child(i), space);
      OwnedBelow(v, t, space, t.Width(), i);
      ShowsMonotone(child, t.Child(i), NodesOf(Owned(child, t.Child(i), space)), nodes);
    }
    ShowsByChildren(v, t, space, nodes);
    OwnedInSpace(v, t, space);
    OwnedMonotone(v, t, nodes, space);
  }

  lemma ShowsByChildren(v: Node, t: Json, space: set<Node>, nodes: set<Node>)
    requires Shows(v, t, space) && v in nodes && CellWidth(v.cell) == t.Width()
    requires forall i :: 0 <= i < t.Width() ==> Shows(ChildNode(v.cell, i), t.Child(i), nodes)
    ensures Shows(v, t, nodes)
  {
    assert forall i :: 0 <= i < t.Width() ==> Shows(ChildNode(v.cell, i), t.Child(i), nodes);
    match t {
      case Object(entries) =>
        forall i | 0 <= i < |entries|
          ensures Shows(v.cell.members[i].val, entries[i].val, nodes)
        {
          assert Shows(ChildNode(v.cell, i), t.Child(i), nodes);
        }
      case Array(items) =>
        forall i | 0 <= i < |items|
          ensures Shows(v.cell.elems[i], items[i], nodes)
        {
          assert Shows(ChildNode(v.cell, i), t.Child(i), nodes);
        }
      case _ =>
    }
  }

  lemma {:induction false} OwnedInSpace(v: Node, t: Json, space: set<Node>)
    requires Shows(v, t, space)
    ensures forall n :: n in Owned(v, t, space) ==> n in space
    decreases t, t.Width() + 1
  {
    OwnedChildrenInSpace(v, t, space, t.Width());
  }

  lemma {:induction false} OwnedChildrenInSpace(v: Node, t: Json, space: set<Node>, k: nat)
    requires Shows(v, t, space) && k <= t.Width()
    ensures forall n :: n in OwnedChildren(v, t, space, k) ==> n in space
    decreases t, k
  {
    if k > 0 {
      OwnedChildrenInSpace(v, t, space, k - 1);
      ChildShows(v, t, space, k - 1);
      OwnedInSpace(ChildNode(v.cell, k - 1), t.Child(k - 1), space);
    }
  }

  // ----- Freeing -----

  function Flat(kids: seq<seq<Node>>): seq<Node> {
    if kids == [] then [] else Flat(kids[..|kids| - 1]) + kids[|kids| - 1]
  }

  /** What the children of v own, child by child, and that this can be given back without touching a node twice. */
  lemma Kids(v: Node, t: Json, owned: seq<Node>, nodes: set<Node>) returns (kids: seq<seq<Node>>, parts: seq<set<Node>>)
    requires OwnsOnce(v, t, owned, nodes)
    ensures owned == Flat(kids) + [v] && v in nodes && |parts| == |kids| == t.Width() == CellWidth(v.cell)
    ensures forall j :: 0 <= j < |kids| ==> OwnsOnce(ChildNode(v.cell, j), t.Child(j), kids[j], parts[j])
    ensures forall j :: 0 <= j < |kids| ==> parts[j] <= nodes - {v}
    ensures forall i, j :: 0 <= i < j < |kids| ==> parts[i] !! parts[j]
    ensures forall n :: n in nodes && n != v ==> exists j :: 0 <= j < |kids| && n in parts[j]
  {
    hide Shows, Owned;
    OwnedUnfolds(v, t, nodes);
    kids := KidsOwned(v, t, nodes, t.Width());
    parts := seq(|kids|, j requires 0 <= j < |kids| => NodesOf(kids[j]));
    FlatDistinct(kids, v);
    FlatCovers(kids);
    forall j | 0 <= j < |kids|
      ensures parts[j] <= nodes - {v} && OwnsOnce(ChildNode(v.cell, j), t.Child(j), kids[j], parts[j])
    {
      assert forall n :: n in Flat(kids) ==> n in owned;
      OwnedShows(ChildNode(v.cell, j), t.Child(j), nodes);
    }
    forall n | n in nodes && n != v
      ensures exists j :: 0 <= j < |kids| && n in parts[j]
    {
      var j :| 0 <= j < |kids| && n in kids[j];
      assert n in parts[j];
    }
  }

  lemma OwnedUnfolds(v: Node, t: Json, space: set<Node>)
    requires Shows(v, t, space)
    ensures Owned(v, t, space) == OwnedChildren(v, t, space, t.Width()) + [v] && CellWidth(v.cell) == t.Width()
  {
  }

  lemma {:induction false} KidsOwned(v: Node, t: Json, space: set<Node>, k: nat) returns (kids: seq<seq<Node>>)
    requires Shows(v, t, space) && k <= t.Width() == CellWidth(v.cell)
    ensures |kids| == k && Flat(kids) == OwnedChildren(v, t, space, k)
    ensures forall j :: 0 <= j < k ==> Shows(ChildNode(v.cell, j), t.Child(j), space)
                                       && kids[j] == Owned(ChildNode(v.cell, j), t.Child(j), space)
    decreases k
  {
    if k == 0 {
      kids := [];
    } else {
      var front := KidsOwned(v, t, space, k - 1);
      ChildShows(v, t, space, k - 1);
      kids := front + [Owned(ChildNode(v.cell, k - 1), t.Child(k - 1), space)];
      assert kids[..k - 1] == front;
    }
  }

  lemma DistinctParts(a: seq<Node>, b: seq<Node>)
    requires Distinct(a + b)
    ensures Distinct(a) && Distinct(b) && forall n :: n in a ==> n !in b
  {
    forall i, j | 0 <= i < j < |b|
      ensures b[i] != b[j]
    {
      assert b[i] == (a + b)[|a| + i] && b[j] == (a + b)[|a| + j];
    }
    forall i, j | 0 <= i < |a| && 0 <= j < |b|
      ensures a[i] != b[j]
    {
      assert a[i] == (a + b)[i] && b[j] == (a + b)[|a| + j];
    }
    assert forall i :: 0 <= i < |a| ==> a[i] == (a + b)[i];
  }

  lemma {:induction false} FlatDistinct(kids: seq<seq<Node>>, v: Node)
    requires Distinct(Flat(kids) + [v])
    ensures forall j :: 0 <= j < |kids| ==> Distinct(kids[j])
    ensures forall j, n :: 0 <= j < |kids| && n in kids[j] ==> n in Flat(kids) && n != v
    ensures forall i, j, n :: 0 <= i < j < |kids| && n in kids[i] ==> n !in kids[j]
  {
    DistinctParts(Flat(kids), [v]);
    assert v in [v];
    FlatParts(kids);
    forall n | n in Flat(kids)
      ensures n != v
    {
      assert n !in [v];
    }
  }

  lemma {:induction false} FlatParts(kids: seq<seq<Node>>)
    requires Distinct(Flat(kids))
    ensures forall j :: 0 <= j < |kids| ==> Distinct(kids[j])
    ensures forall j, n :: 0 <= j < |kids| && n in kids[j] ==> n in Flat(kids)
    ensures forall i, j, n :: 0 <= i < j < |kids| && n in kids[i] ==> n !in kids[j]
  {
    if kids != [] {
      var front, last := kids[..|kids| - 1], kids[|kids| - 1];
      DistinctParts(Flat(front), last);
      FlatParts(front);
      forall i, n | 0 <= i < |front| && n in kids[i]
        ensures n in Flat(front)
      {
        assert n in front[i];
      }
      assert forall i :: 0 <= i < |front| ==> front[i] == kids[i];
    }
  }

  lemma {:induction false} FlatCovers(kids: seq<seq<Node>>)
    ensures forall n :: n in Flat(kids) ==> exists j :: 0 <= j < |kids| && n in kids[j]
  {
    if kids != [] {
      var front := kids[..|kids| - 1];
      FlatCovers(front);
      forall n | n in Flat(kids)
        ensures exists j :: 0 <= j < |kids| && n in kids[j]
      {
        if n in Flat(front) {
          var j :| 0 <= j < |front| && n in front[j];
          assert n in kids[j];
        }
      }
    }
  }

  /**
    * json_value_free: frees what the members of an object or array own, child by child, then the value. Each node is
    * given back once and cannot be read any more.
    */
  method JsonValueFree(arena: Arena, v: Node, ghost t: Json, ghost owned: seq<Node>, ghost nodes: set<Node>)
    requires OwnsOnce(v, t, owned, nodes)
    modifies arena`freed, nodes
    ensures arena.freed == old(arena.freed) + owned
    ensures forall n :: n in nodes ==> n.cell.FreedCell?
    decreases t
  {
    hide OwnsOnce, NodesOf, Shows, Owned;
    ghost var kids, parts := Kids(v, t, owned, nodes);
    ghost var cell := v.cell;
    ghost var done: set<Node> := {};
    var i := 0;
    while i < CellWidth(v.cell)
      invariant v.cell == cell && i <= |kids|
      invariant arena.freed == old(arena.freed) + Flat(kids[..i])
      invariant forall j :: i <= j < |kids| ==> OwnsOnce(ChildNode(cell, j), t.Child(j), kids[j], parts[j])
      invariant forall j :: 0 <= j < i ==> parts[j] <= done
      invariant forall j :: i <= j < |kids| ==> parts[j] !! done
      invariant forall n :: n in done ==> n.cell.FreedCell?
    {
      JsonValueFree(arena, ChildNode(v.cell, i), t.Child(i), kids[i], parts[i]);
      done := done + parts[i];
      assert kids[..i + 1][..i] == kids[..i];
      i := i + 1;
    }
    assert kids[..i] == kids;
    v.cell := FreedCell;
    arena.freed := arena.freed + [v];
  }
}
