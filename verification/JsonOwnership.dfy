/**
  * parson's ownership: a value belongs to the object or array it was put into, and freeing a value frees
  * what it owns. Objects are built member by member while the nodes they own are kept track of.
  */
module JsonOwnership {
  import opened JsonTree
  import opened JsonHeap

  lemma {:induction false} OwnedMonotone(v: Node, t: Json, space: set<Node>, larger: set<Node>)
    requires Shows(v, t, space) && space <= larger
    ensures Shows(v, t, larger) && Owned(v, t, larger) == Owned(v, t, space)
    decreases t, t.Width() + 1
  {
    ShowsMonotone(v, t, space, larger);
    OwnedChildrenMonotone(v, t, space, larger, t.Width());
  }

  lemma {:induction false} OwnedChildrenMonotone(v: Node, t: Json, space: set<Node>, larger: set<Node>, k: nat)
    requires Shows(v, t, space) && Shows(v, t, larger) && space <= larger && k <= t.Width()
    ensures OwnedChildren(v, t, larger, k) == OwnedChildren(v, t, space, k)
    decreases t, k
  {
    if k > 0 {
      OwnedChildrenMonotone(v, t, space, larger, k - 1);
      ChildShows(v, t, space, k - 1);
      OwnedMonotone(ChildNode(v.cell, k - 1), t.Child(k - 1), space, larger);
    }
  }

  ghost predicate MembersShow(members: seq<Member>, entries: seq<Entry>, below: set<Node>)
    reads below
  {
    |members| == |entries|
    && forall i :: 0 <= i < |entries| ==>
         members[i].name == entries[i].key && Shows(members[i].val, entries[i].val, below)
  }

  /** The nodes owned through a list of members, in order. */
  ghost function OwnedThrough(members: seq<Member>, entries: seq<Entry>, below: set<Node>): seq<Node>
    requires MembersShow(members, entries, below)
    reads below
    decreases |members|
  {
    if members == [] then []
    else
      var n := |members| - 1;
      OwnedThrough(members[..n], entries[..n], below) + Owned(members[n].val, entries[n].val, below)
  }

  lemma {:induction false} OwnedThroughMonotone(members: seq<Member>, entries: seq<Entry>, below: set<Node>,
                                                larger: set<Node>)
    requires MembersShow(members, entries, below) && below <= larger
    ensures MembersShow(members, entries, larger)
    ensures OwnedThrough(members, entries, larger) == OwnedThrough(members, entries, below)
    decreases |members|
  {
    forall i | 0 <= i < |entries|
      ensures Shows(members[i].val, entries[i].val, larger)
    {
      ShowsMonotone(members[i].val, entries[i].val, below, larger);
    }
    if members != [] {
      var n := |members| - 1;
      OwnedThroughMonotone(members[..n], entries[..n], below, larger);
      OwnedMonotone(members[n].val, entries[n].val, below, larger);
    }
  }

  /** What is known of an object under construction: its entries, the nodes below and those it owns. */
  datatype Shape = Shape(entries: seq<Entry>, below: set<Node>, kids: seq<Node>)

  ghost predicate MembersHaveShape(members: seq<Member>, s: Shape)
    reads s.below
  {
    && MembersShow(members, s.entries, s.below)
    && OwnedThrough(members, s.entries, s.below) == s.kids
  }

  ghost predicate HasShape(obj: Node, s: Shape)
    reads obj, s.below
  {
    obj !in s.below && obj.cell.ObjectCell? && MembersHaveShape(obj.cell.members, s)
  }

  /** A new object has no entries and owns nothing. */
  lemma EmptyShape(obj: Node) returns (s: Shape)
    requires obj.cell == ObjectCell([])
    ensures HasShape(obj, s) && s.entries == [] && s.below == {} && s.kids == []
    ensures forall k :: NewKey(s.entries, k)
  {
    s := Shape([], {}, []);
  }

  lemma {:induction false} OwnedChildrenThrough(obj: Node, entries: seq<Entry>, space: set<Node>, k: nat)
    requires Shows(obj, Object(entries), space) && k <= |entries|
    ensures MembersShow(obj.cell.members[..k], entries[..k], space)
    ensures OwnedChildren(obj, Object(entries), space, k) == OwnedThrough(obj.cell.members[..k], entries[..k], space)
    decreases k
  {
    if k > 0 {
      OwnedChildrenThrough(obj, entries, space, k - 1);
      assert obj.cell.members[..k][..k - 1] == obj.cell.members[..k - 1];
      assert entries[..k][..k - 1] == entries[..k - 1];
    }
  }

  /** A finished object as a value: it owns what its members own, and then itself. */
  lemma ShapeOwns(obj: Node, s: Shape)
    requires HasShape(obj, s)
    ensures Shows(obj, Object(s.entries), s.below + {obj})
    ensures Owned(obj, Object(s.entries), s.below + {obj}) == s.kids + [obj]
  {
    var space := s.below + {obj};
    OwnedThroughMonotone(obj.cell.members, s.entries, s.below, space);
    assert Shows(obj, Object(s.entries), space);
    OwnedChildrenThrough(obj, s.entries, space, |s.entries|);
    assert obj.cell.members[..|s.entries|] == obj.cell.members && s.entries[..|s.entries|] == s.entries;
  }

  predicate NewKey(entries: seq<Entry>, name: string) {
    forall i :: 0 <= i < |entries| ==> entries[i].key != name
  }

  /** The shape after a value has become the last member. */
  function Extended(s: Shape, name: string, t: Json, space: set<Node>, owned: seq<Node>): Shape {
    Shape(s.entries + [Entry(name, t)], s.below + space, s.kids + owned)
  }

  lemma OneMoreMember(members: seq<Member>, name: string, val: Node, s: Shape, t: Json, space: set<Node>)
    requires MembersHaveShape(members, s)
    requires Shows(val, t, space)
    ensures MembersHaveShape(members + [Member(name, val)], Extended(s, name, t, space, Owned(val, t, space)))
  {
    var below := s.below + space;
    OwnedThroughMonotone(members, s.entries, s.below, below);
    OwnedMonotone(val, t, space, below);
    var members', entries' := members + [Member(name, val)], s.entries + [Entry(name, t)];
    assert MembersShow(members', entries', below);
    assert members'[..|members|] == members && entries'[..|members|] == s.entries;
  }

  lemma NewMember(members: seq<Member>, entries: seq<Entry>, name: string, val: Node)
    requires |members| == |entries| && forall i :: 0 <= i < |entries| ==> members[i].name == entries[i].key
    requires NewKey(entries, name)
    ensures WithMember(members, name, val) == members + [Member(name, val)]
  {
  }

  /** json_object_set_value: obj takes the value over. */
  method Adopt(obj: Node, name: string, val: Node, ghost s: Shape, ghost t: Json, ghost space: set<Node>)
    returns (ghost s': Shape)
    requires HasShape(obj, s) && NewKey(s.entries, name)
    requires Shows(val, t, space) && obj !in space
    modifies obj
    ensures s' == Extended(s, name, t, space, old(Owned(val, t, space))) && HasShape(obj, s')
    ensures forall k :: NewKey(s'.entries, k) <==> NewKey(s.entries, k) && k != name
  {
    hide WithMember;
    s' := Extended(s, name, t, space, Owned(val, t, space));
    OneMoreMember(obj.cell.members, name, val, s, t, space);
    NewMember(obj.cell.members, s.entries, name, val);
    SetMember(obj, name, val);
  }

  /** json_object_set_string and json_object_set_number: the library makes the value itself. */
  method AdoptNew(arena: Arena, obj: Node, name: string, cell: Cell, ghost s: Shape, ghost avoid: set<Node>)
    returns (v: Node, ghost s': Shape)
    requires arena.Valid() && HasShape(obj, s) && NewKey(s.entries, name)
    requires cell.StringCell? || cell.IntCell?
    modifies arena, obj
    ensures fresh(v) && v !in avoid
    ensures s' == Extended(s, name, Leaf(cell), {v}, [v]) && HasShape(obj, s')
    ensures forall k :: NewKey(s'.entries, k) <==> NewKey(s.entries, k) && k != name
    ensures arena.Valid() && arena.created == old(arena.created) + [v] && arena.freed == old(arena.freed)
  {
    v := arena.New(cell);
    assert Owned(v, Leaf(cell), {v}) == [v];
    s' := Adopt(obj, name, v, s, Leaf(cell), {v});
  }

  /** Two strings or numbers in a row. */
  method AdoptTwo(arena: Arena, obj: Node, name: string, cell: Cell, name': string, cell': Cell,
                  ghost s: Shape, ghost avoid: set<Node>) returns (ghost s': Shape, ghost made: seq<Node>)
    requires arena.Valid() && HasShape(obj, s) && NewKey(s.entries, name) && NewKey(s.entries, name') && name != name'
    requires (cell.StringCell? || cell.IntCell?) && (cell'.StringCell? || cell'.IntCell?)
    modifies arena, obj
    ensures fresh(made) && HasShape(obj, s') && s'.below - s.below !! avoid
    ensures s'.entries == s.entries + [Entry(name, Leaf(cell)), Entry(name', Leaf(cell'))] && s'.kids == s.kids + made
    ensures forall k :: NewKey(s'.entries, k) <==> NewKey(s.entries, k) && k != name && k != name'
    ensures arena.Valid() && arena.created == old(arena.created) + made && arena.freed == old(arena.freed)
  {
    hide HasShape, NewKey;
    var v, v';
    v, s' := AdoptNew(arena, obj, name, cell, s, avoid);
    v', s' := AdoptNew(arena, obj, name', cell', s', avoid);
    made := [v, v'];
  }
}
