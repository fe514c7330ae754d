/**
  * JSON values as the libraries keep them: nodes on the heap that objects and arrays refer to, changed in
  * place through whatever pointer the program still holds.
  */
module JsonHeap {
  import opened Words
  import opened JsonTree

  datatype Member = Member(name: string, val: Node)

  datatype Cell =
    | ObjectCell(members: seq<Member>)
    | ArrayCell(elems: seq<Node>)
    | StringCell(text: string)
    | IntCell(n: int)
    | FreedCell

  class Node {
    var cell: Cell

    constructor (cell: Cell)
      ensures this.cell == cell
    {
      this.cell := cell;
    }
  }

  ghost predicate Distinct(nodes: seq<Node>) {
    forall i, j :: 0 <= i < j < |nodes| ==> nodes[i] != nodes[j]
  }

  /** The library's allocator: every node it handed out, and every node it was given back, in order. */
  class Arena {
    ghost var created: seq<Node>
    ghost var freed: seq<Node>

    /** No node is handed out twice. */
    ghost predicate Valid()
      reads this
    {
      Distinct(created)
    }

    constructor ()
      ensures Valid() && created == [] && freed == []
    {
      created := [];
      freed := [];
    }

    /** json_object(), json_string(), json_value_init_object() and their like. */
    method New(cell: Cell) returns (v: Node)
      requires Valid()
      modifies this
      ensures Valid() && fresh(v) && v.cell == cell
      ensures created == old(created) + [v] && freed == old(freed)
    {
      v := new Node(cell);
      created := created + [v];
    }
  }

  // ----- What the heap shows -----

  /** The nodes of space reachable from v spell out the tree t. */
  ghost predicate Shows(v: Node, t: Json, space: set<Node>)
    reads space
    decreases t
  {
    v in space
    && match t
       case Object(entries) =>
         && v.cell.ObjectCell? && |v.cell.members| == |entries|
         && forall i :: 0 <= i < |entries| ==>
              v.cell.members[i].name == entries[i].key && Shows(v.cell.members[i].val, entries[i].val, space)
       case Array(items) =>
         && v.cell.ArrayCell? && |v.cell.elems| == |items|
         && forall i :: 0 <= i < |items| ==> Shows(v.cell.elems[i], items[i], space)
       case Str(text) => v.cell == StringCell(text)
       case Int(n) => v.cell == IntCell(n)
       case _ => false
  }

  lemma {:induction false} ShowsMonotone(v: Node, t: Json, space: set<Node>, larger: set<Node>)
    requires Shows(v, t, space) && space <= larger
    ensures Shows(v, t, larger)
    decreases t
  {
    match t {
      case Object(entries) =>
        forall i | 0 <= i < |entries|
          ensures Shows(v.cell.members[i].val, entries[i].val, larger)
        {
          ShowsMonotone(v.cell.members[i].val, entries[i].val, space, larger);
        }
      case Array(items) =>
        forall i | 0 <= i < |items|
          ensures Shows(v.cell.elems[i], items[i], larger)
        {
          ShowsMonotone(v.cell.elems[i], items[i], space, larger);
        }
      case _ =>
    }
  }

  // ----- Library operations -----

  function NameIndex(names: seq<string>, name: string): (k: nat)
    ensures k <= |names|
    ensures k < |names| ==> names[k] == name
    ensures forall i :: 0 <= i < k ==> names[i] != name
  {
    if names == [] || names[0] == name then 0 else 1 + NameIndex(names[1..], name)
  }

  predicate AllDistinct(names: seq<string>) {
    forall i, j :: 0 <= i < j < |names| ==> names[i] != names[j]
  }

  lemma FirstIndex(names: seq<string>, name: string, k: nat)
    requires k <= |names| && (k < |names| ==> names[k] == name)
    requires forall i :: 0 <= i < k ==> names[i] != name
    ensures NameIndex(names, name) == k
  {
  }

  function MemberNames(members: seq<Member>): seq<string> {
    seq(|members|, i requires 0 <= i < |members| => members[i].name)
  }

  /** An existing member of that name gets the new value; otherwise a member is added at the end. */
  function WithMember(members: seq<Member>, name: string, val: Node): seq<Member> {
    var k := NameIndex(MemberNames(members), name);
    if k < |members| then members[k := Member(name, val)] else members + [Member(name, val)]
  }

  function Lookup(members: seq<Member>, name: string): Option<Node> {
    var k := NameIndex(MemberNames(members), name);
    if k < |members| then Some(members[k].val) else None
  }

  /**
    * What setting a member means: the name then leads to the value, every other name leads where it did, the names
    * stay in their order with a new one last, and they stay distinct.
    */
  lemma WithMemberMeaning(members: seq<Member>, name: string, val: Node)
    ensures var members', names := WithMember(members, name, val), MemberNames(members);
            && Lookup(members', name) == Some(val)
            && (forall other :: other != name ==> Lookup(members', other) == Lookup(members, other))
            && MemberNames(members') == (if name in names then names else names + [name])
            && (AllDistinct(names) ==> AllDistinct(MemberNames(members')))
  {
    hide NameIndex;
    var members', names := WithMember(members, name, val), MemberNames(members);
    var names' := MemberNames(members');
    assert name in names <==> NameIndex(names, name) < |names|;
    assert names' == if name in names then names else names + [name];
    forall other
      ensures NameIndex(names', other)
              == if other == name || other in names then NameIndex(names, other) else |names'|
    {
      FirstIndex(names', other, NameIndex(names', other));
      if other == name || other in names {
        FirstIndex(names', other, NameIndex(names, other));
      }
    }
  }

  /** json_object_set_new and json_object_set_value: obj refers to the value itself, not to a copy. */
  method SetMember(obj: Node, name: string, val: Node)
    requires obj.cell.ObjectCell?
    modifies obj
    ensures obj.cell == ObjectCell(WithMember(old(obj.cell.members), name, val))
  {
    obj.cell := ObjectCell(WithMember(obj.cell.members, name, val));
  }

  /** json_array_append and json_array_append_value. */
  method Append(arr: Node, val: Node)
    requires arr.cell.ArrayCell?
    modifies arr
    ensures arr.cell == ArrayCell(old(arr.cell.elems) + [val])
  {
    arr.cell := ArrayCell(arr.cell.elems + [val]);
  }

  /** The tree of a string or number. */
  function Leaf(cell: Cell): Json
    requires cell.StringCell? || cell.IntCell?
  {
    match cell
    case StringCell(text) => Str(text)
    case IntCell(n) => Int(n)
  }

  // ----- Ownership -----

  /** How many nodes a cell refers to, and which. */
  function CellWidth(cell: Cell): nat {
    match cell
    case ObjectCell(members) => |members|
    case ArrayCell(elems) => |elems|
    case _ => 0
  }

  function ChildNode(cell: Cell, i: nat): Node
    requires i < CellWidth(cell)
  {
    if cell.ObjectCell? then cell.members[i].val else cell.elems[i]
  }

  lemma ChildShows(v: Node, t: Json, space: set<Node>, i: nat)
    requires Shows(v, t, space) && i < t.Width()
    ensures CellWidth(v.cell) == t.Width() && Shows(ChildNode(v.cell, i), t.Child(i), space)
  {
  }

  /** What one json_value_free on v gives back: everything owned below it, child by child, then v. */
  ghost function Owned(v: Node, t: Json, space: set<Node>): seq<Node>
    requires Shows(v, t, space)
    reads space
    decreases t, t.Width() + 1
  {
    OwnedChildren(v, t, space, t.Width()) + [v]
  }

  /** The nodes given back for the first k children of v. */
  ghost function OwnedChildren(v: Node, t: Json, space: set<Node>, k: nat): seq<Node>
    requires Shows(v, t, space) && k <= t.Width()
    reads space
    decreases t, k
  {
    if k == 0 then []
    else
      ChildShows(v, t, space, k - 1);
      OwnedChildren(v, t, space, k - 1) + Owned(ChildNode(v.cell, k - 1), t.Child(k - 1), space)
  }
}
