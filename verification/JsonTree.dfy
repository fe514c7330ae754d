/**
  * JSON values as trees. An object is an ordered list of entries; the jansson and parson trees
  * of a message agree except that parson has one kind of number.
  */
module JsonTree {
  import opened Words

  datatype Entry = Entry(key: string, val: Json)

  datatype Json =
    | Object(entries: seq<Entry>)
    | Array(items: seq<Json>)
    | Str(text: string)
    | Int(n: int)
    | Real(r: real)
    | True
    | False
    | Null
  {
    predicate IsContainer() {
      Object? || Array?
    }

    /** How many entries or elements a container has; other values have none. */
    function Width(): nat {
      match this
      case Object(entries) => |entries|
      case Array(items) => |items|
      case _ => 0
    }

    function Child(i: nat): (c: Json)
      requires i < Width()
    {
      if Object? then entries[i].val else items[i]
    }
  }

  /** The entry names of an object are distinct. */
  predicate UniqueKeys(entries: seq<Entry>) {
    forall i, j :: 0 <= i < j < |entries| ==> entries[i].key != entries[j].key
  }

  /** json_object_get and json_object_get_value: none unless t is an object with that entry. */
  function Get(t: Json, key: string): Option<Json> {
    if t.Object? then GetEntry(t.entries, key) else None
  }

  /** v is what an object has under a key: the value of the first entry with that key. */
  ghost predicate Field(t: Json, key: string, v: Json) {
    && t.Object?
    && exists i :: 0 <= i < |t.entries| && t.entries[i] == Entry(key, v)
                   && forall j :: 0 <= j < i ==> t.entries[j].key != key
  }

  /** Looking a key up finds exactly what the object has under it. */
  lemma {:induction false} GetIsField(t: Json, key: string, v: Json)
    ensures Get(t, key) == Some(v) <==> Field(t, key, v)
    decreases t.Width()
  {
    if t.Object? && t.entries != [] {
      var e, rest := t.entries[0], Object(t.entries[1..]);
      if e.key != key {
        GetIsFieldOfRest(t, key, v);
        GetIsField(rest, key, v);
      }
    }
  }

  lemma GetIsFieldOfRest(t: Json, key: string, v: Json)
    requires t.Object? && t.entries != [] && t.entries[0].key != key
    ensures Field(t, key, v) <==> Field(Object(t.entries[1..]), key, v)
  {
    var rest := Object(t.entries[1..]);
    if Field(t, key, v) {
      var i :| 0 <= i < |t.entries| && t.entries[i] == Entry(key, v)
               && forall j :: 0 <= j < i ==> t.entries[j].key != key;
      assert rest.entries[i - 1] == Entry(key, v);
      assert forall j :: 0 <= j < i - 1 ==> rest.entries[j] == t.entries[j + 1];
    }
    if Field(rest, key, v) {
      var i :| 0 <= i < |rest.entries| && rest.entries[i] == Entry(key, v)
               && forall j :: 0 <= j < i ==> rest.entries[j].key != key;
      assert t.entries[i + 1] == Entry(key, v);
      assert forall j :: 0 < j < i + 1 ==> t.entries[j] == rest.entries[j - 1];
    }
  }

  /** The value under a name of the object found under another name. */
  function Nested(t: Json, outer: string, inner: string): Option<Json> {
    match Get(t, outer)
    case Some(v) => Get(v, inner)
    case None => None
  }

  function GetEntry(entries: seq<Entry>, key: string): (v: Option<Json>)
    ensures v.None? ==> forall i :: 0 <= i < |entries| ==> entries[i].key != key
    ensures v.Some? ==> exists i :: 0 <= i < |entries| && entries[i] == Entry(key, v.value)
  {
    if entries == [] then None
    else if entries[0].key == key then
      assert entries[0] == Entry(key, entries[0].val);
      Some(entries[0].val)
    else
      var v := GetEntry(entries[1..], key);
      assert v.Some? ==> forall i :: 0 <= i < |entries[1..]| ==> entries[1..][i] == entries[i + 1];
      v
  }

  lemma {:induction false} GetUnique(entries: seq<Entry>, i: nat)
    requires i < |entries| && UniqueKeys(entries)
    ensures GetEntry(entries, entries[i].key) == Some(entries[i].val)
  {
    if i > 0 {
      assert entries[1..][i - 1] == entries[i];
      GetUnique(entries[1..], i - 1);
    }
  }

  /** strchr: where c first occurs in s, or the length of s. */
  function IndexOf(s: string, c: char): (k: nat)
    ensures k <= |s| && forall i :: 0 <= i < k ==> s[i] != c
    ensures k < |s| ==> s[k] == c
  {
    if c in s then
      FirstOccurs(s, c);
      var k: nat :| k < |s| && s[k] == c && forall i :: 0 <= i < k ==> s[i] != c;
      k
    else |s|
  }

  lemma {:induction false} FirstOccurs(s: string, c: char)
    requires c in s
    ensures exists k: nat :: k < |s| && s[k] == c && forall i :: 0 <= i < k ==> s[i] != c
  {
    var n := |s| - 1;
    if c in s[..n] {
      FirstOccurs(s[..n], c);
      var k: nat :| k < n && s[..n][k] == c && forall i :: 0 <= i < k ==> s[..n][i] != c;
      assert forall i :: 0 <= i < k ==> s[i] == s[..n][i];
    } else {
      assert s == s[..n] + [s[n]];
    }
  }

  /**
    * json_object_dotget_value and its like: up to the first dot, the name of an object to look in; without a dot,
    * a name like any other.
    */
  function DotLookup(t: Json, name: string): Option<Json>
    decreases |name|
  {
    var dot := IndexOf(name, '.');
    if dot == |name| then Get(t, name)
    else
      match Get(t, name[..dot])
      case Some(inner) => DotLookup(inner, name[dot + 1..])
      case None => None
  }

  /** A name with one dot has two parts. */
  lemma OneDot(outer: string, inner: string)
    requires '.' !in outer && '.' !in inner
    ensures var name := outer + "." + inner;
            var dot := IndexOf(name, '.');
            dot < |name| && name[..dot] == outer && name[dot + 1..] == inner
  {
    var name := outer + "." + inner;
    var dot := IndexOf(name, '.');
    assert name[|outer|] == '.' && forall i :: 0 <= i < |outer| ==> name[i] == outer[i] != '.';
  }

  lemma TwoNames(t: Json, outer: string, inner: string)
    requires '.' !in outer && '.' !in inner
    ensures DotLookup(t, outer + "." + inner) == Nested(t, outer, inner)
  {
    OneDot(outer, inner);
    assert IndexOf(inner, '.') == |inner|;
  }
}
