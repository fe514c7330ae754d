/**
  * json_example/src/mb_data_message.cpp: what one unsupported value does to the calls made for the
  * rest of the document. err is passed by value, so the loop that stops is the only one that knows.
  */
module JsonStop {
  import opened Words
  import opened JsonTree
  import opened JsonWalk

  function SetChild(t: Json, i: nat, c: Json): Json
    requires i < t.Width()
  {
    if t.Object? then Object(t.entries[i := Entry(t.entries[i].key, c)]) else Array(t.items[i := c])
  }

  /** t with the subtree at path c replaced. */
  function Replace(t: Json, c: Path, s: Json): Json
    requires At(t, c).Some?
    decreases |c|
  {
    if c == [] then s else SetChild(t, c[0], Replace(t.Child(c[0]), c[1..], s))
  }

  /** A container with one more value before entry i; key names it if the container is an object. */
  function Insert(u: Json, i: nat, key: string, bad: Json): Json
    requires u.IsContainer() && i <= u.Width()
  {
    if u.Object? then Object(u.entries[..i] + [Entry(key, bad)] + u.entries[i..])
    else Array(u.items[..i] + [bad] + u.items[i..])
  }

  predicate UnsupportedIn(u: Json, bad: Json) {
    if u.Object? then bad.True? || bad.False? || bad.Null? else !bad.IsContainer()
  }

  /** The calls made before the walk is done with what precedes the container at path c. */
  function Ahead(t: Json, c: Path): seq<uint16>
    requires At(t, c).Some?
    decreases |c|
  {
    if c == [] then []
    else Span(t, 0, c[0]) + if Clear(t, 0, c[0]) then Ahead(t.Child(c[0]), c[1..]) else []
  }

  /** The calls made after the walk has left the container at path c. */
  function Behind(t: Json, c: Path): seq<uint16>
    requires At(t, c).Some?
    decreases |c|
  {
    if c == [] || !Clear(t, 0, c[0]) then []
    else Behind(t.Child(c[0]), c[1..]) + Span(t, c[0] + 1, t.Width())
  }

  /** The calls for the entries of u from i on, if the loop gets that far. */
  function Tail(u: Json, i: nat): seq<uint16>
    requires i <= u.Width()
  {
    if Clear(u, 0, i - 1) then Span(u, i, u.Width()) else []
  }

  lemma {:induction false} SpanSplit(t: Json, lo: nat, mid: nat, hi: nat)
    requires lo <= mid <= hi <= t.Width()
    ensures Span(t, lo, hi) == Span(t, lo, mid) + if Clear(t, lo, mid - 1) then Span(t, mid, hi) else []
    decreases mid - lo
  {
    hide Own, Supported;
    if lo < mid {
      if Supported(t, lo) {
        SpanSplit(t, lo + 1, mid, hi);
        assert Clear(t, lo, mid - 1) <==> Clear(t, lo + 1, mid - 1);
        var head := Own(t, lo) + Walk(t.Child(lo));
        assert Span(t, lo, hi) == head + Span(t, lo + 1, hi);
        assert Span(t, lo, mid) == head + Span(t, lo + 1, mid);
        Associative(head, Span(t, lo + 1, mid), Span(t, mid, hi));
      } else {
        assert !Clear(t, lo, mid - 1);
      }
    } else {
      assert Clear(t, lo, mid - 1);
    }
  }

  predicate SameEntry(t: Json, u: Json, i: nat)
    requires i < t.Width() && i < u.Width()
  {
    (t.Object? && u.Object? && t.entries[i] == u.entries[i])
    || (t.Array? && u.Array? && t.items[i] == u.items[i])
  }

  lemma {:induction false} SpanSame(t: Json, u: Json, lo: nat, hi: nat)
    requires lo <= hi <= t.Width() && hi <= u.Width()
    requires forall i :: lo <= i < hi ==> SameEntry(t, u, i)
    ensures Span(t, lo, hi) == Span(u, lo, hi)
    decreases hi - lo
  {
    if lo < hi {
      assert SameEntry(t, u, lo);
      SpanSame(t, u, lo + 1, hi);
    }
  }

  /** Swapping one container for another leaves every other entry and every verdict on entries as it was. */
  lemma SetChildFrame(t: Json, i: nat, c: Json)
    requires i < t.Width() && c.IsContainer() && t.Child(i).IsContainer()
    ensures var t' := SetChild(t, i, c);
            && t'.Width() == t.Width() && t'.Child(i) == c
            && (forall j :: 0 <= j < t.Width() && j != i ==> SameEntry(t, t', j))
            && (Clear(t', 0, i) <==> Clear(t, 0, i))
  {
    var t' := SetChild(t, i, c);
    forall j | 0 <= j < t.Width() && j != i
      ensures SameEntry(t, t', j)
    {
    }
    assert forall j :: 0 <= j < t.Width() ==> (Supported(t', j) <==> Supported(t, j));
  }

  lemma SetChildSpans(t: Json, i: nat, c: Json)
    requires i < t.Width() && c.IsContainer() && t.Child(i).IsContainer()
    ensures var t' := SetChild(t, i, c);
            Span(t', 0, i) == Span(t, 0, i) && Span(t', i + 1, t.Width()) == Span(t, i + 1, t.Width())
  {
    hide SetChild, Span, SameEntry, Clear;
    var t' := SetChild(t, i, c);
    SetChildFrame(t, i, c);
    SpanSame(t, t', 0, i);
    SpanSame(t, t', i + 1, t.Width());
  }

  /** The calls of one loop around entry i, a container. */
  lemma SpanAround(t: Json, i: nat)
    requires i < t.Width() && t.Child(i).IsContainer()
    ensures Walk(t) == Span(t, 0, i) + if Clear(t, 0, i) then Walk(t.Child(i)) + Span(t, i + 1, t.Width()) else []
  {
    SpanSplit(t, 0, i, t.Width());
    SpanStep(t, i);
    assert Clear(t, 0, i) <==> Clear(t, 0, i - 1);
  }

  /** What surrounds a container decides its own calls and nothing more. */
  lemma {:induction false} Surroundings(t: Json, c: Path, s: Json)
    requires At(t, c).Some? && At(t, c).value.IsContainer() && s.IsContainer()
    ensures Walk(Replace(t, c, s)) == Ahead(t, c) + (if Passes(t, c) then Walk(s) else []) + Behind(t, c)
    decreases |c|
  {
    if c == [] {
      assert Replace(t, c, s) == s;
    } else {
      ReplaceKeepsContainer(t.Child(c[0]), c[1..], s);
      Surroundings(t.Child(c[0]), c[1..], s);
      SurroundingsStep(t, c, s);
      if Clear(t, 0, c[0]) {
        var i, inner := c[0], t.Child(c[0]);
        var mid := if Passes(inner, c[1..]) then Walk(s) else [];
        var before, ahead, behind, after :=
          Span(t, 0, i), Ahead(inner, c[1..]), Behind(inner, c[1..]), Span(t, i + 1, t.Width());
        Regroup(before, ahead, mid, behind, after);
      }
    }
  }

  lemma Regroup<T>(before: seq<T>, ahead: seq<T>, mid: seq<T>, behind: seq<T>, after: seq<T>)
    ensures before + ((ahead + mid + behind) + after) == (before + ahead) + mid + (behind + after)
  {
  }

  lemma SurroundingsStep(t: Json, c: Path, s: Json)
    requires c != [] && At(t, c).Some? && t.Child(c[0]).IsContainer()
    requires Replace(t.Child(c[0]), c[1..], s).IsContainer()
    ensures var inner := Replace(t.Child(c[0]), c[1..], s);
            && (Passes(t, c) <==> Clear(t, 0, c[0]) && Passes(t.Child(c[0]), c[1..]))
            && Walk(Replace(t, c, s))
               == Span(t, 0, c[0])
                  + if Clear(t, 0, c[0]) then Walk(inner) + Span(t, c[0] + 1, t.Width()) else []
  {
    var inner := Replace(t.Child(c[0]), c[1..], s);
    SetChildFrame(t, c[0], inner);
    SetChildSpans(t, c[0], inner);
    SpanAround(SetChild(t, c[0], inner), c[0]);
    PassesPeeled(t, c);
  }

  lemma ReplaceKeepsContainer(t: Json, c: Path, s: Json)
    requires At(t, c).Some? && At(t, c).value.IsContainer() && s.IsContainer()
    ensures t.IsContainer() && Replace(t, c, s).IsContainer()
  {
  }

  lemma {:induction false} ReplaceBySelf(t: Json, c: Path)
    requires At(t, c).Some?
    ensures Replace(t, c, At(t, c).value) == t
    decreases |c|
  {
    if c != [] {
      ReplaceBySelf(t.Child(c[0]), c[1..]);
    }
  }

  lemma InsertStops(u: Json, i: nat, key: string, bad: Json)
    requires u.IsContainer() && i <= u.Width() && UnsupportedIn(u, bad)
    ensures Walk(u) == Span(u, 0, i) + Tail(u, i)
    ensures Walk(Insert(u, i, key, bad)) == Span(u, 0, i)
  {
    var v := Insert(u, i, key, bad);
    SpanSplit(u, 0, i, u.Width());
    assert forall j :: 0 <= j < i ==> SameEntry(u, v, j);
    SpanSame(u, v, 0, i);
    SpanSplit(v, 0, i, v.Width());
    assert v.Child(i) == bad;
    assert Span(v, i, v.Width()) == [];
  }

  /**
    * A stop is contained. Put an unsupported value before entry i of the container at any path of any
    * document: the calls for that container's entries from i on disappear, and every call made before
    * or after the container stays.
    */
  lemma StopIsContained(t: Json, c: Path, i: nat, key: string, bad: Json)
    requires At(t, c).Some?
    requires var u := At(t, c).value; u.IsContainer() && i <= u.Width() && UnsupportedIn(u, bad)
    ensures var u := At(t, c).value;
            && Walk(t) == Ahead(t, c) + (if Passes(t, c) then Span(u, 0, i) + Tail(u, i) else []) + Behind(t, c)
            && Walk(Replace(t, c, Insert(u, i, key, bad)))
               == Ahead(t, c) + (if Passes(t, c) then Span(u, 0, i) else []) + Behind(t, c)
  {
    var u := At(t, c).value;
    ReplaceBySelf(t, c);
    Surroundings(t, c, u);
    Surroundings(t, c, Insert(u, i, key, bad));
    InsertStops(u, i, key, bad);
  }
}
