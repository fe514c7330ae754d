/**
  * json_example/src/mb_data_message.cpp: what parse_object and parse_array call back for a tree,
  * as one function of the tree, and the path-based account of it.
  */
module JsonWalk {
  import opened Words
  import opened JsonTree

  const READING_KEY := "value_dat"

  /** strncmp(key, "value_data", 9) == 0 looks at nine characters only. */
  predicate IsReadingKey(key: string) {
    READING_KEY <= key
  }

  /** The nine characters are those of "value_dat". */
  lemma ReadingKeyMeaning(key: string)
    ensures IsReadingKey(key) <==> |key| >= 9 && key[..9] == "value_dat"
  {
    assert |READING_KEY| == 9;
  }

  /** The kinds the switch of parse_object or parse_array has a case for. */
  predicate Supported(t: Json, i: nat)
    requires i < t.Width()
  {
    if t.Object? then !(t.Child(i).True? || t.Child(i).False? || t.Child(i).Null?)
    else t.Child(i).IsContainer()
  }

  predicate IsReading(t: Json, i: nat)
    requires i < t.Width()
  {
    t.Object? && IsReadingKey(t.entries[i].key) && t.Child(i).Int?
  }

  /** An array may hold objects and arrays; an object anything but true, false and null. */
  lemma SupportedKinds(t: Json, i: nat)
    requires i < t.Width()
    ensures var c := if t.Object? then t.entries[i].val else t.items[i];
            Supported(t, i) <==>
              c.Object? || c.Array? || (t.Object? && (c.Str? || c.Int? || c.Real?))
    ensures IsReading(t, i) <==>
              t.Object? && t.entries[i].val.Int? && |t.entries[i].key| >= 9 && t.entries[i].key[..9] == "value_dat"
  {
    if t.Object? {
      ReadingKeyMeaning(t.entries[i].key);
    }
  }

  /** The call made for entry i itself. */
  function Own(t: Json, i: nat): seq<uint16>
    requires i < t.Width()
  {
    if IsReading(t, i) then [ToUint16(t.Child(i).n)] else []
  }

  /** The calls of the loop over entries lo..hi of t, which stops at the first unsupported entry. */
  function Span(t: Json, lo: nat, hi: nat): seq<uint16>
    requires hi <= t.Width()
    decreases t, hi - lo
  {
    if lo >= hi || !Supported(t, lo) then []
    else Own(t, lo) + Span(t.Child(lo), 0, t.Child(lo).Width()) + Span(t, lo + 1, hi)
  }

  /** All calls for a tree, in order. */
  function Walk(t: Json): seq<uint16> {
    Span(t, 0, t.Width())
  }

  /** One turn of the loop, by the kind of the entry. */
  lemma SpanStep(t: Json, i: nat)
    requires i < t.Width()
    ensures t.Child(i).IsContainer() ==>
              Supported(t, i) && Span(t, i, t.Width()) == Walk(t.Child(i)) + Span(t, i + 1, t.Width())
    ensures !t.Child(i).IsContainer() && Supported(t, i) ==>
              Span(t, i, t.Width()) == Own(t, i) + Span(t, i + 1, t.Width())
    ensures !Supported(t, i) ==> Span(t, i, t.Width()) == []
  {
    if t.Child(i).IsContainer() {
      assert Own(t, i) == [];
    } else {
      assert Walk(t.Child(i)) == [];
    }
  }

  /** Calls already made, followed by those of the loop from entry i on, are all the calls there will be. */
  predicate Remaining(made: seq<uint16>, t: Json, i: nat, total: seq<uint16>) {
    i <= t.Width() && made + Span(t, i, t.Width()) == total
  }

  lemma RemainingStep(made: seq<uint16>, t: Json, i: nat, total: seq<uint16>)
    requires i < t.Width() && Remaining(made, t, i, total)
    ensures t.Child(i).IsContainer() ==> Remaining(made + Walk(t.Child(i)), t, i + 1, total)
    ensures !t.Child(i).IsContainer() && Supported(t, i) ==> Remaining(made + Own(t, i), t, i + 1, total)
    ensures !Supported(t, i) ==> made == total
  {
    SpanStep(t, i);
    Associative(made, Walk(t.Child(i)), Span(t, i + 1, t.Width()));
    Associative(made, Own(t, i), Span(t, i + 1, t.Width()));
  }

  lemma Associative<T>(a: seq<T>, b: seq<T>, c: seq<T>)
    ensures (a + b) + c == a + (b + c)
  {
  }

  // ----- Paths -----

  type Path = seq<nat>

  /** The subtree a path leads to. */
  function At(t: Json, p: Path): Option<Json>
    decreases |p|
  {
    if p == [] then Some(t)
    else if p[0] < t.Width() then At(t.Child(p[0]), p[1..])
    else None
  }

  /** Entries lo..i of t are all supported. */
  predicate Clear(t: Json, lo: nat, i: int) {
    forall j :: lo <= j <= i && j < t.Width() ==> Supported(t, j)
  }

  /** The first k steps of p lead to a container in which no unsupported entry precedes the next step. */
  predicate PassesStep(t: Json, p: Path, k: nat)
    requires k < |p|
  {
    match At(t, p[..k])
    case Some(c) => p[k] < c.Width() && Clear(c, 0, p[k])
    case None => false
  }

  predicate Passes(t: Json, p: Path) {
    forall k :: 0 <= k < |p| ==> PassesStep(t, p, k)
  }

  /** p leads to an integer under a key that starts with "value_dat". */
  predicate IsReadingPath(t: Json, p: Path) {
    |p| > 0 && At(t, p[..|p| - 1]).Some?
    && var c := At(t, p[..|p| - 1]).value; p[|p| - 1] < c.Width() && IsReading(c, p[|p| - 1])
  }

  predicate Fires(t: Json, p: Path) {
    IsReadingPath(t, p) && Passes(t, p)
  }

  function ReadingAt(t: Json, p: Path): uint16
    requires IsReadingPath(t, p)
  {
    ToUint16(At(t, p[..|p| - 1]).value.Child(p[|p| - 1]).n)
  }

  /** Document order of paths. */
  predicate Before(p: Path, q: Path) {
    q != [] && (p == [] || p[0] < q[0] || (p[0] == q[0] && Before(p[1..], q[1..])))
  }

  predicate InOrder(ps: seq<Path>) {
    forall i, j :: 0 <= i < j < |ps| ==> Before(ps[i], ps[j])
  }

  /** ps are the firing paths of t, each once, in document order. */
  ghost predicate ListsFiringPaths(t: Json, ps: seq<Path>) {
    && InOrder(ps)
    && (forall p :: p in ps ==> Fires(t, p))
    && (forall p :: Fires(t, p) ==> p in ps)
  }

  /** The readings found at paths, one after the other; a path that leads to none adds nothing. */
  function ReadingsAt(t: Json, ps: seq<Path>): seq<uint16> {
    if ps == [] then []
    else (if IsReadingPath(t, ps[0]) then [ReadingAt(t, ps[0])] else []) + ReadingsAt(t, ps[1..])
  }

  // ----- The loop meets the path-based account -----

  /** Fires, with the steps peeled off one at a time and the outer loop starting at entry lo. */
  predicate FiresFrom(t: Json, lo: nat, p: Path)
    decreases |p|
  {
    |p| > 0 && lo <= p[0] < t.Width() && Clear(t, lo, p[0])
    && if |p| == 1 then IsReading(t, p[0]) else FiresFrom(t.Child(p[0]), 0, p[1..])
  }

  lemma AtStep(t: Json, p: Path, k: nat)
    requires 0 < k <= |p| && p[0] < t.Width()
    ensures At(t, p[..k]) == At(t.Child(p[0]), p[1..][..k - 1])
  {
    assert p[..k][1..] == p[1..][..k - 1];
  }

  lemma {:induction false} FiresPeeled(t: Json, p: Path)
    ensures Fires(t, p) <==> FiresFrom(t, 0, p)
    ensures |p| > 1 && p[0] < t.Width() ==> (IsReadingPath(t, p) <==> IsReadingPath(t.Child(p[0]), p[1..]))
    decreases |p|
  {
    if |p| == 1 {
      assert p[..0] == [];
      assert PassesStep(t, p, 0) <==> p[0] < t.Width() && Clear(t, 0, p[0]);
      assert Passes(t, p) <==> PassesStep(t, p, 0);
    } else if |p| > 1 {
      assert p[..0] == [];
      if p[0] < t.Width() {
        FiresPeeled(t.Child(p[0]), p[1..]);
        PassesPeeled(t, p);
        AtStep(t, p, |p| - 1);
      } else {
        assert !PassesStep(t, p, 0);
      }
    }
  }

  lemma PassesPeeled(t: Json, p: Path)
    requires |p| > 0 && p[0] < t.Width()
    ensures Passes(t, p) <==> Clear(t, 0, p[0]) && Passes(t.Child(p[0]), p[1..])
  {
    assert p[..0] == [];
    assert PassesStep(t, p, 0) <==> Clear(t, 0, p[0]);
    forall k | 1 <= k < |p|
      ensures PassesStep(t, p, k) <==> PassesStep(t.Child(p[0]), p[1..], k - 1)
    {
      AtStep(t, p, k);
    }
    if Clear(t, 0, p[0]) && Passes(t.Child(p[0]), p[1..]) {
      forall k | 0 <= k < |p|
        ensures PassesStep(t, p, k)
      {
        if k > 0 {
          assert PassesStep(t.Child(p[0]), p[1..], k - 1);
        }
      }
    }
    if Passes(t, p) {
      forall k | 0 <= k < |p[1..]|
        ensures PassesStep(t.Child(p[0]), p[1..], k)
      {
        assert PassesStep(t, p, k + 1);
      }
    }
  }

  function Prefixed(i: nat, ps: seq<Path>): (qs: seq<Path>)
    ensures |qs| == |ps|
    ensures forall k :: 0 <= k < |ps| ==> qs[k] == [i] + ps[k]
  {
    seq(|ps|, k requires 0 <= k < |ps| => [i] + ps[k])
  }

  /** The paths at which the loop over t from entry lo on calls back, in the order of the calls. */
  function Trace(t: Json, lo: nat): seq<Path>
    decreases t, t.Width() - lo
  {
    if lo >= t.Width() || !Supported(t, lo) then []
    else OwnPaths(t, lo) + Prefixed(lo, Trace(t.Child(lo), 0)) + Trace(t, lo + 1)
  }

  function OwnPaths(t: Json, i: nat): seq<Path>
    requires i < t.Width()
  {
    if IsReading(t, i) then [[i]] else []
  }

  lemma {:induction false} TraceFires(t: Json, lo: nat, p: Path)
    ensures p in Trace(t, lo) <==> FiresFrom(t, lo, p)
    decreases t, t.Width() - lo
  {
    hide Supported, OwnPaths, Prefixed;
    if lo < t.Width() && Supported(t, lo) {
      TraceFires(t, lo + 1, p);
      InPrefixed(lo, Trace(t.Child(lo), 0), p);
      if |p| > 0 && p[0] == lo {
        TraceFires(t.Child(lo), 0, p[1..]);
        FiresAtHead(t, lo, p);
      } else {
        FiresLater(t, lo, p);
      }
    }
  }

  lemma InPrefixed(i: nat, ps: seq<Path>, p: Path)
    ensures p in Prefixed(i, ps) <==> |p| > 0 && p[0] == i && p[1..] in ps
  {
    if |p| > 0 && p[0] == i && p[1..] in ps {
      var k :| 0 <= k < |ps| && ps[k] == p[1..];
      assert Prefixed(i, ps)[k] == p;
    }
    if p in Prefixed(i, ps) {
      var k :| 0 <= k < |ps| && Prefixed(i, ps)[k] == p;
      assert ps[k] == p[1..];
    }
  }

  lemma FiresAtHead(t: Json, lo: nat, p: Path)
    requires lo < t.Width() && Supported(t, lo) && |p| > 0 && p[0] == lo
    ensures FiresFrom(t, lo, p) <==> p in OwnPaths(t, lo) || FiresFrom(t.Child(lo), 0, p[1..])
    ensures !FiresFrom(t, lo + 1, p)
  {
    if |p| == 1 {
      assert p == [lo];
    }
  }

  lemma FiresLater(t: Json, lo: nat, p: Path)
    requires lo < t.Width() && Supported(t, lo) && (|p| > 0 ==> p[0] != lo)
    ensures FiresFrom(t, lo, p) <==> FiresFrom(t, lo + 1, p)
    ensures p !in OwnPaths(t, lo)
  {
  }

  lemma TraceFiresAll(t: Json, lo: nat)
    ensures forall p :: p in Trace(t, lo) <==> FiresFrom(t, lo, p)
  {
    forall p
      ensures p in Trace(t, lo) <==> FiresFrom(t, lo, p)
    {
      TraceFires(t, lo, p);
    }
  }

  lemma {:induction false} TraceInOrder(t: Json, lo: nat)
    ensures InOrder(Trace(t, lo))
    decreases t, t.Width() - lo
  {
    if lo < t.Width() && Supported(t, lo) {
      var own := OwnPaths(t, lo);
      var deep, rest := Prefixed(lo, Trace(t.Child(lo), 0)), Trace(t, lo + 1);
      TraceInOrder(t.Child(lo), 0);
      TraceInOrder(t, lo + 1);
      TraceFiresAll(t.Child(lo), 0);
      TraceFiresAll(t, lo + 1);
      forall i, j | 0 <= i < j < |deep|
        ensures Before(deep[i], deep[j])
      {
        assert deep[i][1..] == Trace(t.Child(lo), 0)[i] && deep[j][1..] == Trace(t.Child(lo), 0)[j];
      }
      assert InOrder(deep);
      assert own == [] || deep == [];
      forall j | 0 <= j < |rest|
        ensures |rest[j]| > 0 && rest[j][0] > lo
      {
        assert rest[j] in rest;
      }
    }
  }

  lemma OwnReadings(t: Json, i: nat)
    requires i < t.Width()
    ensures ReadingsAt(t, OwnPaths(t, i)) == Own(t, i)
    ensures IsReading(t, i) ==> Trace(t.Child(i), 0) == [] && Walk(t.Child(i)) == []
  {
    if IsReading(t, i) {
      assert [i][..0] == [];
      assert [[i]][1..] == [];
      assert IsReadingPath(t, [i]) && ReadingAt(t, [i]) == ToUint16(t.Child(i).n);
    }
  }

  /** The calls of the loop are the readings at the paths of its trace. */
  lemma {:induction false} TraceReadings(t: Json, lo: nat)
    ensures ReadingsAt(t, Trace(t, lo)) == Span(t, lo, t.Width())
    decreases t, t.Width() - lo
  {
    hide Own, OwnPaths, Supported, IsReading, IsReadingPath;
    if lo < t.Width() && Supported(t, lo) {
      var own, deep, rest := OwnPaths(t, lo), Prefixed(lo, Trace(t.Child(lo), 0)), Trace(t, lo + 1);
      TraceReadings(t, lo + 1);
      TraceReadings(t.Child(lo), 0);
      OwnReadings(t, lo);
      DeepReadings(t, lo, Trace(t.Child(lo), 0));
      ReadingsConcat(t, own, deep);
      ReadingsConcat(t, own + deep, rest);
    }
  }

  lemma DeepReadings(t: Json, i: nat, trace: seq<Path>)
    requires i < t.Width() && trace == Trace(t.Child(i), 0) && ReadingsAt(t.Child(i), trace) == Walk(t.Child(i))
    ensures ReadingsAt(t, Prefixed(i, trace)) == Walk(t.Child(i))
  {
    OwnReadings(t, i);
    if !IsReading(t, i) {
      ReadingsPrefixed(t, i, trace);
    }
  }

  lemma {:induction false} ReadingsConcat(t: Json, ps: seq<Path>, qs: seq<Path>)
    ensures ReadingsAt(t, ps + qs) == ReadingsAt(t, ps) + ReadingsAt(t, qs)
  {
    hide IsReadingPath, ReadingAt;
    if ps == [] {
      assert ps + qs == qs;
    } else {
      var head := if IsReadingPath(t, ps[0]) then [ReadingAt(t, ps[0])] else [];
      assert (ps + qs)[1..] == ps[1..] + qs && (ps + qs)[0] == ps[0];
      ReadingsConcat(t, ps[1..], qs);
      assert ReadingsAt(t, ps + qs) == head + ReadingsAt(t, ps[1..] + qs);
      Associative(head, ReadingsAt(t, ps[1..]), ReadingsAt(t, qs));
    }
  }

  lemma {:induction false} ReadingsPrefixed(t: Json, i: nat, ps: seq<Path>)
    requires i < t.Width() && !IsReading(t, i)
    ensures ReadingsAt(t, Prefixed(i, ps)) == ReadingsAt(t.Child(i), ps)
  {
    if ps != [] {
      assert Prefixed(i, ps)[1..] == Prefixed(i, ps[1..]);
      ReadingsPrefixed(t, i, ps[1..]);
      ReadingBelow(t, i, ps[0]);
    }
  }

  lemma ReadingBelow(t: Json, i: nat, p: Path)
    requires i < t.Width() && !IsReading(t, i)
    ensures IsReadingPath(t, [i] + p) <==> IsReadingPath(t.Child(i), p)
    ensures IsReadingPath(t.Child(i), p) ==> ReadingAt(t, [i] + p) == ReadingAt(t.Child(i), p)
  {
    var q := [i] + p;
    assert q[1..] == p;
    if p == [] {
      assert q[..0] == [];
    } else {
      AtStep(t, q, |q| - 1);
    }
  }

  lemma {:induction false} ReadingsOnePerPath(t: Json, ps: seq<Path>)
    requires forall p :: p in ps ==> IsReadingPath(t, p)
    ensures |ReadingsAt(t, ps)| == |ps|
    ensures forall k :: 0 <= k < |ps| ==> ps[k] in ps && ReadingsAt(t, ps)[k] == ReadingAt(t, ps[k])
  {
    if ps != [] {
      assert ps[0] in ps;
      forall p | p in ps[1..]
        ensures IsReadingPath(t, p)
      {
        assert p in ps;
      }
      ReadingsOnePerPath(t, ps[1..]);
    }
  }

  // ----- Sorted lists are determined by their elements -----

  lemma {:induction false} BeforeIrreflexive(p: Path)
    ensures !Before(p, p)
  {
    if p != [] {
      BeforeIrreflexive(p[1..]);
    }
  }

  lemma {:induction false} BeforeTransitive(p: Path, q: Path, r: Path)
    requires Before(p, q) && Before(q, r)
    ensures Before(p, r)
  {
    if p != [] && p[0] == q[0] == r[0] {
      BeforeTransitive(p[1..], q[1..], r[1..]);
    }
  }

  lemma {:induction false} SameElementsSameList(ps: seq<Path>, qs: seq<Path>)
    requires InOrder(ps) && InOrder(qs)
    requires forall p :: p in ps <==> p in qs
    ensures ps == qs
  {
    if |ps| > 0 {
      assert ps[0] in qs;
    }
    if |qs| > 0 {
      assert qs[0] in ps;
    }
    if |ps| > 0 {
      if ps[0] != qs[0] {
        assert Before(qs[0], ps[0]) && Before(ps[0], qs[0]);
        BeforeTransitive(ps[0], qs[0], ps[0]);
        BeforeIrreflexive(ps[0]);
        assert false;
      }
      forall p
        ensures p in ps[1..] <==> p in qs[1..]
      {
        BeforeIrreflexive(ps[0]);
        assert forall i :: 0 < i < |ps| ==> Before(ps[0], ps[i]);
        assert forall i :: 0 < i < |qs| ==> Before(qs[0], qs[i]);
        assert p in ps[1..] <==> p in ps && p != ps[0];
        assert p in qs[1..] <==> p in qs && p != qs[0];
      }
      SameElementsSameList(ps[1..], qs[1..]);
    }
  }

  /**
    * The walk is exact. Whatever the tree, list in document order the paths that lead to an integer under
    * a "value_dat" key and pass, at every container, only entries before its first unsupported one: the
    * walk calls back once for each, in that order, with the value modulo 2^16, and for nothing else.
    */
  lemma WalkIsExact(t: Json, ps: seq<Path>)
    requires ListsFiringPaths(t, ps)
    ensures Walk(t) == ReadingsAt(t, ps)
    ensures |Walk(t)| == |ps|
    ensures forall k :: 0 <= k < |ps| ==> Fires(t, ps[k]) && Walk(t)[k] == ReadingAt(t, ps[k])
  {
    var trace := FiringPathsListed(t);
    SameElementsSameList(ps, trace);
    ReadingsOnePerPath(t, ps);
    forall k | 0 <= k < |ps|
      ensures Fires(t, ps[k])
    {
      assert ps[k] in ps;
    }
  }

  /** Such a list exists for every tree. */
  lemma FiringPathsListed(t: Json) returns (ps: seq<Path>)
    ensures ListsFiringPaths(t, ps)
    ensures Walk(t) == ReadingsAt(t, ps)
  {
    ps := Trace(t, 0);
    TraceInOrder(t, 0);
    TraceReadings(t, 0);
    forall p
      ensures p in ps <==> Fires(t, p)
    {
      TraceFires(t, 0, p);
      FiresPeeled(t, p);
    }
  }
}
