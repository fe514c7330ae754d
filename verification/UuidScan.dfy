/** uuid/src/uuid_test.c: the all-pairs comparison of the UUIDs of a list of MAC addresses. */
module UuidScan {
  import opened Words
  import opened CStrings
  import opened UuidText
  import opened UuidBuffers

  const MAX_TRIAL: nat := 500
  const COMPARED: nat := 16

  /** One printed line: the position counted from one, and the MAC there. */
  datatype Line = Line(number: nat, mac: string)

  predicate Clash(texts: seq<string>, i: nat, k: nat)
    requires i < |texts| && k < |texts|
  {
    k != i && FirstChars(texts[i], COMPARED) == FirstChars(texts[k], COMPARED)
  }

  function TextsOf(macs: seq<string>, md5: string -> Digest): (texts: seq<string>)
    ensures |texts| == |macs| && forall i :: 0 <= i < |macs| ==> texts[i] == TextOf(md5(SPACE_ID + macs[i]))
  {
    seq(|macs|, i requires 0 <= i < |macs| => TextOf(md5(SPACE_ID + macs[i])))
  }

  /** The lines of row i for the columns before k. */
  function RowLines(macs: seq<string>, texts: seq<string>, i: nat, k: nat): seq<Line>
    requires |texts| == |macs| && i < |texts| && k <= |texts|
  {
    if k == 0 then []
    else RowLines(macs, texts, i, k - 1) + if Clash(texts, i, k - 1) then [Line(i + 1, macs[i])] else []
  }

  /** The lines of the rows before i. */
  function ScanLines(macs: seq<string>, texts: seq<string>, i: nat): seq<Line>
    requires |texts| == |macs| && i <= |texts|
  {
    if i == 0 then [] else ScanLines(macs, texts, i - 1) + RowLines(macs, texts, i - 1, |texts|)
  }

  method HashAll(macs: seq<string>, md5: string -> Digest) returns (hashes: array<array<char>>)
    ensures hashes.Length == |macs|
    ensures forall j :: 0 <= j < |macs| ==> Holds(hashes[j][..], TextsOf(macs, md5)[j])
  {
    hide TextsOf, TextOf, Holds;
    var unset := new char[1];
    hashes := new array<char>[|macs|](_ => unset);
    var i := 0;
    while i < |macs|
      invariant i <= |macs|
      invariant forall j :: 0 <= j < i ==> Holds(hashes[j][..], TextsOf(macs, md5)[j])
    {
      var hash := GenHashString(macs[i], md5);
      hashes[i] := hash;
      i := i + 1;
    }
  }

  /** The inner loop: position i against every other one. */
  method ScanRow(macs: seq<string>, hashes: array<array<char>>, i: nat, ghost texts: seq<string>)
    returns (printed: seq<Line>)
    requires hashes.Length == |macs| == |texts| && i < |macs|
    requires forall j :: 0 <= j < |macs| ==> Holds(hashes[j][..], texts[j])
    ensures printed == RowLines(macs, texts, i, |macs|)
  {
    printed := [];
    var k := 0;
    while k < |macs|
      invariant k <= |macs|
      invariant printed == RowLines(macs, texts, i, k)
    {
      if k != i {
        var order := StrNCmp(hashes[i], hashes[k], COMPARED, texts[i], texts[k]);
        if order == 0 {
          printed := printed + [Line(i + 1, macs[i])];
        }
      }
      k := k + 1;
    }
  }

  /** get_mac_test after the file is read: 1 if any line was printed, otherwise 0. */
  method ScanMacs(macs: seq<string>, md5: string -> Digest) returns (err: int, printed: seq<Line>)
    requires |macs| <= MAX_TRIAL
    ensures printed == ScanLines(macs, TextsOf(macs, md5), |macs|)
    ensures err == if printed != [] then 1 else 0
  {
    hide TextsOf, TextOf, RowLines, Holds;
    var hashes := HashAll(macs, md5);
    ghost var texts := TextsOf(macs, md5);
    err := 0;
    printed := [];
    var i := 0;
    while i < |macs|
      invariant i <= |macs|
      invariant forall j :: 0 <= j < |macs| ==> Holds(hashes[j][..], texts[j])
      invariant printed == ScanLines(macs, texts, i)
      invariant err == if printed != [] then 1 else 0
    {
      var row := ScanRow(macs, hashes, i, texts);
      if row != [] {
        err := 1;
      }
      printed := printed + row;
      i := i + 1;
    }
  }

  /** An empty file still makes fscanf take one entry, which keeps what the memory held. */
  function EntriesRead(words: seq<string>, memory: string): seq<string> {
    if words == [] then [memory] else words
  }

  /**
    * get_mac_test on the words of a file, none if it cannot be opened. It returns 1 then, or if two positions of the
    * file clash; a word that stands at two positions is printed with each of them, counted from one.
    */
  method GetMacTest(file: Option<seq<string>>, memory: string, md5: string -> Digest)
    returns (result: int, printed: seq<Line>)
    requires file.Some? ==> |file.value| <= MAX_TRIAL
    ensures file.None? ==> result == 1 && printed == []
    ensures file == Some([]) ==> result == 0 && printed == []
    ensures file.Some? && file.value != [] ==>
              var macs := file.value;
              && result == (if AnyClash(macs, md5) then 1 else 0)
              && printed == ScanLines(macs, TextsOf(macs, md5), |macs|)
              && forall i, k :: 0 <= i < |macs| && 0 <= k < |macs| && i != k && macs[i] == macs[k] ==>
                   Line(i + 1, macs[i]) in printed
  {
    if file.None? {
      return 1, [];
    }
    var macs := EntriesRead(file.value, memory);
    ScanIsExact(macs, md5, TextsOf(macs, md5));
    result, printed := ScanMacs(macs, md5);
    forall i, k | 0 <= i < |macs| && 0 <= k < |macs| && i != k && macs[i] == macs[k]
      ensures Line(i + 1, macs[i]) in printed
    {
      RepeatedMacReported(macs, md5, TextsOf(macs, md5), i, k);
    }
  }

  // ----- What is printed -----

  /** Text i clashes with one of the first k texts. */
  predicate Clashes(texts: seq<string>, i: nat, k: nat)
    requires i < |texts| && k <= |texts|
  {
    exists j :: 0 <= j < k && Clash(texts, i, j)
  }

  lemma {:induction false} RowPrints(macs: seq<string>, texts: seq<string>, i: nat, k: nat, line: Line)
    requires |texts| == |macs| && i < |texts| && k <= |texts|
    ensures line in RowLines(macs, texts, i, k) <==>
              line == Line(i + 1, macs[i]) && Clashes(texts, i, k)
  {
    if k > 0 {
      RowPrints(macs, texts, i, k - 1, line);
      assert Clashes(texts, i, k) <==> Clashes(texts, i, k - 1) || Clash(texts, i, k - 1);
    }
  }

  /** A position is printed exactly when its text clashes with another one. */
  lemma {:induction false} ScanPrints(macs: seq<string>, texts: seq<string>, n: nat, line: Line)
    requires |texts| == |macs| && n <= |texts|
    ensures line in ScanLines(macs, texts, n) <==>
              exists i :: 0 <= i < n && line == Line(i + 1, macs[i]) && Clashes(texts, i, |texts|)
  {
    hide Clashes;
    if n > 0 {
      ScanPrints(macs, texts, n - 1, line);
      RowPrints(macs, texts, n - 1, |texts|, line);
      if line in RowLines(macs, texts, n - 1, |texts|) {
        assert line == Line(n - 1 + 1, macs[n - 1]) && Clashes(texts, n - 1, |texts|);
      }
    }
  }

  /** The first k texts that text i clashes with. */
  function ClashesOf(texts: seq<string>, i: nat, k: nat): set<nat>
    requires i < |texts| && k <= |texts|
  {
    set j: nat | j < k && Clash(texts, i, j)
  }

  function ClashCount(texts: seq<string>, i: nat, k: nat): nat
    requires i < |texts| && k <= |texts|
  {
    |ClashesOf(texts, i, k)|
  }

  lemma ClashCountStep(texts: seq<string>, i: nat, k: nat)
    requires i < |texts| && 0 < k <= |texts|
    ensures ClashCount(texts, i, k) == ClashCount(texts, i, k - 1) + if Clash(texts, i, k - 1) then 1 else 0
  {
    var before := ClashesOf(texts, i, k - 1);
    assert ClashesOf(texts, i, k) == before + if Clash(texts, i, k - 1) then {k - 1} else {};
  }

  /** A row prints its own line once for each clash. */
  lemma {:induction false} RowRepeats(macs: seq<string>, texts: seq<string>, i: nat, k: nat)
    requires |texts| == |macs| && i < |texts| && k <= |texts|
    ensures RowLines(macs, texts, i, k) == seq(ClashCount(texts, i, k), _ => Line(i + 1, macs[i]))
  {
    if k > 0 {
      RowRepeats(macs, texts, i, k - 1);
      ClashCountStep(texts, i, k);
    } else {
      assert ClashesOf(texts, i, 0) == {};
    }
  }

  /** The lines come in the order of their positions, all from 1 to n. */
  predicate InOrder(lines: seq<Line>, n: nat) {
    && (forall a :: 0 <= a < |lines| ==> 1 <= lines[a].number <= n)
    && (forall a, b :: 0 <= a < b < |lines| ==> lines[a].number <= lines[b].number)
  }

  lemma {:induction false} ScanInOrder(macs: seq<string>, texts: seq<string>, n: nat)
    requires |texts| == |macs| && n <= |texts|
    ensures InOrder(ScanLines(macs, texts, n), n)
  {
    hide ClashCount, RowLines;
    if n > 0 {
      ScanInOrder(macs, texts, n - 1);
      RowRepeats(macs, texts, n - 1, |texts|);
    }
  }

  /** A position's line is printed as often as its text clashes. */
  lemma {:induction false} ScanRepeats(macs: seq<string>, texts: seq<string>, n: nat)
    requires |texts| == |macs| && n <= |texts|
    ensures forall i :: 0 <= i < n ==>
              multiset(ScanLines(macs, texts, n))[Line(i + 1, macs[i])] == ClashCount(texts, i, |texts|)
  {
    hide ClashCount, RowLines, InOrder;
    if n > 0 {
      var front, row := ScanLines(macs, texts, n - 1), RowLines(macs, texts, n - 1, |texts|);
      ScanRepeats(macs, texts, n - 1);
      RowRepeats(macs, texts, n - 1, |texts|);
      var last := Line(n - 1 + 1, macs[n - 1]);
      assert forall x :: 0 <= x < |row| ==> row[x] == last;
      NotYetPrinted(macs, texts, n - 1);
      forall i | 0 <= i < n
        ensures multiset(front + row)[Line(i + 1, macs[i])] == ClashCount(texts, i, |texts|)
      {
        CountAppended(front, row, last, Line(i + 1, macs[i]));
      }
    }
  }

  lemma NotYetPrinted(macs: seq<string>, texts: seq<string>, n: nat)
    requires |texts| == |macs| && n < |texts|
    ensures Line(n + 1, macs[n]) !in ScanLines(macs, texts, n)
  {
    hide ScanLines;
    ScanInOrder(macs, texts, n);
  }

  lemma {:induction false} CountAppended(front: seq<Line>, row: seq<Line>, last: Line, line: Line)
    requires last !in front && forall x :: 0 <= x < |row| ==> row[x] == last
    ensures multiset(front + row)[line] == if line == last then |row| else multiset(front)[line]
  {
    if row == [] {
      assert front + row == front;
    } else {
      var less := row[..|row| - 1];
      CountAppended(front, less, last, line);
      assert front + row == front + less + [last];
    }
  }

  /** The first 16 characters of a UUID are the first seven masked octets. */
  lemma FirstSixteen(d: Digest, e: Digest)
    ensures FirstChars(TextOf(d), COMPARED) == FirstChars(TextOf(e), COMPARED) <==> Masked(d)[..7] == Masked(e)[..7]
  {
    SixteenChars(d);
    SixteenChars(e);
    var m, n := Masked(d)[..7], Masked(e)[..7];
    HexRoundTrip(m);
    HexRoundTrip(n);
    var h, g := HexText(m), HexText(n);
    var s, t := FirstChars(TextOf(d), COMPARED), FirstChars(TextOf(e), COMPARED);
    if s == t {
      assert h == h[..8] + h[8..12] + h[12..] == s[..8] + s[9..13] + s[14..];
      assert g == g[..8] + g[8..12] + g[12..] == t[..8] + t[9..13] + t[14..];
    }
  }

  lemma SixteenChars(d: Digest)
    ensures var h := HexText(Masked(d)[..7]);
            FirstChars(TextOf(d), COMPARED) == h[..8] + "-" + h[8..12] + "-" + h[12..]
  {
    var m := Masked(d);
    HexTextPrefix(m, 7);
    var h := HexText(m);
    assert h[..14] == HexText(m[..7]);
    TextShape(d);
    assert h[..14][12..] == h[12..16][..2];
    assert TextOf(d)[..16] == h[..8] + "-" + h[8..12] + "-" + h[12..16][..2];
  }

  lemma {:induction false} HexTextPrefix(d: seq<bv8>, n: nat)
    requires n <= |d|
    ensures HexText(d)[..2 * n] == HexText(d[..n])
  {
    if n < |d| {
      HexTextPrefix(d[..|d| - 1], n);
      assert d[..|d| - 1][..n] == d[..n];
    } else {
      assert d[..n] == d;
    }
  }

  predicate OctetsClash(macs: seq<string>, md5: string -> Digest, i: nat, k: nat)
    requires i < |macs| && k < |macs|
  {
    i != k && Masked(md5(SPACE_ID + macs[i]))[..7] == Masked(md5(SPACE_ID + macs[k]))[..7]
  }

  /** The UUIDs at some two positions agree on masked octets 0 to 6. */
  predicate AnyClash(macs: seq<string>, md5: string -> Digest) {
    exists i, k :: 0 <= i < |macs| && 0 <= k < |macs| && OctetsClash(macs, md5, i, k)
  }

  lemma ClashIsOctetsClash(macs: seq<string>, md5: string -> Digest, i: nat, k: nat)
    requires i < |macs| && k < |macs|
    ensures Clash(TextsOf(macs, md5), i, k) <==> OctetsClash(macs, md5, i, k)
  {
    FirstSixteen(md5(SPACE_ID + macs[i]), md5(SPACE_ID + macs[k]));
  }

  /** A clashing position is printed with its MAC. */
  lemma ClashIsPrinted(macs: seq<string>, md5: string -> Digest, texts: seq<string>, i: nat, k: nat)
    requires texts == TextsOf(macs, md5)
    requires i < |macs| && k < |macs| && OctetsClash(macs, md5, i, k)
    ensures Line(i + 1, macs[i]) in ScanLines(macs, texts, |macs|)
  {
    ClashIsOctetsClash(macs, md5, i, k);
    assert Clashes(texts, i, |texts|);
    ScanPrints(macs, texts, |macs|, Line(i + 1, macs[i]));
  }

  /**
    * The scan is exact: it prints, and returns 1, if and only if the UUIDs at two different positions agree
    * on masked octets 0 to 6.
    */
  lemma ScanIsExact(macs: seq<string>, md5: string -> Digest, texts: seq<string>)
    requires texts == TextsOf(macs, md5)
    ensures ScanLines(macs, texts, |macs|) != [] <==> AnyClash(macs, md5)
  {
    var printed := ScanLines(macs, texts, |macs|);
    if i, k :| 0 <= i < |macs| && 0 <= k < |macs| && OctetsClash(macs, md5, i, k) {
      ClashIsPrinted(macs, md5, texts, i, k);
    }
    if printed != [] {
      ScanPrints(macs, texts, |macs|, printed[0]);
      var i :| 0 <= i < |macs| && printed[0] == Line(i + 1, macs[i]) && Clashes(texts, i, |texts|);
      var k :| 0 <= k < |texts| && Clash(texts, i, k);
      ClashIsOctetsClash(macs, md5, i, k);
    }
  }

  /** A MAC that occurs twice is always reported. */
  lemma RepeatedMacReported(macs: seq<string>, md5: string -> Digest, texts: seq<string>, i: nat, k: nat)
    requires texts == TextsOf(macs, md5)
    requires i < |macs| && k < |macs| && i != k && macs[i] == macs[k]
    ensures Line(i + 1, macs[i]) in ScanLines(macs, texts, |macs|)
  {
    ClashIsPrinted(macs, md5, texts, i, k);
  }

  /** No output means that all UUIDs, and with them all MACs, are different. */
  lemma {:induction false} SilenceMeansDistinct(macs: seq<string>, md5: string -> Digest, texts: seq<string>,
                                                i: nat, k: nat)
    requires texts == TextsOf(macs, md5) && ScanLines(macs, texts, |macs|) == []
    requires i < |macs| && k < |macs| && i != k
    ensures texts[i] != texts[k] && macs[i] != macs[k]
  {
    ScanIsExact(macs, md5, texts);
    assert !OctetsClash(macs, md5, i, k);
    FirstSixteen(md5(SPACE_ID + macs[i]), md5(SPACE_ID + macs[k]));
  }

  predicate AllDifferent(macs: seq<string>) {
    forall i, k :: 0 <= i < k < |macs| ==> macs[i] != macs[k]
  }

  /** The hash keeps the MACs apart within the octets compared. */
  predicate SeparatesMacs(macs: seq<string>, md5: string -> Digest) {
    forall i, k :: 0 <= i < k < |macs| ==> !OctetsClash(macs, md5, i, k)
  }

  /** Different MACs give no output exactly when the hash separates them; being different is not enough. */
  lemma DifferentMacsSilentIff(macs: seq<string>, md5: string -> Digest, texts: seq<string>)
    requires texts == TextsOf(macs, md5) && AllDifferent(macs)
    ensures ScanLines(macs, texts, |macs|) == [] <==> SeparatesMacs(macs, md5)
  {
    ScanIsExact(macs, md5, texts);
    if ScanLines(macs, texts, |macs|) != [] {
      var i, k :| 0 <= i < |macs| && 0 <= k < |macs| && OctetsClash(macs, md5, i, k);
      assert OctetsClash(macs, md5, k, i);
      assert i < k || k < i;
    }
  }
}
