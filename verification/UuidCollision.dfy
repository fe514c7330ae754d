/**
  * uuid/readme.txt expects no output when all MACs are different. Whatever the hash, there are different words that
  * are reported: seven octets are compared, and the words a file can hold outnumber them.
  */
module UuidCollision {
  import opened Decimal
  import opened UuidText
  import opened UuidScan

  /** The longest word an entry of macs has room for. */
  const WORD_LENGTH: nat := 17
  const OCTET_VALUES: nat := 256
  const CODES: nat := 0x100_0000_0000_0000

  // ----- Pigeonhole -----

  function Below(n: nat): (r: set<nat>)
    ensures |r| == n && forall k: nat :: k in r <==> k < n
  {
    if n == 0 then {} else Below(n - 1) + {n - 1}
  }

  lemma {:induction false} SubsetSize(a: set<nat>, b: set<nat>)
    requires a <= b
    ensures |a| <= |b|
    decreases |a|
  {
    if a != {} {
      var x :| x in a;
      SubsetSize(a - {x}, b - {x});
    }
  }

  function Image(f: nat -> nat, n: nat): set<nat> {
    set k: nat | k < n :: f(k)
  }

  lemma {:induction false} ImageSize(f: nat -> nat, n: nat)
    requires forall i: nat, j: nat :: i < j < n ==> f(i) != f(j)
    ensures |Image(f, n)| == n
  {
    if n > 0 {
      ImageSize(f, n - 1);
      assert Image(f, n) == Image(f, n - 1) + {f(n - 1)};
      assert f(n - 1) !in Image(f, n - 1);
    }
  }

  lemma Pigeonhole(f: nat -> nat, n: nat)
    requires forall k: nat :: k <= n ==> f(k) < n
    ensures exists i: nat, j: nat :: i < j <= n && f(i) == f(j)
  {
    if forall i: nat, j: nat :: i < j < n + 1 ==> f(i) != f(j) {
      ImageSize(f, n + 1);
      SubsetSize(Image(f, n + 1), Below(n));
    }
  }

  // ----- The octets compared, as a number -----

  function Number(octets: seq<bv8>): nat {
    if octets == [] then 0 else Number(octets[..|octets| - 1]) * OCTET_VALUES + octets[|octets| - 1] as int
  }

  lemma {:induction false} NumberInjective(s: seq<bv8>, t: seq<bv8>)
    requires |s| == |t| && Number(s) == Number(t)
    ensures s == t
  {
    if s != [] {
      var n := |s| - 1;
      LastOctet(Number(s[..n]), s[n], Number(t[..n]), t[n]);
      NumberInjective(s[..n], t[..n]);
      assert s == s[..n] + [s[n]] && t == t[..n] + [t[n]];
    }
  }

  lemma LastOctet(a: nat, x: bv8, b: nat, y: bv8)
    requires a * OCTET_VALUES + x as int == b * OCTET_VALUES + y as int
    ensures a == b && x == y
  {
    assert (x as int) as bv8 == x && (y as int) as bv8 == y;
  }

  function Power(n: nat): nat {
    if n == 0 then 1 else Power(n - 1) * OCTET_VALUES
  }

  lemma {:induction false} NumberBound(s: seq<bv8>)
    ensures Number(s) < Power(|s|)
  {
    if s != [] {
      NumberBound(s[..|s| - 1]);
      assert Number(s[..|s| - 1]) + 1 <= Power(|s| - 1);
    }
  }

  lemma SevenOctets()
    ensures Power(7) == CODES
  {
    assert Power(3) == 0x100_0000;
    assert Power(5) == 0x100_0000_0000;
  }

  function Code(d: Digest): (c: nat)
    ensures c < CODES
  {
    NumberBound(Masked(d)[..7]);
    SevenOctets();
    Number(Masked(d)[..7])
  }

  lemma WordLength(k: nat)
    requires k <= CODES
    ensures |Format(k)| <= WORD_LENGTH
  {
    assert Pow10(3) == 1000;
    assert Pow10(6) == 1_000_000;
    assert Pow10(9) == 1_000_000_000;
    assert Pow10(12) == 1_000_000_000_000;
    assert Pow10(15) == 1_000_000_000_000_000;
    assert Pow10(17) == 100_000_000_000_000_000;
    FormatLength(k, WORD_LENGTH);
  }

  /** For every hash there are two different words of at most 17 digits that are reported when a file holds both. */
  lemma SomeDifferentMacsReported(md5: string -> Digest) returns (a: string, b: string)
    ensures a != b && 0 < |a| <= WORD_LENGTH && 0 < |b| <= WORD_LENGTH && AllDigits(a) && AllDigits(b)
    ensures ScanLines([a, b], TextsOf([a, b], md5), 2) != []
  {
    var code := (k: nat) => Code(md5(SPACE_ID + Format(k)));
    forall k: nat | k <= CODES
      ensures code(k) < CODES
    {
      assert code(k) == Code(md5(SPACE_ID + Format(k)));
    }
    Pigeonhole(code, CODES);
    var i: nat, j: nat :| i < j <= CODES && code(i) == code(j);
    a, b := Format(i), Format(j);
    FormatRoundTrip(i);
    FormatRoundTrip(j);
    WordLength(i);
    WordLength(j);
    Clashing(a, b, md5);
  }

  lemma Clashing(a: string, b: string, md5: string -> Digest)
    requires Code(md5(SPACE_ID + a)) == Code(md5(SPACE_ID + b))
    ensures ScanLines([a, b], TextsOf([a, b], md5), 2) != []
  {
    NumberInjective(Masked(md5(SPACE_ID + a))[..7], Masked(md5(SPACE_ID + b))[..7]);
    assert OctetsClash([a, b], md5, 0, 1);
    ScanIsExact([a, b], md5, TextsOf([a, b], md5));
  }
}
