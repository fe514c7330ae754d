/** update-time/src/request.c: the curl write callback and the static time it leaves behind. */
module TimeRequest {
  import opened Words
  import opened Decimal

  const WINDOW_LOW: uint64 := 1450656000000
  const WINDOW_HIGH: uint64 := 1892160000000
  const CHUNK_LENGTH: nat := 13
  const INT64_MIN: int := -0x8000_0000_0000_0000
  const INT64_MAX: int := 0x7fff_ffff_ffff_ffff

  predicate InWindow(t: int) {
    WINDOW_LOW < t < WINDOW_HIGH
  }

  predicate IsSpace(c: char) {
    c == ' ' || 9 as char <= c <= 13 as char
  }

  function SkipSpaces(s: string): (r: string)
    ensures |r| <= |s|
  {
    if s != [] && IsSpace(s[0]) then SkipSpaces(s[1..]) else s
  }

  /** The number the subject sequence denotes, before the result is made to fit an int64_t. */
  function SignedNumber(s: string): int {
    var body := SkipSpaces(s);
    if body != [] && body[0] == '-' then
      -(Value(body[1..][..DigitRun(body[1..])]) as int)
    else if body != [] && body[0] == '+' then
      Value(body[1..][..DigitRun(body[1..])])
    else
      Value(body[..DigitRun(body)])
  }

  /** strtoll in base 10: the number denoted, saturated to the range of int64_t. */
  function Strtoll(s: string): int {
    var n := SignedNumber(s);
    if n < INT64_MIN then INT64_MIN else if n > INT64_MAX then INT64_MAX else n
  }

  /** What one 13-byte chunk leaves in time_ms. */
  function Stored(chunk: string): uint64 {
    var t := ToUint64(Strtoll(chunk));
    if InWindow(t) then t else 0
  }

  /** time_ms after the callback has seen the chunks in order, starting from the static initialiser. */
  function AfterChunks(chunks: seq<string>): uint64 {
    if chunks == [] then 0
    else
      var last := chunks[|chunks| - 1];
      if |last| == CHUNK_LENGTH then Stored(last) else AfterChunks(chunks[..|chunks| - 1])
  }

  class TimeCell {
    var timeMs: uint64
    ghost var seen: seq<string>

    ghost predicate Valid()
      reads this
    {
      timeMs == AfterChunks(seen)
    }

    constructor ()
      ensures Valid() && seen == []
    {
      timeMs := 0;
      seen := [];
    }

    /** rspCallback: every chunk is accepted whole, and only a 13-byte one touches the cell. */
    method RspCallback(buffer: string, size: nat, nmemb: nat) returns (taken: nat)
      requires Valid() && size * nmemb == |buffer|
      modifies this
      ensures Valid() && seen == old(seen) + [buffer]
      ensures taken == |buffer|
      ensures |buffer| != CHUNK_LENGTH ==> timeMs == old(timeMs)
    {
      if size * nmemb == CHUNK_LENGTH {
        timeMs := ToUint64(Strtoll(buffer));
        if !(WINDOW_LOW < timeMs && timeMs < WINDOW_HIGH) {
          timeMs := 0;
        }
      }
      seen := seen + [buffer];
      assert seen[..|seen| - 1] == old(seen);
      return nmemb * size;
    }

    method GetTime() returns (t: uint64)
      requires Valid()
      ensures t == AfterChunks(seen)
    {
      return timeMs;
    }
  }

  lemma SkipSpacesSuffix(s: string)
    ensures var r := SkipSpaces(s); |r| <= |s| && r == s[|s| - |r|..]
  {
  }

  /** The digits a text of at most k characters starts with denote less than 10^k. */
  lemma LeadingDigitsBound(s: string, k: nat)
    requires |s| <= k
    ensures Value(s[..DigitRun(s)]) < Pow10(k)
    ensures DigitRun(s) < k && k > 0 ==> Value(s[..DigitRun(s)]) < Pow10(k - 1)
  {
    var digits := s[..DigitRun(s)];
    ValueBound(digits);
    Pow10Monotone(|digits|, k);
    if DigitRun(s) < k {
      Pow10Monotone(|digits|, k - 1);
    }
  }

  predicate Signed(body: string) {
    body != [] && (body[0] == '-' || body[0] == '+')
  }

  /** A text that denotes at least 10^12 in 13 bytes has no room for blanks or a sign. */
  lemma SignedNumberBounds(chunk: string)
    requires |chunk| == CHUNK_LENGTH
    ensures -1_000_000_000_000 < SignedNumber(chunk) < 10_000_000_000_000
    ensures SignedNumber(chunk) >= 1_000_000_000_000 ==> AllDigits(chunk) && Value(chunk) == SignedNumber(chunk)
  {
    var body := SkipSpaces(chunk);
    Pow10Values();
    if Signed(body) {
      LeadingDigitsBound(body[1..], 12);
    } else {
      LeadingDigitsBound(body, 13);
      if DigitRun(body) == 13 {
        SkipSpacesSuffix(chunk);
        assert body[..13] == body == chunk;
      }
    }
  }

  lemma Pow10Values()
    ensures Pow10(12) == 1_000_000_000_000 && Pow10(13) == 10_000_000_000_000
  {
    assert Pow10(3) == 1000;
    assert Pow10(6) == 1_000_000;
    assert Pow10(9) == 1_000_000_000;
    assert Pow10(12) == 1_000_000_000_000;
  }

  /** No 13-byte chunk saturates strtoll; a negative number lands above the window and is stored as 0. */
  lemma NoSaturation(chunk: string)
    requires |chunk| == CHUNK_LENGTH
    ensures Strtoll(chunk) == SignedNumber(chunk)
    ensures SignedNumber(chunk) < 0 ==> ToUint64(Strtoll(chunk)) > WINDOW_HIGH && Stored(chunk) == 0
  {
    SignedNumberBounds(chunk);
  }

  /**
    * The only chunks that leave a time are the printed forms of the times in the window:
    * no sign, blank, leading zero or trailing text gets through.
    */
  lemma StoredExactly(chunk: string, t: nat)
    requires |chunk| == 13
    ensures t != 0 && Stored(chunk) == t <==> 1_450_656_000_000 < t < 1_892_160_000_000 && chunk == Format(t)
  {
    hide Format, Value, Pow10, SignedNumber, AllDigits;
    NoSaturation(chunk);
    SignedNumberBounds(chunk);
    Pow10Values();
    if t != 0 && Stored(chunk) == t {
      assert t == SignedNumber(chunk);
      ValueRoundTrip(chunk);
    }
    if InWindow(t) && chunk == Format(t) {
      FormatRoundTrip(t);
      PrintedIsRead(t);
    }
  }

  lemma PrintedIsRead(t: nat)
    ensures SignedNumber(Format(t)) == t
  {
    var s := Format(t);
    assert IsDigit(s[0]) && !IsSpace(s[0]);
    DigitRunDelimited(s, []);
    assert s + [] == s;
    assert s[..|s|] == s;
    FormatRoundTrip(t);
  }

  /** Every time in the window prints to exactly the 13 bytes the callback reads, and is read back. */
  lemma WindowRoundTrip(t: nat)
    requires 1_450_656_000_000 < t < 1_892_160_000_000
    ensures |Format(t)| == 13 && Stored(Format(t)) == t
  {
    Pow10Values();
    FormatLength(t, 12);
    FormatLength(t, 13);
    StoredExactly(Format(t), t);
  }

  /** get_time() depends on the last 13-byte chunk alone, whatever came before or after it. */
  lemma {:induction false} LastChunkDecides(before: seq<string>, chunk: string, after: seq<string>)
    requires |chunk| == CHUNK_LENGTH
    requires forall i :: 0 <= i < |after| ==> |after[i]| != CHUNK_LENGTH
    ensures AfterChunks(before + [chunk] + after) == Stored(chunk)
  {
    var all := before + [chunk] + after;
    if after == [] {
      assert all[|all| - 1] == chunk;
    } else {
      assert all[|all| - 1] == after[|after| - 1];
      assert all[..|all| - 1] == before + [chunk] + after[..|after| - 1];
      LastChunkDecides(before, chunk, after[..|after| - 1]);
    }
  }

  /** With no 13-byte chunk the time stays 0; in every case it is 0 or strictly inside the window. */
  lemma {:induction false} TimeIsZeroOrInWindow(chunks: seq<string>)
    ensures AfterChunks(chunks) == 0 || InWindow(AfterChunks(chunks))
    ensures AfterChunks(chunks) != 0 ==>
              exists i :: 0 <= i < |chunks| && chunks[i] == Format(AfterChunks(chunks))
                       && forall j :: i < j < |chunks| ==> |chunks[j]| != CHUNK_LENGTH
  {
    if chunks != [] {
      var n := |chunks| - 1;
      var last := chunks[n];
      if |last| == CHUNK_LENGTH {
        if Stored(last) != 0 {
          StoredExactly(last, Stored(last));
        }
      } else {
        TimeIsZeroOrInWindow(chunks[..n]);
        if AfterChunks(chunks) != 0 {
          var i :| 0 <= i < n && chunks[..n][i] == Format(AfterChunks(chunks))
                 && forall j :: i < j < n ==> |chunks[..n][j]| != CHUNK_LENGTH;
          assert chunks[i] == Format(AfterChunks(chunks));
          assert forall j :: i < j < n ==> |chunks[j]| == |chunks[..n][j]|;
        }
      }
    }
  }
}
