/** C strings in fixed buffers, and the library functions that write and compare them. */
module CStrings {
  const NUL: char := '\0'

  /** A buffer holds a C string: the text, then a NUL. */
  predicate Holds(buffer: seq<char>, text: string) {
    |text| < |buffer| && buffer[..|text|] == text && buffer[|text|] == NUL && NUL !in text
  }

  lemma HeldText(buffer: seq<char>, text: string)
    requires Holds(buffer, text)
    ensures |text| < |buffer| && buffer[..|text|] == text
  {
  }

  /** snprintf: at most bound - 1 characters of the text, and a NUL. */
  method SnPrintf(buffer: array<char>, at: nat, bound: nat, text: string)
    requires 0 < bound && at + (if |text| < bound then |text| else bound - 1) < buffer.Length
    modifies buffer
    ensures var n := if |text| < bound then |text| else bound - 1;
            buffer[..] == old(buffer[..at]) + text[..n] + [NUL] + old(buffer[at + n + 1..])
  {
    var n := if |text| < bound then |text| else bound - 1;
    ghost var was := buffer[..];
    var i := 0;
    while i < n
      invariant i <= n
      invariant buffer[..at] == was[..at] && buffer[at + i..] == was[at + i..]
      invariant buffer[at..at + i] == text[..i]
    {
      buffer[at + i] := text[i];
      assert buffer[at..at + i + 1] == buffer[at..at + i] + [text[i]] && text[..i + 1] == text[..i] + [text[i]];
      i := i + 1;
    }
    buffer[at + n] := NUL;
    assert buffer[..] == buffer[..at] + buffer[at..at + n] + [NUL] + buffer[at + n + 1..];
  }

  /** strncpy from &src[off]: n characters, NULs once the string there has ended. */
  method StrNCpy(dst: array<char>, src: array<char>, off: nat, n: nat, ghost text: string)
    requires dst != src && n <= dst.Length && off <= src.Length && Holds(src[off..], text)
    modifies dst
    ensures var k := if n < |text| then n else |text|;
            dst[..] == text[..k] + seq(n - k, i => NUL) + old(dst[n..])
  {
    var ended := false;
    var i := 0;
    ghost var was := dst[..];
    while i < n
      invariant i <= n
      invariant ended <==> i > |text|
      invariant forall j :: 0 <= j < i ==> dst[j] == if j < |text| then text[j] else NUL
      invariant forall j :: i <= j < dst.Length ==> dst[j] == was[j]
    {
      var c := NUL;
      if !ended {
        assert src[off..][i] == src[off + i];
        assert i < |text| ==> src[off..][..|text|][i] == text[i];
        c := src[off + i];
        ended := c == NUL;
      }
      dst[i] := c;
      i := i + 1;
    }
    ghost var k := if n < |text| then n else |text|;
    assert dst[..] == text[..k] + seq(n - k, i => NUL) + was[n..];
  }

  /** strcat: src, up to its NUL, moves to where dst's NUL is. */
  method StrCat(dst: array<char>, src: seq<char>, ghost d: string, ghost s: string)
    requires Holds(dst[..], d) && Holds(src, s) && |d| + |s| < dst.Length
    modifies dst
    ensures Holds(dst[..], d + s)
  {
    var start := 0;
    CharAt(dst[..], d, 0);
    while dst[start] != NUL
      invariant start <= |d| && Holds(dst[..], d)
      invariant dst[start] != NUL ==> start < |d|
      decreases |d| - start
    {
      start := start + 1;
      CharAt(dst[..], d, start);
    }
    CharAt(dst[..], d, start);
    var i := 0;
    CharAt(src, s, 0);
    while src[i] != NUL
      invariant i <= |s|
      invariant src[i] != NUL ==> i < |s|
      invariant dst[..|d|] == d
      invariant dst[|d|..|d| + i] == s[..i]
      decreases |s| - i
    {
      CharAt(src, s, i);
      dst[start + i] := src[i];
      i := i + 1;
      CharAt(src, s, i);
    }
    CharAt(src, s, i);
    dst[start + i] := NUL;
    assert dst[..|d| + |s|] == d + s;
  }

  lemma HoldsFrom(buffer: seq<char>, text: string, off: nat)
    requires Holds(buffer, text) && off <= |text|
    ensures Holds(buffer[off..], text[off..])
  {
    assert buffer[off..][..|text| - off] == buffer[..|text|][off..];
  }

  function FirstChars(s: string, n: nat): string {
    if |s| < n then s else s[..n]
  }

  /** strncmp(a, b, n) is 0 exactly when the strings agree on their first n characters. */
  method StrNCmp(a: array<char>, b: array<char>, n: nat, ghost s: string, ghost t: string) returns (r: int)
    requires Holds(a[..], s) && Holds(b[..], t)
    ensures r == 0 <==> FirstChars(s, n) == FirstChars(t, n)
  {
    var i := 0;
    while i < n
      invariant i <= |s| && i <= |t| && i <= n
      invariant s[..i] == t[..i]
    {
      CharAt(a[..], s, i);
      CharAt(b[..], t, i);
      if a[i] != b[i] {
        PrefixesDiffer(s, t, i, n);
        return a[i] as int - b[i] as int;
      }
      if a[i] == NUL {
        assert s == t;
        return 0;
      }
      i := i + 1;
    }
    return 0;
  }

  lemma CharAt(buffer: seq<char>, text: string, i: nat)
    requires Holds(buffer, text) && i <= |text|
    ensures buffer[i] == if i < |text| then text[i] else NUL
    ensures i < |text| ==> text[i] != NUL
  {
    if i < |text| {
      assert buffer[..|text|][i] == text[i];
    }
  }

  lemma PrefixesDiffer(s: string, t: string, i: nat, n: nat)
    requires i < n && i <= |s| && i <= |t| && s[..i] == t[..i]
    requires (if i < |s| then s[i] else NUL) != (if i < |t| then t[i] else NUL)
    ensures FirstChars(s, n) != FirstChars(t, n)
  {
    var p, q := FirstChars(s, n), FirstChars(t, n);
    if i < |s| && i < |t| {
      assert p[i] != q[i];
    } else {
      assert |p| != |q|;
    }
  }

  /** strlen. */
  method StrLen(buffer: array<char>, ghost text: string) returns (n: nat)
    requires Holds(buffer[..], text)
    ensures n == |text|
  {
    n := 0;
    CharAt(buffer[..], text, 0);
    while buffer[n] != NUL
      invariant n <= |text|
      invariant buffer[n] != NUL ==> n < |text|
      decreases |text| - n
    {
      n := n + 1;
      CharAt(buffer[..], text, n);
    }
    CharAt(buffer[..], text, n);
  }
}
