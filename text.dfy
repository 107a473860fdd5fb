/**
 * Python's `str.strip()` with no argument, used on the live-search query and on review comments.
 */
module Text {

  /** Python's `str.isspace` for a single character. */
  predicate IsSpace(c: char)
  {
    || ('\U{09}' <= c <= '\U{0D}')
    || ('\U{1C}' <= c <= '\U{20}')
    || c == '\U{85}' || c == '\U{A0}' || c == '\U{1680}'
    || ('\U{2000}' <= c <= '\U{200A}')
    || c == '\U{2028}' || c == '\U{2029}' || c == '\U{202F}' || c == '\U{205F}' || c == '\U{3000}'
  }

  /** Drops leading whitespace. */
  function TrimStart(s: string): (r: string)
    ensures |r| <= |s|
    ensures r == [] || !IsSpace(r[0])
  {
    if s != [] && IsSpace(s[0]) then TrimStart(s[1..]) else s
  }

  /** What `TrimStart` keeps is a suffix of `s`, and what it drops is whitespace. */
  lemma {:induction false} TrimStartIsSuffix(s: string)
    ensures TrimStart(s) == s[|s| - |TrimStart(s)|..]
    ensures forall i :: 0 <= i < |s| - |TrimStart(s)| ==> IsSpace(s[i])
    decreases |s|
  {
    if s != [] && IsSpace(s[0]) {
      var t := s[1..];
      TrimStartIsSuffix(t);
      assert t[|t| - |TrimStart(t)|..] == s[|s| - |TrimStart(t)|..];
      forall i | 1 <= i < |s| - |TrimStart(s)| ensures IsSpace(s[i]) {
        assert s[i] == t[i - 1];
      }
    }
  }

  /** Drops trailing whitespace. */
  function TrimEnd(s: string): (r: string)
    ensures |r| <= |s|
    ensures r == [] || !IsSpace(r[|r| - 1])
  {
    if s != [] && IsSpace(s[|s| - 1]) then TrimEnd(s[..|s| - 1]) else s
  }

  /** What `TrimEnd` keeps is a prefix of `s`, and what it drops is whitespace. */
  lemma {:induction false} TrimEndIsPrefix(s: string)
    ensures TrimEnd(s) == s[..|TrimEnd(s)|]
    ensures forall i :: |TrimEnd(s)| <= i < |s| ==> IsSpace(s[i])
    decreases |s|
  {
    if s != [] && IsSpace(s[|s| - 1]) {
      var t := s[..|s| - 1];
      TrimEndIsPrefix(t);
      assert t[..|TrimEnd(t)|] == s[..|TrimEnd(t)|];
      forall i | |TrimEnd(s)| <= i < |s| - 1 ensures IsSpace(s[i]) {
        assert s[i] == t[i];
      }
    }
  }

  /** The number of leading whitespace characters of `s`. */
  function LeadingSpaces(s: string): (n: nat)
    ensures n <= |s|
  {
    |s| - |TrimStart(s)|
  }

  /** `s.strip()`: `s` with whitespace removed at both ends and nowhere else. */
  function Strip(s: string): (r: string)
    ensures r == [] || (!IsSpace(r[0]) && !IsSpace(r[|r| - 1]))
  {
    var t := TrimStart(s);
    TrimEndIsPrefix(t);
    TrimEnd(t)
  }

  /** What `Strip` keeps is a contiguous part of `s`, starting after its leading whitespace. */
  lemma StripIsSlice(s: string)
    ensures LeadingSpaces(s) + |Strip(s)| <= |s|
    ensures Strip(s) == s[LeadingSpaces(s)..LeadingSpaces(s) + |Strip(s)|]
  {
    var t := TrimStart(s);
    var r := TrimEnd(t);
    var k := |s| - |t|;
    TrimStartIsSuffix(s);
    TrimEndIsPrefix(t);
    assert t == s[k..];
    assert r == t[..|r|];
  }

  /** What `Strip` drops, at either end, is whitespace. */
  lemma StripDropsOnlySpace(s: string)
    ensures forall i :: 0 <= i < LeadingSpaces(s) ==> IsSpace(s[i])
    ensures forall i :: LeadingSpaces(s) + |Strip(s)| <= i < |s| ==> IsSpace(s[i])
  {
    var t := TrimStart(s);
    var r := TrimEnd(t);
    var k := |s| - |t|;
    TrimStartIsSuffix(s);
    TrimEndIsPrefix(t);
    assert t == s[k..];
    forall i | k + |r| <= i < |s| ensures IsSpace(s[i]) {
      assert s[i] == t[i - k];
    }
  }

  /** The number of characters of `s` that are not whitespace. */
  function NonSpaceCount(s: string): nat
  {
    if s == [] then 0 else (if IsSpace(s[|s| - 1]) then 0 else 1) + NonSpaceCount(s[..|s| - 1])
  }

  lemma {:induction false} NonSpaceCountAppend(a: string, b: string)
    ensures NonSpaceCount(a + b) == NonSpaceCount(a) + NonSpaceCount(b)
    decreases |b|
  {
    if b == [] {
      assert a + b == a;
    } else {
      assert (a + b)[..|a + b| - 1] == a + b[..|b| - 1];
      NonSpaceCountAppend(a, b[..|b| - 1]);
    }
  }

  lemma {:induction false} AllSpaceCountsZero(s: string)
    requires forall i :: 0 <= i < |s| ==> IsSpace(s[i])
    ensures NonSpaceCount(s) == 0
    decreases |s|
  {
    if s != [] {
      AllSpaceCountsZero(s[..|s| - 1]);
    }
  }

  /** Stripping never removes a character that is not whitespace. */
  lemma StripKeepsNonSpace(s: string)
    ensures NonSpaceCount(Strip(s)) == NonSpaceCount(s)
  {
    var r := Strip(s);
    var k := LeadingSpaces(s);
    StripIsSlice(s);
    StripDropsOnlySpace(s);
    var head, tail := s[..k], s[k + |r|..];
    assert s == head + r + tail;
    NonSpaceCountAppend(head + r, tail);
    NonSpaceCountAppend(head, r);
    forall i | 0 <= i < |head| ensures IsSpace(head[i]) {
      assert head[i] == s[i];
    }
    AllSpaceCountsZero(head);
    forall i | 0 <= i < |tail| ensures IsSpace(tail[i]) {
      assert tail[i] == s[k + |r| + i];
    }
    AllSpaceCountsZero(tail);
  }

  /** A string of length two or more that starts and ends with non-whitespace has two such characters. */
  lemma EdgesCount(r: string)
    requires r != [] && !IsSpace(r[0]) && !IsSpace(r[|r| - 1])
    ensures |r| >= 2 ==> NonSpaceCount(r) >= 2
    ensures NonSpaceCount(r) >= 1
  {
    if |r| >= 2 {
      assert r == [r[0]] + r[1..|r| - 1] + [r[|r| - 1]];
      NonSpaceCountAppend([r[0]] + r[1..|r| - 1], [r[|r| - 1]]);
      NonSpaceCountAppend([r[0]], r[1..|r| - 1]);
    } else {
      assert r == [] + [r[0]];
    }
  }

  /** The stripped text has at least two characters exactly when the raw text has two non-whitespace characters. */
  lemma StripLengthAtLeastTwo(s: string)
    ensures |Strip(s)| >= 2 <==> NonSpaceCount(s) >= 2
  {
    var r := Strip(s);
    StripKeepsNonSpace(s);
    if r != [] {
      EdgesCount(r);
    }
    if |r| < 2 && r != [] {
      assert r == [] + [r[0]];
      assert NonSpaceCount(r) == 1;
    }
  }
}
