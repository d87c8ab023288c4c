/** The handful of Python string and list primitives the display engine and
    the partitioning rules are written with: repetition (`[x] * n`, the
    `"%*s"` space padding), clamped slicing, `str.find`, `str.split`,
    `str.strip` and `str.isspace`. */
module Text {

  /** `[x] * n`. */
  function Repeat<T>(x: T, n: nat): (r: seq<T>)
    ensures |r| == n
    ensures forall i :: 0 <= i < n ==> r[i] == x
  {
    if n == 0 then [] else [x] + Repeat(x, n - 1)
  }

  function Spaces(n: nat): (r: string)
    ensures |r| == n && forall i :: 0 <= i < n ==> r[i] == ' '
  {
    Repeat(' ', n)
  }

  /** `"%*s" % (w, " ")`: a single space right-justified (or, for negative w,
      left-justified) in a field of |w| characters; never shorter than the
      one space it formats. */
  function FormatSpace(w: int): (r: string)
    ensures |r| == (if w > 1 then w else if w < -1 then -w else 1)
    ensures forall i :: 0 <= i < |r| ==> r[i] == ' '
  {
    Spaces(if w > 1 then w else if w < -1 then -w else 1)
  }

  function Min(a: int, b: int): int { if a < b then a else b }

  function Max(a: int, b: int): int { if a < b then b else a }

  /** The length of a longest of the first k strings of ss, 0 for none:
      the maximum the popups' constructors compute with a loop. */
  function Longest(ss: seq<string>, k: nat): nat
    requires k <= |ss|
  {
    if k == 0 then 0
    else
      var m := Longest(ss, k - 1);
      if |ss[k - 1]| > m then |ss[k - 1]| else m
  }

  /** No string is longer than `Longest`, and some string has its length. */
  lemma {:induction false} LongestIsMax(ss: seq<string>, k: nat)
    requires k <= |ss|
    ensures forall i :: 0 <= i < k ==> |ss[i]| <= Longest(ss, k)
    ensures k > 0 ==> exists i :: 0 <= i < k && |ss[i]| == Longest(ss, k)
  {
    if k > 0 {
      LongestIsMax(ss, k - 1);
    }
  }

  /** Python `s[lo:hi]` for non-negative bounds: both bounds are clamped to
      the length, and a slice whose start is at or past its end is empty. */
  function Slice<T>(s: seq<T>, lo: nat, hi: nat): (r: seq<T>)
    ensures |r| == Max(0, Min(hi, |s|) - lo)
  {
    var h := Min(hi, |s|);
    if lo >= h then [] else s[lo..h]
  }

  /** The slice holds the elements of s from lo on. */
  lemma SliceAt<T>(s: seq<T>, lo: nat, hi: nat)
    ensures forall i :: 0 <= i < |Slice(s, lo, hi)| ==> Slice(s, lo, hi)[i] == s[lo + i]
  {
  }

  /** Python `s[:n]` for n >= 0. */
  function Take<T>(s: seq<T>, n: nat): (r: seq<T>)
    ensures r == s[..Min(n, |s|)]
  {
    if n >= |s| then s else s[..n]
  }

  /** Python `s[n:]` for n >= 0. */
  function Drop<T>(s: seq<T>, n: nat): (r: seq<T>)
    ensures r == s[Min(n, |s|)..]
  {
    if n >= |s| then [] else s[n..]
  }

  /** Python's `str.isspace` on one character: the characters of Unicode
      White_Space together with the four ASCII separators U+001C..U+001F. */
  predicate IsSpace(c: char)
  {
    ('\U{9}' <= c <= '\U{D}') || ('\U{1C}' <= c <= '\U{20}') ||
    c == '\U{85}' || c == '\U{A0}' || c == '\U{1680}' ||
    ('\U{2000}' <= c <= '\U{200A}') || c == '\U{2028}' || c == '\U{2029}' ||
    c == '\U{202F}' || c == '\U{205F}' || c == '\U{3000}'
  }

  /** `s.lstrip()`. */
  function StripLeft(s: string): (r: string)
    ensures |r| <= |s|
    ensures r != [] ==> !IsSpace(r[0])
  {
    if s != [] && IsSpace(s[0]) then StripLeft(s[1..]) else s
  }

  /** `lstrip` keeps a suffix. */
  lemma {:induction false} StripLeftSuffix(s: string)
    ensures StripLeft(s) == s[|s| - |StripLeft(s)|..]
  {
    if s != [] && IsSpace(s[0]) {
      StripLeftSuffix(s[1..]);
      assert s[1..][|s| - 1 - |StripLeft(s[1..])|..] == s[|s| - |StripLeft(s[1..])|..];
    }
  }

  /** `lstrip` removes only white space. */
  lemma {:induction false} StripLeftSpaces(s: string)
    ensures forall i :: 0 <= i < |s| - |StripLeft(s)| ==> IsSpace(s[i])
  {
    if s != [] && IsSpace(s[0]) {
      StripLeftSpaces(s[1..]);
      assert forall i :: 0 < i < |s| ==> s[1..][i - 1] == s[i];
    }
  }

  /** `s.rstrip()`. */
  function StripRight(s: string): (r: string)
    ensures |r| <= |s|
    ensures r != [] ==> !IsSpace(r[|r| - 1])
  {
    if s != [] && IsSpace(s[|s| - 1]) then StripRight(s[..|s| - 1]) else s
  }

  /** `rstrip` keeps a prefix. */
  lemma {:induction false} StripRightPrefix(s: string)
    ensures StripRight(s) == s[..|StripRight(s)|]
  {
    if s != [] && IsSpace(s[|s| - 1]) {
      StripRightPrefix(s[..|s| - 1]);
      assert s[..|s| - 1][..|StripRight(s[..|s| - 1])|] == s[..|StripRight(s[..|s| - 1])|];
    }
  }

  /** `rstrip` removes only white space. */
  lemma {:induction false} StripRightSpaces(s: string)
    ensures forall i :: |StripRight(s)| <= i < |s| ==> IsSpace(s[i])
  {
    if s != [] && IsSpace(s[|s| - 1]) {
      StripRightSpaces(s[..|s| - 1]);
      assert forall i :: 0 <= i < |s| - 1 ==> s[..|s| - 1][i] == s[i];
    }
  }

  /** `s.strip()`. */
  function Strip(s: string): (r: string)
    ensures |r| <= |s|
  {
    StripRight(StripLeft(s))
  }

  /** The characters of s that are not white space, in order. */
  function RemoveSpaces(s: string): string
  {
    if s == [] then []
    else (if IsSpace(s[0]) then [] else [s[0]]) + RemoveSpaces(s[1..])
  }

  lemma {:induction false} RemoveSpacesConcat(a: string, b: string)
    ensures RemoveSpaces(a + b) == RemoveSpaces(a) + RemoveSpaces(b)
  {
    if a != [] {
      assert (a + b)[1..] == a[1..] + b;
      RemoveSpacesConcat(a[1..], b);
    } else {
      assert a + b == b;
    }
  }

  /** White space only: nothing survives RemoveSpaces. */
  lemma {:induction false} RemoveSpacesOfSpaces(s: string)
    requires forall i :: 0 <= i < |s| ==> IsSpace(s[i])
    ensures RemoveSpaces(s) == []
  {
    if s != [] {
      RemoveSpacesOfSpaces(s[1..]);
    }
  }

  /** Stripping removes only white space. */
  lemma StripKeepsNonSpace(s: string)
    ensures RemoveSpaces(Strip(s)) == RemoveSpaces(s)
  {
    StripLeftKeepsNonSpace(s);
    StripRightKeepsNonSpace(StripLeft(s));
  }

  lemma StripLeftKeepsNonSpace(s: string)
    ensures RemoveSpaces(StripLeft(s)) == RemoveSpaces(s)
  {
    var l := StripLeft(s);
    var k := |s| - |l|;
    var p := s[..k];
    StripLeftSuffix(s);
    assert s == p + l;
    StripLeftSpaces(s);
    forall i | 0 <= i < |p|
      ensures IsSpace(p[i])
    {
      assert p[i] == s[i];
    }
    RemoveSpacesConcat(p, l);
    RemoveSpacesOfSpaces(p);
  }

  lemma StripRightKeepsNonSpace(s: string)
    ensures RemoveSpaces(StripRight(s)) == RemoveSpaces(s)
  {
    var r := StripRight(s);
    var q := s[|r|..];
    StripRightPrefix(s);
    assert s == r + q;
    StripRightSpaces(s);
    forall i | 0 <= i < |q|
      ensures IsSpace(q[i])
    {
      assert q[i] == s[|r| + i];
    }
    RemoveSpacesConcat(r, q);
    RemoveSpacesOfSpaces(q);
  }

  /** `s.find(c, p)`: the first index at or after p holding c, or -1. */
  function Find(s: string, c: char, p: nat): (n: int)
    requires p <= |s|
    ensures n == -1 ==> c !in s[p..]
    ensures n != -1 ==> p <= n < |s| && s[n] == c && c !in s[p..n]
    decreases |s| - p
  {
    if p == |s| then -1
    else if s[p] == c then p
    else
      var n := Find(s, c, p + 1);
      assert s[p..] == [s[p]] + s[p + 1..];
      assert n != -1 ==> s[p..n] == [s[p]] + s[p + 1..n];
      n
  }

  /** `s[p:].split("\n")`: the pieces of s from p on between line breaks;
      never empty. */
  function Segments(s: string, p: nat): (segs: seq<string>)
    requires p <= |s|
    ensures |segs| >= 1
    ensures forall k :: 0 <= k < |segs| ==> '\n' !in segs[k]
    decreases |s| - p
  {
    var n := Find(s, '\n', p);
    if n == -1 then [s[p..]] else [s[p..n]] + Segments(s, n + 1)
  }

  /** `sep.join(segs)`. */
  function Join(segs: seq<string>, sep: char): string
    requires |segs| >= 1
  {
    if |segs| == 1 then segs[0] else segs[0] + [sep] + Join(segs[1..], sep)
  }

  /** Splitting at line breaks and joining with line breaks is the identity. */
  lemma {:induction false} JoinSegments(s: string, p: nat)
    requires p <= |s|
    ensures Join(Segments(s, p), '\n') == s[p..]
    decreases |s| - p
  {
    var n := Find(s, '\n', p);
    if n != -1 {
      var head, rest := s[p..n], Segments(s, n + 1);
      assert Segments(s, p) == [head] + rest;
      JoinSegments(s, n + 1);
      JoinCons(head, rest, '\n');
      SplitAround(s, p, n);
    }
  }

  lemma JoinCons(a: string, rest: seq<string>, sep: char)
    requires |rest| >= 1
    ensures Join([a] + rest, sep) == a + [sep] + Join(rest, sep)
  {
    assert ([a] + rest)[1..] == rest;
  }

  lemma SplitAround<T>(s: seq<T>, p: nat, n: nat)
    requires p <= n < |s|
    ensures s[p..] == s[p..n] + [s[n]] + s[n + 1..]
  {
  }

  /** A string without line breaks is a single segment. */
  lemma {:induction false} SegmentsNoBreak(s: string, p: nat)
    requires p <= |s| && '\n' !in s[p..]
    ensures Segments(s, p) == [s[p..]]
    decreases |s| - p
  {
  }

  /** The first white-space index of s, or |s|. */
  function SpaceIndex(s: string): (k: nat)
    ensures k <= |s| && (k < |s| ==> IsSpace(s[k]))
    ensures s != [] && !IsSpace(s[0]) ==> k > 0
  {
    if s == [] || IsSpace(s[0]) then 0 else 1 + SpaceIndex(s[1..])
  }

  /** No white space comes before `SpaceIndex`. */
  lemma {:induction false} SpaceIndexFirst(s: string)
    ensures forall j :: 0 <= j < SpaceIndex(s) ==> !IsSpace(s[j])
  {
    if s != [] && !IsSpace(s[0]) {
      SpaceIndexFirst(s[1..]);
      assert forall j :: 0 < j < |s| ==> s[1..][j - 1] == s[j];
    }
  }

  /** A word of `str.split()`: non-empty, with no white space in it. */
  predicate IsWord(s: string)
  {
    s != [] && forall j :: 0 <= j < |s| ==> !IsSpace(s[j])
  }

  /** `s.split()`: the maximal runs of non-white-space characters. */
  function Words(s: string): seq<string>
    decreases |s|
  {
    var t := StripLeft(s);
    if t == [] then []
    else
      var k := SpaceIndex(t);
      [t[..k]] + Words(t[k..])
  }

  /** Every piece `split()` returns is a word. */
  lemma {:induction false} WordsAreWords(s: string)
    ensures AllWords(Words(s))
    decreases |s|
  {
    var t := StripLeft(s);
    if t != [] {
      var k := SpaceIndex(t);
      var w, rest := t[..k], t[k..];
      assert Words(s) == [w] + Words(rest);
      WordsAreWords(rest);
      FirstWord(t);
      AllWordsCons(w, Words(rest));
    }
  }

  /** Every string of ws is a word. */
  predicate AllWords(ws: seq<string>)
  {
    forall k :: 0 <= k < |ws| ==> IsWord(ws[k])
  }

  lemma FirstWord(t: string)
    requires t != [] && !IsSpace(t[0])
    ensures IsWord(t[..SpaceIndex(t)])
  {
    SpaceIndexFirst(t);
    var k := SpaceIndex(t);
    assert forall j :: 0 <= j < k ==> t[..k][j] == t[j];
  }

  lemma AllWordsCons(w: string, rest: seq<string>)
    requires IsWord(w) && AllWords(rest)
    ensures AllWords([w] + rest)
  {
    assert forall i :: 0 < i < |rest| + 1 ==> ([w] + rest)[i] == rest[i - 1];
  }
}
