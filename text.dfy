/** Python's string operations that the pipeline relies on, with Python's meaning:
    `str.split(sep)`, `sep.join(parts)`, `startswith`, `endswith`, the `in` test and `strip()`. */
module Text {

  datatype Option<T> = None | Some(value: T)

  /** `sep` occurs in `s` at index `i`. */
  predicate MatchAt(s: string, sep: string, i: int) {
    0 <= i && i + |sep| <= |s| && s[i..i + |sep|] == sep
  }

  /** Python `sep in s`. */
  predicate Contains(s: string, sep: string) {
    exists i :: 0 <= i <= |s| - |sep| && MatchAt(s, sep, i)
  }

  /** Python `s.startswith(p)`. */
  predicate StartsWith(s: string, p: string) {
    |p| <= |s| && s[..|p|] == p
  }

  /** Appending keeps a prefix. */
  lemma StartsWithAppend(s: string, p: string, t: string)
    requires StartsWith(s, p)
    ensures StartsWith(s + t, p)
  {
    assert (s + t)[..|p|] == s[..|p|];
  }

  /** Python `s.endswith(p)`. */
  predicate EndsWith(s: string, p: string) {
    |p| <= |s| && s[|s| - |p|..] == p
  }

  /** Prepending keeps a suffix. */
  lemma EndsWithPrepend(s: string, t: string, p: string)
    requires EndsWith(t, p)
    ensures EndsWith(s + t, p)
  {
    assert (s + t)[|s + t| - |p|..] == t[|t| - |p|..];
  }

  /** No occurrence of `sep` in `s` starts before index `n`. */
  predicate NoMatchBefore(s: string, sep: string, n: int) {
    forall j :: 0 <= j < n ==> !MatchAt(s, sep, j)
  }

  lemma MatchShift(s: string, sep: string, j: int)
    requires |s| > 0 && j >= 1
    ensures MatchAt(s, sep, j) == MatchAt(s[1..], sep, j - 1)
  {
    if j + |sep| <= |s| {
      assert s[1..][j - 1..j - 1 + |sep|] == s[j..j + |sep|];
    }
  }

  /** The leftmost occurrence of `sep` in `s`, as `str.find` gives it. */
  function Find(s: string, sep: string): (r: Option<nat>)
    ensures r.Some? ==> MatchAt(s, sep, r.value) && NoMatchBefore(s, sep, r.value)
    ensures r.None? ==> NoMatchBefore(s, sep, |s| + 1)
    decreases |s|
  {
    if |s| < |sep| then None
    else if s[..|sep|] == sep then Some(0)
    else
      assert forall j :: 1 <= j ==> MatchAt(s, sep, j) == MatchAt(s[1..], sep, j - 1) by {
        forall j | 1 <= j { MatchShift(s, sep, j); }
      }
      match Find(s[1..], sep)
      case None => None
      case Some(i) => Some(i + 1)
  }

  /** Python `s.split(sep)`: cut at every occurrence of `sep`, found left to right without overlap. */
  function Split(s: string, sep: string): (r: seq<string>)
    requires sep != []
    ensures |r| >= 1
    decreases |s|
  {
    match Find(s, sep)
    case None => [s]
    case Some(i) => [s[..i]] + Split(s[i + |sep|..], sep)
  }

  /** Python `sep.join(parts)`: the result starts with the first part and ends with the last. */
  function Join(parts: seq<string>, sep: string): (r: string)
    ensures parts != [] ==> StartsWith(r, parts[0]) && EndsWith(r, parts[|parts| - 1])
  {
    if |parts| == 0 then ""
    else if |parts| == 1 then parts[0]
    else
      var rest := Join(parts[1..], sep);
      JoinFrame(parts[0], sep, rest, parts[|parts| - 1]);
      parts[0] + sep + rest
  }

  lemma JoinFrame(first: string, sep: string, rest: string, last: string)
    requires EndsWith(rest, last)
    ensures StartsWith(first + sep + rest, first) && EndsWith(first + sep + rest, last)
  {
    EndsWithPrepend(first + sep, rest, last);
    assert (first + sep + rest)[..|first|] == first;
  }

  /** The number of non-overlapping occurrences of `sep`, counted by a left-to-right scan (Python `s.count(sep)`). */
  function MatchCount(s: string, sep: string): nat
    requires sep != []
    decreases |s|
  {
    if |s| < |sep| then 0
    else if s[..|sep|] == sep then 1 + MatchCount(s[|sep|..], sep)
    else MatchCount(s[1..], sep)
  }

  /** Joining the pieces of a split with the same separator gives back the original string. */
  lemma {:induction false} SplitJoin(s: string, sep: string)
    requires sep != []
    ensures Join(Split(s, sep), sep) == s
    decreases |s|
  {
    match Find(s, sep)
    case None =>
    case Some(i) =>
      var rest := s[i + |sep|..];
      SplitJoin(rest, sep);
      JoinCons(s[..i], Split(rest, sep), sep);
      AroundMatch(s, sep, i);
  }

  lemma JoinCons(p: string, parts: seq<string>, sep: string)
    requires parts != []
    ensures Join([p] + parts, sep) == p + sep + Join(parts, sep)
  {
    assert ([p] + parts)[1..] == parts;
  }

  lemma AroundMatch(s: string, sep: string, i: nat)
    requires MatchAt(s, sep, i)
    ensures s == s[..i] + sep + s[i + |sep|..]
  {
    assert s == s[..i] + s[i..i + |sep|] + s[i + |sep|..];
  }

  /** Every piece but the last ends just before the leftmost occurrence of `sep` at or after its start,
      and the last piece holds no occurrence at all. */
  lemma {:induction false} SplitPieces(s: string, sep: string)
    requires sep != []
    ensures forall k :: 0 <= k < |Split(s, sep)| - 1 ==>
      NoMatchBefore(Split(s, sep)[k] + sep, sep, |Split(s, sep)[k]|)
    ensures NoMatchBefore(Split(s, sep)[|Split(s, sep)| - 1], sep, |Split(s, sep)[|Split(s, sep)| - 1]| + 1)
    decreases |s|
  {
    match Find(s, sep)
    case None =>
    case Some(i) =>
      var rest := s[i + |sep|..];
      SplitPieces(rest, sep);
      var tail := Split(rest, sep);
      var r := [s[..i]] + tail;
      assert r == Split(s, sep);
      FirstPieceClean(s, sep, i);
      forall k | 0 <= k < |r| - 1
        ensures NoMatchBefore(r[k] + sep, sep, |r[k]|)
      {
        if k > 0 {
          assert r[k] == tail[k - 1];
        }
      }
      assert r[|r| - 1] == tail[|tail| - 1];
  }

  /** The text before the leftmost occurrence, followed by the separator, has no earlier occurrence. */
  lemma FirstPieceClean(s: string, sep: string, i: nat)
    requires MatchAt(s, sep, i) && NoMatchBefore(s, sep, i)
    ensures NoMatchBefore(s[..i] + sep, sep, i)
  {
    var t := s[..i] + sep;
    assert t == s[..i + |sep|];
    forall j | 0 <= j < i ensures MatchAt(t, sep, j) == MatchAt(s, sep, j) {
      assert t[j..j + |sep|] == s[j..j + |sep|];
    }
  }

  lemma {:induction false} MatchCountNone(s: string, sep: string)
    requires sep != []
    requires NoMatchBefore(s, sep, |s| + 1)
    ensures MatchCount(s, sep) == 0
    decreases |s|
  {
    if |s| >= |sep| {
      assert !MatchAt(s, sep, 0);
      forall j | 0 <= j < |s| ensures !MatchAt(s[1..], sep, j) {
        MatchShift(s, sep, j + 1);
      }
      MatchCountNone(s[1..], sep);
    }
  }

  lemma {:induction false} MatchCountSkip(s: string, sep: string, i: nat)
    requires sep != []
    requires MatchAt(s, sep, i)
    requires NoMatchBefore(s, sep, i)
    ensures MatchCount(s, sep) == 1 + MatchCount(s[i + |sep|..], sep)
    decreases i
  {
    if i > 0 {
      assert !MatchAt(s, sep, 0);
      MatchShift(s, sep, i);
      forall j | 0 <= j < i - 1 ensures !MatchAt(s[1..], sep, j) {
        MatchShift(s, sep, j + 1);
      }
      MatchCountSkip(s[1..], sep, i - 1);
      assert s[1..][i - 1 + |sep|..] == s[i + |sep|..];
    }
  }

  /** A split yields one piece more than there are occurrences of the separator. */
  lemma {:induction false} SplitCount(s: string, sep: string)
    requires sep != []
    ensures |Split(s, sep)| == MatchCount(s, sep) + 1
    decreases |s|
  {
    match Find(s, sep)
    case None =>
      MatchCountNone(s, sep);
    case Some(i) =>
      MatchCountSkip(s, sep, i);
      SplitCount(s[i + |sep|..], sep);
  }

  /** Whitespace as Python's `str.isspace` sees it, restricted to ASCII. */
  predicate IsSpace(c: char) {
    c == ' ' || c == '\t' || c == '\n' || c == '\r' || c == '\U{000B}' || c == '\U{000C}'
    || c == '\U{001C}' || c == '\U{001D}' || c == '\U{001E}' || c == '\U{001F}'
  }

  /** The number of whitespace characters at the start of `s`. */
  function LeadingSpaces(s: string): (n: nat)
    ensures n <= |s|
    ensures forall k :: 0 <= k < n ==> IsSpace(s[k])
    ensures n < |s| ==> !IsSpace(s[n])
  {
    if s != [] && IsSpace(s[0]) then 1 + LeadingSpaces(s[1..]) else 0
  }

  function TrimEnd(s: string): (r: string)
    ensures |r| <= |s| && r == s[..|r|]
    ensures forall k :: |r| <= k < |s| ==> IsSpace(s[k])
    ensures r == [] || !IsSpace(r[|r| - 1])
  {
    if s != [] && IsSpace(s[|s| - 1]) then TrimEnd(s[..|s| - 1]) else s
  }

  /** Python `s.strip()`: the slice of `s` left once the whitespace at both ends is cut off. */
  function Strip(s: string): (r: string)
    ensures r == [] || (!IsSpace(r[0]) && !IsSpace(r[|r| - 1]))
    ensures LeadingSpaces(s) + |r| <= |s|
    ensures r == s[LeadingSpaces(s)..LeadingSpaces(s) + |r|]
    ensures forall k :: LeadingSpaces(s) + |r| <= k < |s| ==> IsSpace(s[k])
  {
    var i := LeadingSpaces(s);
    var r := TrimEnd(s[i..]);
    assert forall k :: i + |r| <= k < |s| ==> s[k] == s[i..][k - i];
    r
  }
}
