/**
 * The fragment of Python's `str` that the modelled code relies on:
 * `sep in s`, `s.split(sep)`, `sep.join(parts)`, `s.replace(pat, rep)` and
 * `s.strip()`. Every separator used by the program is a non-empty literal,
 * so the separators here are required to be non-empty (Python rejects an
 * empty separator in `split` and treats it specially in `replace`).
 */
module Strings {
  import opened Wrappers

  /** `sep` occurs in `s` starting at index `i`. */
  predicate OccursAt(s: string, sep: string, i: int)
  {
    0 <= i && i + |sep| <= |s| && s[i..i + |sep|] == sep
  }

  /** Python's `sep in s`. */
  predicate Contains(s: string, sep: string)
  {
    exists i :: 0 <= i <= |s| && OccursAt(s, sep, i)
  }

  /** Occurrences in `s[1..]` are the occurrences in `s` shifted by one. */
  lemma OccursShift(s: string, sep: string)
    requires |s| > 0
    ensures forall j :: OccursAt(s[1..], sep, j) ==> OccursAt(s, sep, j + 1)
    ensures forall i :: 1 <= i && OccursAt(s, sep, i) ==> OccursAt(s[1..], sep, i - 1)
  {
    forall j | OccursAt(s[1..], sep, j) ensures OccursAt(s, sep, j + 1) {
      assert s[1..][j..j + |sep|] == s[j + 1..j + 1 + |sep|];
    }
    forall i | 1 <= i && OccursAt(s, sep, i) ensures OccursAt(s[1..], sep, i - 1) {
      assert s[1..][i - 1..i - 1 + |sep|] == s[i..i + |sep|];
    }
  }

  /** An occurrence inside a slice is an occurrence in the whole string. */
  lemma OccursInSlice(s: string, sep: string, lo: int, hi: int, k: int)
    requires 0 <= lo <= hi <= |s|
    requires OccursAt(s[lo..hi], sep, k)
    ensures OccursAt(s, sep, lo + k)
  {
    var a, b := s[lo..hi][k..k + |sep|], s[lo + k..lo + k + |sep|];
    forall m | 0 <= m < |sep| ensures a[m] == b[m] {
      assert a[m] == s[lo + k + m];
    }
    assert a == b;
  }

  /** A slice of a string that does not contain `sep` does not contain it either. */
  lemma SliceKeepsAbsence(s: string, sep: string, lo: int, hi: int)
    requires 0 <= lo <= hi <= |s|
    requires !Contains(s, sep)
    ensures !Contains(s[lo..hi], sep)
  {
    forall k | OccursAt(s[lo..hi], sep, k) ensures false {
      OccursInSlice(s, sep, lo, hi, k);
    }
  }

  /** Index of the first occurrence of `sep` in `s` (Python's `s.find(sep)`, with None for -1). */
  function FindFirst(s: string, sep: string): (r: Option<nat>)
    requires |sep| > 0
    ensures r.None? <==> !Contains(s, sep)
    ensures r.Some? ==> OccursAt(s, sep, r.value)
    ensures r.Some? ==> forall j :: 0 <= j < r.value ==> !OccursAt(s, sep, j)
    decreases |s|
  {
    if |s| < |sep| then None
    else if s[..|sep|] == sep then assert OccursAt(s, sep, 0); Some(0)
    else
      OccursShift(s, sep);
      assert !OccursAt(s, sep, 0);
      match FindFirst(s[1..], sep)
      case None => None
      case Some(j) => Some(j + 1)
  }

  /** An occurrence with none before it is the one `FindFirst` reports. */
  lemma FindFirstIs(s: string, sep: string, k: nat)
    requires |sep| > 0
    requires OccursAt(s, sep, k)
    requires forall j :: 0 <= j < k ==> !OccursAt(s, sep, j)
    ensures FindFirst(s, sep) == Some(k)
  {
    assert 0 <= k <= |s| && OccursAt(s, sep, k);
  }

  /** One differing character rules out an occurrence. */
  lemma MismatchAt(s: string, sep: string, i: int, m: int)
    requires 0 <= i && 0 <= m < |sep| && i + m < |s| && s[i + m] != sep[m]
    ensures !OccursAt(s, sep, i)
  {
  }

  /** The text before the first `sep`; all of `s` when there is none. */
  function BeforeFirst(s: string, sep: string): (r: string)
    requires |sep| > 0
    ensures r <= s
    ensures !Contains(r, sep)
    ensures r == s <==> !Contains(s, sep)
    ensures Contains(s, sep) ==> OccursAt(s, sep, |r|)
    ensures Contains(s, sep) ==> FindFirst(s, sep) == Some(|r|)
  {
    match FindFirst(s, sep)
    case None => s
    case Some(i) =>
      forall k | OccursAt(s[..i], sep, k) ensures false {
        OccursInSlice(s, sep, 0, i, k);
      }
      s[..i]
  }

  /** The text after the first `sep`. */
  function AfterFirst(s: string, sep: string): (r: string)
    requires |sep| > 0
    requires Contains(s, sep)
    ensures s == BeforeFirst(s, sep) + sep + r
  {
    var i := FindFirst(s, sep).value;
    assert s == s[..i] + s[i..i + |sep|] + s[i + |sep|..];
    s[i + |sep|..]
  }

  /** Both halves around a found occurrence, as slices. */
  lemma CutAt(s: string, sep: string)
    requires |sep| > 0 && FindFirst(s, sep).Some?
    ensures BeforeFirst(s, sep) == s[..FindFirst(s, sep).value]
    ensures AfterFirst(s, sep) == s[FindFirst(s, sep).value + |sep|..]
  {
  }

  /** Cutting `s` at `n` keeps its first `sep` when that occurrence ends by `n`. */
  lemma PrefixKeepsFirst(s: string, sep: string, n: nat)
    requires |sep| > 0 && n <= |s|
    requires FindFirst(s, sep).Some? && FindFirst(s, sep).value + |sep| <= n
    ensures BeforeFirst(s[..n], sep) == BeforeFirst(s, sep)
  {
    var i := FindFirst(s, sep).value;
    PrefixFindFirst(s, sep, n, i);
    CutAt(s[..n], sep);
    CutAt(s, sep);
    NestedPrefix(s, n, i);
  }

  lemma PrefixFindFirst(s: string, sep: string, n: nat, i: nat)
    requires |sep| > 0 && i + |sep| <= n <= |s|
    requires OccursAt(s, sep, i) && forall j :: 0 <= j < i ==> !OccursAt(s, sep, j)
    ensures FindFirst(s[..n], sep) == Some(i)
  {
    var p := s[..n];
    assert p[i..i + |sep|] == s[i..i + |sep|];
    forall k | 0 <= k < i && OccursAt(p, sep, k) ensures false {
      OccursInSlice(s, sep, 0, n, k);
    }
    FindFirstIs(p, sep, i);
  }

  lemma NestedPrefix(s: string, n: nat, i: nat)
    requires i <= n <= |s|
    ensures s[..n][..i] == s[..i]
  {
  }

  /** Cutting `s` at `n` before its first `sep` ends leaves no `sep` in the cut. */
  lemma PrefixMissesFirst(s: string, sep: string, n: nat)
    requires |sep| > 0 && n <= |s|
    requires !(FindFirst(s, sep).Some? && FindFirst(s, sep).value + |sep| <= n)
    ensures BeforeFirst(s[..n], sep) == s[..n]
  {
    var p := s[..n];
    forall k | 0 <= k <= |p| && OccursAt(p, sep, k) ensures false {
      OccursInSlice(s, sep, 0, n, k);
    }
  }

  /** Python's `s.split(sep)`. */
  function Split(s: string, sep: string): (r: seq<string>)
    requires |sep| > 0
    ensures |r| >= 1
    ensures |r| >= 2 <==> Contains(s, sep)
    decreases |s|
  {
    match FindFirst(s, sep)
    case None => [s]
    case Some(i) => [s[..i]] + Split(s[i + |sep|..], sep)
  }

  /** Python's `sep.join(parts)`. */
  function Join(parts: seq<string>, sep: string): string
  {
    if |parts| == 0 then ""
    else if |parts| == 1 then parts[0]
    else parts[0] + sep + Join(parts[1..], sep)
  }

  /** Python's `s.replace(pat, rep)`: a left-to-right scan replacing non-overlapping occurrences. */
  function ReplaceAll(s: string, pat: string, rep: string): string
    requires |pat| > 0
    decreases |s|
  {
    if |s| < |pat| then s
    else if s[..|pat|] == pat then rep + ReplaceAll(s[|pat|..], pat, rep)
    else [s[0]] + ReplaceAll(s[1..], pat, rep)
  }

  /** The first piece of a split is the text before the first separator. */
  lemma SplitFirst(s: string, sep: string)
    requires |sep| > 0
    ensures Split(s, sep)[0] == BeforeFirst(s, sep)
  {
  }

  /** The second piece of a split is the text between the first and the second separator. */
  lemma SplitSecond(s: string, sep: string)
    requires |sep| > 0
    requires Contains(s, sep)
    ensures Split(s, sep)[1] == BeforeFirst(AfterFirst(s, sep), sep)
  {
    var i := FindFirst(s, sep).value;
    assert AfterFirst(s, sep) == s[i + |sep|..];
  }

  function Last(parts: seq<string>): string
    requires |parts| > 0
  {
    parts[|parts| - 1]
  }

  /** A join of two or more parts ends with the separator and the last part. */
  lemma {:induction false} JoinLast(parts: seq<string>, sep: string)
    requires |parts| >= 2
    ensures Join(parts, sep) == Join(parts[..|parts| - 1], sep) + sep + Last(parts)
    decreases |parts|
  {
    if |parts| > 2 {
      var tail := parts[1..];
      JoinLast(tail, sep);
      assert tail[..|tail| - 1] == parts[1..|parts| - 1];
      assert parts[..|parts| - 1] == [parts[0]] + parts[1..|parts| - 1];
      JoinCons(parts[0], parts[1..|parts| - 1], sep);
    }
  }

  /** The last piece of a split (Python's `s.split(sep)[-1]`) ends the string, right after the last separator. */
  lemma SplitLast(s: string, sep: string)
    requires |sep| > 0
    ensures |Last(Split(s, sep))| <= |s| && s[|s| - |Last(Split(s, sep))|..] == Last(Split(s, sep))
    ensures Contains(s, sep) ==> OccursAt(s, sep, |s| - |Last(Split(s, sep))| - |sep|)
  {
    var r := Split(s, sep);
    JoinSplit(s, sep);
    if |r| >= 2 {
      var front := Join(r[..|r| - 1], sep);
      JoinLast(r, sep);
      assert s == front + sep + Last(r);
      assert s[|front|..|front| + |sep|] == sep;
      assert s[|s| - |Last(r)|..] == Last(r);
    }
  }

  /** No piece of a split contains the separator. */
  lemma {:induction false} SplitPiecesFree(s: string, sep: string)
    requires |sep| > 0
    ensures forall k :: 0 <= k < |Split(s, sep)| ==> !Contains(Split(s, sep)[k], sep)
    decreases |s|
  {
    if FindFirst(s, sep).Some? {
      var i := FindFirst(s, sep).value;
      var rest := s[i + |sep|..];
      SplitPiecesFree(rest, sep);
      SplitAt(s, sep);
      CutAt(s, sep);
      PiecesFreeCons(s[..i], Split(rest, sep), sep);
    }
  }

  lemma PiecesFreeCons(a: string, q: seq<string>, sep: string)
    requires !Contains(a, sep)
    requires forall k :: 0 <= k < |q| ==> !Contains(q[k], sep)
    ensures forall k :: 0 <= k < |[a] + q| ==> !Contains(([a] + q)[k], sep)
  {
    forall k | 0 <= k < |[a] + q| ensures !Contains(([a] + q)[k], sep) {
      if k > 0 {
        assert ([a] + q)[k] == q[k - 1];
      }
    }
  }

  lemma JoinCons(a: string, rest: seq<string>, sep: string)
    requires |rest| >= 1
    ensures Join([a] + rest, sep) == a + sep + Join(rest, sep)
  {
    assert ([a] + rest)[1..] == rest;
  }

  /** Joining the pieces of a split with the same separator gives back the string. */
  lemma {:induction false} JoinSplit(s: string, sep: string)
    requires |sep| > 0
    ensures Join(Split(s, sep), sep) == s
    decreases |s|
  {
    match FindFirst(s, sep)
    case None =>
    case Some(i) =>
      var rest := s[i + |sep|..];
      JoinSplit(rest, sep);
      JoinCons(s[..i], Split(rest, sep), sep);
      assert s == s[..i] + s[i..i + |sep|] + rest;
  }

  /** A split at the first occurrence: the piece before it, then the split of the rest. */
  lemma SplitAt(s: string, sep: string)
    requires |sep| > 0 && FindFirst(s, sep).Some?
    ensures Split(s, sep) == [s[..FindFirst(s, sep).value]] + Split(s[FindFirst(s, sep).value + |sep|..], sep)
  {
  }

  /** The text after the first `open`, cut at the first `close`, as a slice at explicit indices. */
  lemma BetweenFirstAt(s: string, open: string, close: string, at: nat, len: nat)
    requires |open| > 0 && |close| > 0
    requires FindFirst(s, open) == Some(at)
    requires FindFirst(s[at + |open|..], close) == Some(len)
    ensures Contains(s, open)
    ensures BeforeFirst(AfterFirst(s, open), close) == s[at + |open|..at + |open| + len]
  {
    CutAt(s, open);
    CutAt(s[at + |open|..], close);
    assert s[at + |open|..][..len] == s[at + |open|..at + |open| + len];
  }

  /** When `sep` does not start the string, its first occurrence is one further than in `s[1..]`. */
  lemma FindFirstSkip(s: string, sep: string)
    requires |sep| > 0 && |s| >= |sep| && s[..|sep|] != sep
    ensures FindFirst(s[1..], sep).None? ==> FindFirst(s, sep).None?
    ensures FindFirst(s[1..], sep).Some? ==>
      FindFirst(s, sep).Some? && FindFirst(s, sep).value == FindFirst(s[1..], sep).value + 1
  {
  }

  lemma TailSlices(s: string, j: nat, n: nat)
    requires j + 1 + n <= |s|
    ensures s[1..][j + n..] == s[j + 1 + n..]
    ensures [s[0]] + s[1..][..j] == s[..j + 1]
  {
  }

  lemma ConsRegroup(c: char, a: string, b: string, d: string)
    ensures [c] + (a + b + d) == ([c] + a) + b + d
  {
  }

  /** Two splits that differ only in their first piece, by one leading character, join to texts that differ the same way. */
  lemma JoinStep(ps: seq<string>, pt: seq<string>, a: string, b: string, c: char, q: seq<string>, sep: string)
    requires ps == [a] + q && pt == [b] + q && |q| >= 1 && [c] + b == a
    ensures Join(ps, sep) == [c] + Join(pt, sep)
  {
    JoinCons(a, q, sep);
    JoinCons(b, q, sep);
    ConsRegroup(c, b, sep, Join(q, sep));
  }

  /** One step of the scan when `pat` does not start the string: the first piece grows by one character. */
  lemma SplitSkipStep(s: string, pat: string, rep: string)
    requires |pat| > 0 && |s| >= |pat| && s[..|pat|] != pat
    ensures Join(Split(s, pat), rep) == [s[0]] + Join(Split(s[1..], pat), rep)
  {
    var tail := s[1..];
    FindFirstSkip(s, pat);
    if FindFirst(tail, pat).None? {
      assert [s[0]] + tail == s;
    } else {
      var j := FindFirst(tail, pat).value;
      TailSlices(s, j, |pat|);
      SplitAt(tail, pat);
      SplitAt(s, pat);
      JoinStep(Split(s, pat), Split(tail, pat), s[..j + 1], tail[..j], s[0], Split(s[j + 1 + |pat|..], pat), rep);
    }
  }

  /** Python's identity `s.replace(pat, rep) == rep.join(s.split(pat))`. */
  lemma {:induction false} ReplaceAllIsJoinOfSplit(s: string, pat: string, rep: string)
    requires |pat| > 0
    ensures ReplaceAll(s, pat, rep) == Join(Split(s, pat), rep)
    decreases |s|
  {
    if |s| < |pat| {
    } else if s[..|pat|] == pat {
      var rest := s[|pat|..];
      ReplaceAllIsJoinOfSplit(rest, pat, rep);
      assert FindFirst(s, pat) == Some(0);
      assert Split(s, pat) == [""] + Split(rest, pat);
      JoinCons("", Split(rest, pat), rep);
    } else {
      ReplaceAllIsJoinOfSplit(s[1..], pat, rep);
      SplitSkipStep(s, pat, rep);
    }
  }

  /** When `pat` does not occur, `replace` returns the string unchanged. */
  lemma ReplaceAllAbsent(s: string, pat: string, rep: string)
    requires |pat| > 0
    requires !Contains(s, pat)
    ensures ReplaceAll(s, pat, rep) == s
  {
    ReplaceAllIsJoinOfSplit(s, pat, rep);
  }

  /** Characters Python's `str.isspace()` accepts, hence those `str.strip()` removes. */
  predicate IsSpace(c: char)
  {
    var n := c as int;
    (0x09 <= n <= 0x0D) || (0x1C <= n <= 0x20) || n == 0x85 || n == 0xA0 || n == 0x1680
    || (0x2000 <= n <= 0x200A) || n == 0x2028 || n == 0x2029 || n == 0x202F || n == 0x205F
    || n == 0x3000
  }

  predicate AllSpace(t: string)
  {
    forall i :: 0 <= i < |t| ==> IsSpace(t[i])
  }

  /** `r` is the slice of `s` starting at `lo`. */
  predicate IsSliceAt(r: string, s: string, lo: int)
  {
    0 <= lo && lo + |r| <= |s| && s[lo..lo + |r|] == r
  }

  function TrimLeft(s: string): (r: string)
    ensures |r| <= |s| && r == s[|s| - |r|..]
    ensures forall i :: 0 <= i < |s| - |r| ==> IsSpace(s[i])
    ensures |r| > 0 ==> !IsSpace(r[0])
    decreases |s|
  {
    if |s| > 0 && IsSpace(s[0]) then TrimLeft(s[1..]) else s
  }

  function TrimRight(s: string): (r: string)
    ensures |r| <= |s| && r == s[..|r|]
    ensures forall i :: |r| <= i < |s| ==> IsSpace(s[i])
    ensures |r| > 0 ==> !IsSpace(r[|r| - 1])
    decreases |s|
  {
    if |s| > 0 && IsSpace(s[|s| - 1]) then TrimRight(s[..|s| - 1]) else s
  }

  /** Python's `s.strip()`: the slice of `s` left once whitespace is removed from both ends. */
  function Strip(s: string): (r: string)
    ensures |r| > 0 ==> !IsSpace(r[0]) && !IsSpace(r[|r| - 1])
    ensures exists lo :: IsSliceAt(r, s, lo) && AllSpace(s[..lo]) && AllSpace(s[lo + |r|..])
  {
    var t := TrimLeft(s);
    var r := TrimRight(t);
    TrimmedSlice(s, t, r);
    r
  }

  /** A prefix `r` of a suffix `t` of `s`, with only whitespace cut off, is a slice between whitespace margins. */
  lemma TrimmedSlice(s: string, t: string, r: string)
    requires |t| <= |s| && t == s[|s| - |t|..] && forall i :: 0 <= i < |s| - |t| ==> IsSpace(s[i])
    requires |r| <= |t| && r == t[..|r|] && forall i :: |r| <= i < |t| ==> IsSpace(t[i])
    ensures IsSliceAt(r, s, |s| - |t|)
    ensures AllSpace(s[..|s| - |t|]) && AllSpace(s[|s| - |t| + |r|..])
  {
    var lo := |s| - |t|;
    assert s[lo..lo + |r|] == r;
    var u := s[lo + |r|..];
    forall i | 0 <= i < |u| ensures IsSpace(u[i]) {
      assert u[i] == t[|r| + i];
    }
  }

  /** Leading whitespace is trimmed the same way when text not starting with whitespace follows. */
  lemma {:induction false} TrimLeftAppend(v: string, w: string)
    requires |w| > 0 && !IsSpace(w[0])
    ensures TrimLeft(v + w) == TrimLeft(v) + w
    decreases |v|
  {
    if |v| > 0 && IsSpace(v[0]) {
      assert (v + w)[1..] == v[1..] + w;
      TrimLeftAppend(v[1..], w);
    }
  }

  /**
   * Appending text with no whitespace at either end makes the strip longer:
   * the appended text is kept whole, together with everything after the
   * leading whitespace.
   */
  lemma StripAppend(v: string, w: string)
    requires |w| > 0 && !IsSpace(w[0]) && !IsSpace(w[|w| - 1])
    ensures Strip(v + w) == TrimLeft(v) + w
    ensures |Strip(v)| < |Strip(v + w)|
  {
    TrimLeftAppend(v, w);
    var t := TrimLeft(v) + w;
    assert t[|t| - 1] == w[|w| - 1];
    assert TrimRight(t) == t;
  }

  /** Text with no whitespace at either end is left as it is. */
  lemma StripUnchanged(s: string)
    requires |s| > 0 && !IsSpace(s[0]) && !IsSpace(s[|s| - 1])
    ensures Strip(s) == s
  {
  }

  /** Stripping never introduces a separator. */
  lemma StripKeepsAbsence(s: string, sep: string)
    requires !Contains(s, sep)
    ensures !Contains(Strip(s), sep)
  {
    var r := Strip(s);
    var lo :| IsSliceAt(r, s, lo);
    SliceKeepsAbsence(s, sep, lo, lo + |r|);
  }

  /** `strip()` is idempotent. */
  lemma StripIdempotent(s: string)
    ensures Strip(Strip(s)) == Strip(s)
  {
    var r := Strip(s);
    assert TrimLeft(r) == r;
    assert TrimRight(r) == r;
  }
}
