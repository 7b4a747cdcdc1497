/**
 * The handful of Python string built-ins the roadmap pipeline relies on:
 * `str.strip`, substring search (`in`, `str.find`), `str.replace` and
 * `str.split`, stated over `string` (a sequence of Unicode scalar values).
 *
 * Whitespace is ASCII whitespace as Python's `str.isspace` sees it
 * (space, \t, \n, \v, \f, \r and the separators \x1c..\x1f); the non-ASCII
 * whitespace that Python also strips is not modelled.
 */
module Text {

  datatype Option<T> = None | Some(value: T)

  predicate IsSpace(c: char) {
    c == ' ' || 9 <= c as int <= 13 || 0x1c <= c as int <= 0x1f
  }

  predicate IsDigit(c: char) {
    '0' <= c <= '9'
  }

  /** The first position at or after `i` that is not whitespace, or |s|. */
  function SkipSpace(s: string, i: nat): (j: nat)
    requires i <= |s|
    ensures i <= j <= |s| && (j == |s| || !IsSpace(s[j]))
    decreases |s| - i
  {
    if i < |s| && IsSpace(s[i]) then SkipSpace(s, i + 1) else i
  }

  lemma {:induction false} SkipSpaceSkips(s: string, i: nat, k: nat)
    requires i <= |s| && i <= k < SkipSpace(s, i)
    ensures IsSpace(s[k])
    decreases |s| - i
  {
    if k > i {
      SkipSpaceSkips(s, i + 1, k);
    }
  }

  /** The first position at or after `i` that is not an ASCII digit, or |s|. */
  function SkipDigits(s: string, i: nat): (j: nat)
    requires i <= |s|
    ensures i <= j <= |s| && (j == |s| || !IsDigit(s[j]))
    decreases |s| - i
  {
    if i < |s| && IsDigit(s[i]) then SkipDigits(s, i + 1) else i
  }

  /** The end of `s[..j]` once its trailing whitespace is cut. */
  function TrimEnd(s: string, j: nat): (e: nat)
    requires j <= |s|
    ensures e <= j && (e == 0 || !IsSpace(s[e - 1]))
    decreases j
  {
    if j > 0 && IsSpace(s[j - 1]) then TrimEnd(s, j - 1) else j
  }

  lemma {:induction false} TrimEndSkips(s: string, j: nat, k: nat)
    requires j <= |s| && TrimEnd(s, j) <= k < j
    ensures IsSpace(s[k])
    decreases j
  {
    if k < j - 1 {
      TrimEndSkips(s, j - 1, k);
    }
  }

  /** Trimming the end stops at the last non-space character. */
  lemma {:induction false} TrimEndKeeps(s: string, j: nat, k: nat)
    requires k < j <= |s| && !IsSpace(s[k])
    ensures k < TrimEnd(s, j)
    decreases j
  {
    if k < j - 1 {
      TrimEndKeeps(s, j - 1, k);
    }
  }

  /** A slice of a slice is a slice. */
  lemma SliceOfSlice(s: string, a: nat, b: nat, i: nat, j: nat)
    requires a <= b <= |s| && i <= j <= b - a
    ensures s[a..b][i..j] == s[a + i..a + j]
  {
    var u, v := s[a..b][i..j], s[a + i..a + j];
    assert |u| == |v|;
    forall k | 0 <= k < |u| ensures u[k] == v[k] { }
  }

  // ---------------------------------------------------------------------------
  // str.strip()

  /** Neither end of `s` is whitespace. */
  predicate Stripped(s: string) {
    s == [] || (!IsSpace(s[0]) && !IsSpace(s[|s| - 1]))
  }

  predicate Blank(s: string) {
    forall i :: 0 <= i < |s| ==> IsSpace(s[i])
  }

  /** Python's `s.rstrip()`: drop trailing whitespace. */
  function StripRight(s: string): (r: string)
  {
    s[..TrimEnd(s, |s|)]
  }

  /** Python's `s.strip()`: drop leading and trailing whitespace. */
  function Strip(s: string): (r: string)
  {
    var a := SkipSpace(s, 0);
    if a == |s| then []
    else
      TrimEndKeeps(s, |s|, a);
      s[a..TrimEnd(s, |s|)]
  }

  /** rstrip of the stretch [c, e) of `t` is the stretch [c, c + n) for some n, and only whitespace lies beyond it. */
  lemma StripRightSlice(t: string, c: nat, e: nat)
    requires c <= e <= |t|
    ensures var r := StripRight(t[c..e]);
      && c + |r| <= e && r == t[c..c + |r|] && Blank(t[c + |r|..e])
  {
    var piece := t[c..e];
    StripRightCut(piece);
    var r := StripRight(piece);
    assert t[c..c + |r|] == piece[..|r|];
    assert t[c + |r|..e] == piece[|r|..];
  }

  /** What rstrip returns: a prefix of its input that does not end in whitespace, and only whitespace is cut away. */
  lemma StripRightCut(s: string)
    ensures var r := StripRight(s);
      && |r| <= |s| && r == s[..|r|] && Blank(s[|r|..]) && (r == [] || !IsSpace(r[|r| - 1]))
  {
    var e := TrimEnd(s, |s|);
    var tail := s[e..];
    forall i | 0 <= i < |tail| ensures IsSpace(tail[i]) {
      TrimEndSkips(s, |s|, e + i);
    }
  }

  /** What strip returns: a slice of its input, with no whitespace at either end, and only whitespace cut away. */
  lemma StripIsSlice(s: string) returns (a: nat)
    ensures a + |Strip(s)| <= |s| && Strip(s) == s[a..a + |Strip(s)|]
    ensures Stripped(Strip(s))
    ensures forall i :: 0 <= i < a ==> IsSpace(s[i])
    ensures forall i :: a + |Strip(s)| <= i < |s| ==> IsSpace(s[i])
  {
    a := SkipSpace(s, 0);
    forall i | 0 <= i < a ensures IsSpace(s[i]) {
      SkipSpaceSkips(s, 0, i);
    }
    if a < |s| {
      var e := TrimEnd(s, |s|);
      TrimEndKeeps(s, |s|, a);
      forall i | e <= i < |s| ensures IsSpace(s[i]) {
        TrimEndSkips(s, |s|, i);
      }
    }
  }

  lemma StripEnds(s: string)
    ensures Stripped(Strip(s))
  {
    var _ := StripIsSlice(s);
  }

  /** Strip gives the empty string exactly for blank input. */
  lemma StripEmpty(s: string)
    ensures Strip(s) == [] <==> Blank(s)
  {
    var a := StripIsSlice(s);
  }

  lemma StripStripped(s: string)
    requires Stripped(s)
    ensures Strip(s) == s
  {
    if s != [] {
      TrimEndKeeps(s, |s|, |s| - 1);
    }
  }

  /** Stripping a string that starts with a non-space only cuts its tail. */
  lemma StripKeepsFront(s: string)
    requires s != [] && !IsSpace(s[0])
    ensures Strip(s) == StripRight(s) && Strip(s) != [] && Strip(s) == s[..|Strip(s)|]
  {
    TrimEndKeeps(s, |s|, 0);
  }

  /** Stripping a string that starts with a non-space keeps every prefix that ends in a non-space. */
  lemma StripKeepsPrefix(s: string, n: nat)
    requires 0 < n <= |s| && !IsSpace(s[0]) && !IsSpace(s[n - 1])
    ensures n <= |Strip(s)| && Strip(s)[..n] == s[..n]
  {
    TrimEndKeeps(s, |s|, 0);
    TrimEndKeeps(s, |s|, n - 1);
  }

  // ---------------------------------------------------------------------------
  // `[x.strip() for x in pieces if x.strip()]`

  /** The pieces from `i` on, each trimmed. */
  function StripAll(pieces: seq<string>, i: nat): (r: seq<string>)
    requires i <= |pieces|
    ensures |r| == |pieces| - i
    decreases |pieces| - i
  {
    if i == |pieces| then [] else [Strip(pieces[i])] + StripAll(pieces, i + 1)
  }

  lemma {:induction false} StripAllAt(pieces: seq<string>, i: nat, m: nat)
    requires i + m < |pieces|
    ensures StripAll(pieces, i)[m] == Strip(pieces[i + m])
    decreases m
  {
    var x := Strip(pieces[i]);
    var rest := StripAll(pieces, i + 1);
    assert StripAll(pieces, i) == [x] + rest;
    if m > 0 {
      StripAllAt(pieces, i + 1, m - 1);
      assert ([x] + rest)[m] == rest[m - 1];
    } else {
      assert ([x] + rest)[0] == x;
    }
  }

  /** The sections from `i` on that are not empty, in order. */
  function NonEmpty(sections: seq<string>, i: nat): (r: seq<string>)
    requires i <= |sections|
    ensures |r| <= |sections| - i
    decreases |sections| - i
  {
    if i == |sections| then []
    else if |sections[i]| == 0 then NonEmpty(sections, i + 1)
    else [sections[i]] + NonEmpty(sections, i + 1)
  }

  /** Every kept section is one of the sections, and not empty. */
  lemma {:induction false} NonEmptyMembers(sections: seq<string>, i: nat, x: string)
    requires i <= |sections| && x in NonEmpty(sections, i)
    ensures x != [] && exists j :: i <= j < |sections| && x == sections[j]
    decreases |sections| - i
  {
    if |sections[i]| == 0 || x != sections[i] {
      NonEmptyMembers(sections, i + 1, x);
    }
  }

  /** When no section is empty, all are kept. */
  lemma {:induction false} NonEmptyAll(sections: seq<string>, i: nat)
    requires i <= |sections| && forall j :: i <= j < |sections| ==> |sections[j]| > 0
    ensures NonEmpty(sections, i) == sections[i..]
    decreases |sections| - i
  {
    if i < |sections| {
      NonEmptyAll(sections, i + 1);
      assert sections[i..] == [sections[i]] + sections[i + 1..];
    }
  }

  // ---------------------------------------------------------------------------
  // Substrings: `p in s`, `s.find(p)`

  predicate OccursAt(s: string, p: string, i: int) {
    0 <= i && i + |p| <= |s| && s[i..i + |p|] == p
  }

  /** Python's `p in s`. */
  predicate Contains(s: string, p: string) {
    exists i :: 0 <= i <= |s| - |p| && OccursAt(s, p, i)
  }

  /** The first occurrence of `p` at or after `i`, as `s.find(p, i)` finds it. */
  function FindFrom(s: string, p: string, i: nat): (r: Option<nat>)
    requires i <= |s|
    ensures r.Some? ==> i <= r.value <= |s| && OccursAt(s, p, r.value)
    ensures r.Some? ==> forall j :: i <= j < r.value ==> !OccursAt(s, p, j)
    ensures r.None? ==> forall j :: i <= j ==> !OccursAt(s, p, j)
    decreases |s| - i
  {
    if OccursAt(s, p, i) then Some(i)
    else if i == |s| then None
    else FindFrom(s, p, i + 1)
  }

  function Find(s: string, p: string): (r: Option<nat>)
    ensures r.Some? ==> r.value + |p| <= |s| && OccursAt(s, p, r.value)
    ensures r.Some? ==> forall j :: 0 <= j < r.value ==> !OccursAt(s, p, j)
    ensures r.None? <==> !Contains(s, p)
  {
    FindFrom(s, p, 0)
  }

  lemma FindContains(s: string, p: string)
    ensures Find(s, p).Some? <==> Contains(s, p)
  {
  }

  /** A slice cannot contain what the whole string does not. */
  lemma SliceContains(s: string, a: nat, b: nat, p: string)
    requires a <= b <= |s|
    ensures Contains(s[a..b], p) ==> Contains(s, p)
  {
    if Contains(s[a..b], p) {
      var i :| 0 <= i <= (b - a) - |p| && OccursAt(s[a..b], p, i);
      SliceOfSlice(s, a, b, i, i + |p|);
      assert OccursAt(s, p, a + i);
    }
  }

  /** `re.sub(p + '.*', '', s)` on a single line: cut from the first occurrence of `p` to the end. */
  function CutFrom(s: string, p: string): (r: string)
    requires p != []
    ensures |r| <= |s| && r == s[..|r|]
    ensures !Contains(r, p)
    ensures !Contains(s, p) ==> r == s
    ensures Contains(s, p) ==> OccursAt(s, p, |r|) && Find(s, p) == Some(|r|)
  {
    match Find(s, p)
    case None => s
    case Some(i) =>
      var r := s[..i];
      assert !Contains(r, p) by {
        forall j | 0 <= j <= |r| - |p| ensures !OccursAt(r, p, j) {
          assert !OccursAt(s, p, j);
          SliceOfSlice(s, 0, i, j, j + |p|);
          assert s[0..i] == r;
        }
      }
      r
  }

  /** The cut keeps a prefix in which the first character of `p` does not occur. */
  lemma CutFromKeepsPrefix(s: string, p: string, pre: string)
    requires p != [] && |pre| <= |s| && s[..|pre|] == pre
    requires forall k :: 0 <= k < |pre| ==> pre[k] != p[0]
    ensures |pre| <= |CutFrom(s, p)| && CutFrom(s, p)[..|pre|] == pre
  {
    var f := Find(s, p);
    if f.Some? {
      var i := f.value;
      assert s[i] == s[i..i + |p|][0] == p[0];
      assert CutFrom(s, p) == s[..i];
    }
  }

  /** Stripping a string that starts with a prefix with no whitespace at its ends keeps that prefix. */
  lemma StripKeepsLead(s: string, pre: string)
    requires 0 < |pre| <= |s| && s[..|pre|] == pre && !IsSpace(pre[0]) && !IsSpace(pre[|pre| - 1])
    ensures |pre| <= |Strip(s)| && Strip(s)[..|pre|] == pre
  {
    StripKeepsPrefix(s, |pre|);
  }

  // ---------------------------------------------------------------------------
  // str.replace

  /**
   * `s[i:].replace(p, q)` for a non-empty `p`: scanning left to right, an
   * occurrence of `p` becomes `q` and the scan goes on after it, so the
   * occurrences replaced do not overlap.
   */
  function ReplaceFrom(s: string, p: string, q: string, i: nat): (r: string)
    requires p != [] && i <= |s|
    decreases |s| - i
  {
    if i + |p| > |s| then s[i..]
    else if OccursAt(s, p, i) then q + ReplaceFrom(s, p, q, i + |p|)
    else [s[i]] + ReplaceFrom(s, p, q, i + 1)
  }

  /** Without an occurrence of `p` from `i` on, nothing is replaced. */
  lemma {:induction false} ReplaceFromNone(s: string, p: string, q: string, i: nat)
    requires p != [] && i <= |s|
    requires forall j :: i <= j <= |s| - |p| ==> !OccursAt(s, p, j)
    ensures ReplaceFrom(s, p, q, i) == s[i..]
    decreases |s| - i
  {
    if i + |p| <= |s| {
      ReplaceFromNone(s, p, q, i + 1);
      assert s[i..] == [s[i]] + s[i + 1..];
    }
  }

  /** Python's `s.replace(p, q)` for a non-empty `p`. */
  function ReplaceAll(s: string, p: string, q: string): (r: string)
    requires p != []
    ensures !Contains(s, p) ==> r == s
  {
    if !Contains(s, p) then
      ReplaceFromNone(s, p, q, 0);
      assert s[0..] == s;
      ReplaceFrom(s, p, q, 0)
    else ReplaceFrom(s, p, q, 0)
  }

  /** From `i`, the text up to the next occurrence stays and that occurrence becomes `q`. */
  lemma {:induction false} ReplaceFromNext(s: string, p: string, q: string, i: nat, k: nat)
    requires p != [] && i <= |s| && FindFrom(s, p, i) == Some(k)
    ensures i <= k && k + |p| <= |s|
    ensures ReplaceFrom(s, p, q, i) == s[i..k] + (q + ReplaceFrom(s, p, q, k + |p|))
    decreases |s| - i
  {
    var x := q + ReplaceFrom(s, p, q, k + |p|);
    if i < k {
      assert !OccursAt(s, p, i) && FindFrom(s, p, i + 1) == Some(k);
      ReplaceFromNext(s, p, q, i + 1, k);
      ReplaceFromSkip(s, p, q, i, k, x);
    } else {
      assert OccursAt(s, p, i);
      assert s[i..k] == [];
    }
  }

  /** Without `p` at `i`, the character at `i` stays and the scan goes on at `i + 1`. */
  lemma ReplaceFromSkip(s: string, p: string, q: string, i: nat, k: nat, x: string)
    requires p != [] && i < k <= |s| && i + |p| <= |s| && !OccursAt(s, p, i)
    requires ReplaceFrom(s, p, q, i + 1) == s[i + 1..k] + x
    ensures ReplaceFrom(s, p, q, i) == s[i..k] + x
  {
    assert ReplaceFrom(s, p, q, i) == [s[i]] + ReplaceFrom(s, p, q, i + 1);
    ConsSlice(s, i, k, x);
  }

  lemma ConsSlice(s: string, i: nat, k: nat, x: string)
    requires i < k <= |s|
    ensures [s[i]] + (s[i + 1..k] + x) == s[i..k] + x
  {
    assert s[i..k] == [s[i]] + s[i + 1..k];
  }

  /** The scan from `i + j` over `s` is the scan from `j` over `t`, the suffix of `s` from `i`. */
  lemma {:induction false} ReplaceFromShift(s: string, t: string, p: string, q: string, i: nat, j: nat)
    requires p != [] && i + j <= |s| && |t| == |s| - i
    requires forall k :: 0 <= k < |t| ==> t[k] == s[i + k]
    ensures ReplaceFrom(s, p, q, i + j) == ReplaceFrom(t, p, q, j)
    decreases |s| - i - j
  {
    if i + j + |p| > |s| {
      assert s[i + j..] == t[j..];
    } else {
      assert s[i + j..i + j + |p|] == t[j..j + |p|];
      if OccursAt(s, p, i + j) {
        ReplaceFromShift(s, t, p, q, i, j + |p|);
        ReplaceFromHit(s, p, q, i + j);
        ReplaceFromHit(t, p, q, j);
      } else {
        ReplaceFromShift(s, t, p, q, i, j + 1);
        ReplaceFromMiss(s, p, q, i + j);
        ReplaceFromMiss(t, p, q, j);
      }
    }
  }

  /** At an occurrence the scan writes `q` and jumps past it. */
  lemma ReplaceFromHit(s: string, p: string, q: string, i: nat)
    requires p != [] && OccursAt(s, p, i)
    ensures ReplaceFrom(s, p, q, i) == q + ReplaceFrom(s, p, q, i + |p|)
  {
  }

  /** Elsewhere the scan copies one character and moves on by one. */
  lemma ReplaceFromMiss(s: string, p: string, q: string, i: nat)
    requires p != [] && i + |p| <= |s| && !OccursAt(s, p, i)
    ensures ReplaceFrom(s, p, q, i) == [s[i]] + ReplaceFrom(s, p, q, i + 1)
  {
  }

  /** `s[i:].replace(p, q)` is `ReplaceFrom(s, p, q, i)`. */
  lemma ReplaceFromIsReplaceAll(s: string, p: string, q: string, i: nat)
    requires p != [] && i <= |s|
    ensures ReplaceFrom(s, p, q, i) == ReplaceAll(s[i..], p, q)
  {
    ReplaceFromShift(s, s[i..], p, q, i, 0);
  }

  /**
   * Replacing every occurrence: the text before the first occurrence of `p`
   * stays, that occurrence becomes `q`, and the replacement goes on right
   * after it.
   */
  lemma ReplaceAllFirst(s: string, p: string, q: string, k: nat)
    requires p != [] && Find(s, p) == Some(k)
    ensures k + |p| <= |s|
    ensures ReplaceAll(s, p, q) == s[..k] + (q + ReplaceAll(s[k + |p|..], p, q))
  {
    ReplaceFromNext(s, p, q, 0, k);
    assert s[0..k] == s[..k];
    ReplaceAllTail(s, p, q, k, s[k + |p|..]);
  }

  /** The step of `ReplaceAllFirst` that names the rest of the scan. */
  lemma ReplaceAllTail(s: string, p: string, q: string, k: nat, t: string)
    requires p != [] && k + |p| <= |s| && t == s[k + |p|..]
    requires ReplaceFrom(s, p, q, 0) == s[..k] + (q + ReplaceFrom(s, p, q, k + |p|))
    ensures ReplaceAll(s, p, q) == s[..k] + (q + ReplaceAll(t, p, q))
  {
    var x := ReplaceFrom(s, p, q, k + |p|);
    ReplaceFromShift(s, t, p, q, k + |p|, 0);
    assert x == ReplaceFrom(t, p, q, 0);
    ReplaceAllIsFrom(t, p, q);
    ReplaceAllIsFrom(s, p, q);
  }

  /** `ReplaceAll` is the scan from the start. */
  lemma ReplaceAllIsFrom(s: string, p: string, q: string)
    requires p != []
    ensures ReplaceAll(s, p, q) == ReplaceFrom(s, p, q, 0)
  {
  }

  /** Python's `s.replace(p, q, 1)`: only the first occurrence. */
  function ReplaceFirst(s: string, p: string, q: string): (r: string)
  {
    match Find(s, p)
    case None => s
    case Some(i) => s[..i] + q + s[i + |p|..]
  }

  /** Replacing the first occurrence of a prefix by nothing drops that prefix. */
  lemma ReplaceFirstPrefix(s: string, p: string)
    requires |p| <= |s| && s[..|p|] == p
    ensures ReplaceFirst(s, p, "") == s[|p|..]
  {
    assert OccursAt(s, p, 0);
  }

  // ---------------------------------------------------------------------------
  // str.split(sep)

  /** Python's `s.split(sep)` for a non-empty separator. */
  function SplitOn(s: string, sep: string): (r: seq<string>)
    requires sep != []
    ensures |r| >= 1
    decreases |s|
  {
    match Find(s, sep)
    case None => [s]
    case Some(i) => [s[..i]] + SplitOn(s[i + |sep|..], sep)
  }

  /** Python's `sep.join(parts)`. */
  function JoinWith(parts: seq<string>, sep: string): string
    decreases |parts|
  {
    if parts == [] then ""
    else if |parts| == 1 then parts[0]
    else parts[0] + sep + JoinWith(parts[1..], sep)
  }

  lemma JoinCons(x: string, tail: seq<string>, sep: string)
    requires tail != []
    ensures JoinWith([x] + tail, sep) == x + sep + JoinWith(tail, sep)
  {
    assert ([x] + tail)[1..] == tail;
  }

  /** One step of the split: the text before the first separator, then the split of the rest. */
  lemma SplitOnStep(s: string, sep: string, i: nat)
    requires sep != [] && Find(s, sep) == Some(i)
    ensures i + |sep| <= |s|
    ensures SplitOn(s, sep) == [s[..i]] + SplitOn(s[i + |sep|..], sep)
    ensures s == s[..i] + sep + s[i + |sep|..]
  {
    assert s[i..i + |sep|] == sep;
    assert s == s[..i] + s[i..i + |sep|] + s[i + |sep|..];
  }

  /** Joining the pieces of a split with the separator gives back the original text. */
  lemma {:induction false} SplitOnJoin(s: string, sep: string)
    requires sep != []
    ensures JoinWith(SplitOn(s, sep), sep) == s
    decreases |s|
  {
    var f := Find(s, sep);
    if f.Some? {
      var i := f.value;
      var rest := s[i + |sep|..];
      SplitOnStep(s, sep, i);
      SplitOnJoin(rest, sep);
      JoinCons(s[..i], SplitOn(rest, sep), sep);
    }
  }

  /** No piece of a split contains the separator. */
  lemma {:induction false} SplitOnPieces(s: string, sep: string)
    requires sep != []
    ensures forall piece :: piece in SplitOn(s, sep) ==> !Contains(piece, sep)
    decreases |s|
  {
    var f := Find(s, sep);
    if f.Some? {
      var i := f.value;
      SplitOnPieces(s[i + |sep|..], sep);
      var head := s[..i];
      forall j | 0 <= j <= |head| - |sep| ensures !OccursAt(head, sep, j) {
        assert !OccursAt(s, sep, j);
        SliceOfSlice(s, 0, i, j, j + |sep|);
        assert s[0..i] == head;
      }
      assert SplitOn(s, sep) == [head] + SplitOn(s[i + |sep|..], sep);
    }
  }

  /** Without the separator the split is the whole text. */
  lemma SplitOnWithout(s: string, sep: string)
    requires sep != [] && !Contains(s, sep)
    ensures SplitOn(s, sep) == [s]
  {
    FindContains(s, sep);
  }

  // ---------------------------------------------------------------------------
  // In-order placement of pieces of a text

  /** The strings of `xs` occur in `t` one after another, left to right and without overlapping. */
  ghost predicate InOrder(xs: seq<string>, t: string)
    decreases |xs|
  {
    xs == [] || exists i :: 0 <= i <= |t| - |xs[0]| && OccursAt(t, xs[0], i) && InOrder(xs[1..], t[i + |xs[0]|..])
  }

  /** Placing pieces in order inside a text places them in order inside any text that ends with it. */
  lemma {:induction false} InOrderSuffix(xs: seq<string>, t: string, k: nat)
    requires k <= |t| && InOrder(xs, t[k..])
    ensures InOrder(xs, t)
  {
    if xs != [] {
      var u := t[k..];
      var i :| 0 <= i <= |u| - |xs[0]| && OccursAt(u, xs[0], i) && InOrder(xs[1..], u[i + |xs[0]|..]);
      assert t[k + i..k + i + |xs[0]|] == u[i..i + |xs[0]|];
      assert u[i + |xs[0]|..] == t[k + i + |xs[0]|..];
      assert OccursAt(t, xs[0], k + i);
    }
  }

  /** Placing one string, then the rest after it. */
  lemma InOrderCons(x: string, xs: seq<string>, t: string, k: nat)
    requires OccursAt(t, x, k) && InOrder(xs, t[k + |x|..])
    ensures InOrder([x] + xs, t)
  {
    assert ([x] + xs)[0] == x && ([x] + xs)[1..] == xs;
  }

  /** The trimmed string sits inside the string, wherever the string sits. */
  lemma StripOccurs(t: string, x: string, k: nat) returns (a: nat)
    requires OccursAt(t, x, k)
    ensures a + |Strip(x)| <= |x| && OccursAt(t, Strip(x), k + a)
  {
    a := StripIsSlice(x);
    SliceOfSlice(t, k, k + |x|, a, a + |Strip(x)|);
  }

  /** The pieces of a split occur in the text in order. */
  lemma {:induction false} SplitOnInOrder(s: string, sep: string)
    requires sep != []
    ensures InOrder(SplitOn(s, sep), s)
    decreases |s|
  {
    var f := Find(s, sep);
    if f.None? {
      assert OccursAt(s, s, 0);
      InOrderCons(s, [], s, 0);
    } else {
      var i := f.value;
      var rest := s[i + |sep|..];
      SplitOnStep(s, sep, i);
      SplitOnInOrder(rest, sep);
      assert s[i..][|sep|..] == rest;
      InOrderSuffix(SplitOn(rest, sep), s[i..], |sep|);
      assert OccursAt(s, s[..i], 0);
      InOrderCons(s[..i], SplitOn(rest, sep), s, 0);
    }
  }

  /** A trimmed string placed where the string sits, then the rest after it. */
  lemma StripCons(x: string, rest: seq<string>, t: string, k: nat)
    requires OccursAt(t, x, k) && InOrder(rest, t[k + |x|..])
    ensures InOrder([Strip(x)] + rest, t)
  {
    var a := StripOccurs(t, x, k);
    var y := Strip(x);
    assert t[k + a + |y|..][|x| - a - |y|..] == t[k + |x|..];
    InOrderSuffix(rest, t[k + a + |y|..], |x| - a - |y|);
    InOrderCons(y, rest, t, k + a);
  }

  /** Trimming every piece keeps them in order. */
  lemma {:induction false} StripAllInOrder(pieces: seq<string>, i: nat, t: string)
    requires i <= |pieces| && InOrder(pieces[i..], t)
    ensures InOrder(StripAll(pieces, i), t)
    decreases |pieces| - i
  {
    if i < |pieces| {
      var x := pieces[i];
      assert pieces[i..][0] == x && pieces[i..][1..] == pieces[i + 1..];
      var k :| 0 <= k <= |t| - |x| && OccursAt(t, x, k) && InOrder(pieces[i + 1..], t[k + |x|..]);
      StripAllInOrder(pieces, i + 1, t[k + |x|..]);
      StripCons(x, StripAll(pieces, i + 1), t, k);
    }
  }

  /** Dropping the empty strings keeps the rest in order. */
  lemma {:induction false} NonEmptyInOrder(sections: seq<string>, i: nat, t: string)
    requires i <= |sections| && InOrder(sections[i..], t)
    ensures InOrder(NonEmpty(sections, i), t)
    decreases |sections| - i
  {
    if i < |sections| {
      var x := sections[i];
      assert sections[i..][0] == x && sections[i..][1..] == sections[i + 1..];
      var k :| 0 <= k <= |t| - |x| && OccursAt(t, x, k) && InOrder(sections[i + 1..], t[k + |x|..]);
      NonEmptyInOrder(sections, i + 1, t[k + |x|..]);
      if |x| == 0 {
        InOrderSuffix(NonEmpty(sections, i + 1), t, k + |x|);
      } else {
        InOrderCons(x, NonEmpty(sections, i + 1), t, k);
      }
    }
  }
}
