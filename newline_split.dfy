/**
 * `re.split(r'\n{2,}(?=L)', s)` for a lookahead `L`, given as the set `marks`
 * of the positions of `s` at which `L` matches.
 *
 * The run `\n{2,}` is greedy, and the lookahead of the roadmap segmenter never
 * starts with a newline, so the pattern matches at `j` exactly when the maximal
 * newline run starting at `j` has two or more newlines and `L` matches right
 * after it. `re.split` takes the leftmost match, drops the matched newlines,
 * and resumes the search after them; what the lookahead saw stays at the
 * front of the next piece.
 *
 * The split is described by positions first: `Spans` lists where each piece
 * starts and ends, and `Split` and `Gaps` cut the pieces and the dropped
 * newline runs out of the text.
 */
module NewlineSplit {

  /** The length of the run of `\n` that starts at `i`. */
  function NewlineRun(s: string, i: nat): (n: nat)
    requires i <= |s|
    ensures i + n <= |s|
    ensures i + n == |s| || s[i + n] != '\n'
    decreases |s| - i
  {
    if i < |s| && s[i] == '\n' then 1 + NewlineRun(s, i + 1) else 0
  }

  lemma {:induction false} NewlineRunChars(s: string, i: nat, j: nat)
    requires i <= |s| && i <= j < i + NewlineRun(s, i)
    ensures s[j] == '\n'
    decreases |s| - i
  {
    if j > i {
      NewlineRunChars(s, i + 1, j);
    }
  }

  /**
   * `\n{2,}(?=L)` matches at `j`. A lookahead needs at least one character
   * (all the roadmap triggers do), so a break is never at the very end.
   */
  predicate BreakAt(s: string, j: nat, marks: set<nat>) {
    j <= |s| && NewlineRun(s, j) >= 2 && j + NewlineRun(s, j) < |s| && j + NewlineRun(s, j) in marks
  }

  /** Where `re.split` finds its next match when searching from `i`: the leftmost break, or |s|. */
  function NextCut(s: string, i: nat, marks: set<nat>): (b: nat)
    requires i <= |s|
    ensures i <= b <= |s|
    ensures b < |s| ==> BreakAt(s, b, marks)
    decreases |s| - i
  {
    if i == |s| then |s|
    else if BreakAt(s, i, marks) then i
    else NextCut(s, i + 1, marks)
  }

  /** The scan stops at the leftmost break: there is none between its start and the cut. */
  lemma {:induction false} NextCutLeftmost(s: string, i: nat, j: nat, marks: set<nat>)
    requires i <= |s| && i <= j < NextCut(s, i, marks)
    ensures !BreakAt(s, j, marks)
    decreases |s| - i
  {
    if j > i {
      NextCutLeftmost(s, i + 1, j, marks);
    }
  }

  lemma {:induction false} NextCutNoBreak(s: string, i: nat, marks: set<nat>)
    requires i <= |s| && forall j: nat :: !BreakAt(s, j, marks)
    ensures NextCut(s, i, marks) == |s|
    decreases |s| - i
  {
    if i < |s| {
      assert !BreakAt(s, i, marks);
      NextCutNoBreak(s, i + 1, marks);
    }
  }

  // ---------------------------------------------------------------------------
  // Positions of the pieces

  /** A piece of the text: from `lo` up to (not including) `hi`. */
  datatype Span = Span(lo: nat, hi: nat)

  /** The pieces `re.split` returns for the text from `a` on, as positions. */
  function Spans(s: string, a: nat, marks: set<nat>): (r: seq<Span>)
    requires a <= |s|
    ensures |r| >= 1 && r[0] == Span(a, NextCut(s, a, marks))
    ensures var b := NextCut(s, a, marks);
      && (|r| == 1 ==> b == |s|)
      && (|r| > 1 ==> b < |s| && r[1].lo == b + NewlineRun(s, b))
    decreases |s| - a
  {
    var b := NextCut(s, a, marks);
    if b == |s| then [Span(a, b)]
    else [Span(a, b)] + Spans(s, b + NewlineRun(s, b), marks)
  }

  /** More than one span: the first, then the spans after the newline run at the first cut. */
  lemma SpansUnfold(s: string, a: nat, marks: set<nat>)
    requires a <= |s| && |Spans(s, a, marks)| > 1
    ensures var b := NextCut(s, a, marks);
      Spans(s, a, marks) == [Span(a, b)] + Spans(s, b + NewlineRun(s, b), marks)
  {
  }

  /** The spans from span m on are the spans of the text from some later start. */
  lemma {:induction false} SpansFrom(s: string, a: nat, m: nat, marks: set<nat>) returns (c: nat)
    requires a <= |s| && m < |Spans(s, a, marks)|
    ensures a <= c <= |s| && Spans(s, a, marks)[m..] == Spans(s, c, marks)
    decreases |s| - a
  {
    if m == 0 {
      c := a;
    } else {
      var b := NextCut(s, a, marks);
      var rest := Spans(s, b + NewlineRun(s, b), marks);
      SpansUnfold(s, a, marks);
      c := SpansFrom(s, b + NewlineRun(s, b), m - 1, marks);
      assert Spans(s, a, marks)[m..] == rest[m - 1..];
    }
  }

  /** Span m is the first span of the text from its start on. */
  lemma SpanHead(s: string, a: nat, m: nat, marks: set<nat>) returns (c: nat)
    requires a <= |s| && m < |Spans(s, a, marks)|
    ensures a <= c <= |s| && Spans(s, a, marks)[m] == Span(c, NextCut(s, c, marks))
    ensures |Spans(s, a, marks)| - m == |Spans(s, c, marks)|
    ensures m + 1 < |Spans(s, a, marks)| ==> Spans(s, a, marks)[m + 1] == Spans(s, c, marks)[1]
  {
    c := SpansFrom(s, a, m, marks);
    assert Spans(s, a, marks)[m] == Spans(s, a, marks)[m..][0];
    if m + 1 < |Spans(s, a, marks)| {
      assert Spans(s, a, marks)[m + 1] == Spans(s, a, marks)[m..][1];
    }
  }

  /**
   * Span m runs from its start to the next cut; the next span starts right
   * after the newline run at that cut, and the last span ends with the text.
   */
  lemma SpanFacts(s: string, a: nat, m: nat, marks: set<nat>)
    requires a <= |s| && m < |Spans(s, a, marks)|
    ensures var sp := Spans(s, a, marks);
      && a <= sp[m].lo <= |s| && sp[m].hi == NextCut(s, sp[m].lo, marks)
      && (m + 1 < |sp| ==> sp[m].hi < |s| && sp[m + 1].lo == sp[m].hi + NewlineRun(s, sp[m].hi))
      && (m + 1 == |sp| ==> sp[m].hi == |s|)
  {
    var c := SpanHead(s, a, m, marks);
  }

  // ---------------------------------------------------------------------------
  // Cutting a text along spans

  /** The spans lie inside the text, left to right, without overlapping. */
  predicate Ordered(s: string, sp: seq<Span>)
    decreases |sp|
  {
    sp == [] || (sp[0].lo <= sp[0].hi <= |s| && (|sp| > 1 ==> sp[0].hi <= sp[1].lo <= |s|) && Ordered(s, sp[1..]))
  }

  /** The text of each span. */
  function Slices(s: string, sp: seq<Span>): (r: seq<string>)
    requires Ordered(s, sp)
    ensures |r| == |sp|
    decreases |sp|
  {
    if sp == [] then [] else [s[sp[0].lo..sp[0].hi]] + Slices(s, sp[1..])
  }

  /** The text between consecutive spans. */
  function GapTexts(s: string, sp: seq<Span>): (r: seq<string>)
    requires Ordered(s, sp)
    ensures |r| == if sp == [] then 0 else |sp| - 1
    decreases |sp|
  {
    if |sp| <= 1 then []
    else [s[sp[0].hi..sp[1].lo]] + GapTexts(s, sp[1..])
  }

  /** pieces[0] + gaps[0] + pieces[1] + ... + pieces[n]. */
  function Interleave(pieces: seq<string>, gaps: seq<string>): string
    requires |pieces| == |gaps| + 1
    decreases |gaps|
  {
    if gaps == [] then pieces[0]
    else pieces[0] + gaps[0] + Interleave(pieces[1..], gaps[1..])
  }

  lemma InterleaveCons(x: string, g: string, ps: seq<string>, gs: seq<string>)
    requires |ps| == |gs| + 1
    ensures Interleave([x] + ps, [g] + gs) == x + g + Interleave(ps, gs)
  {
    assert ([x] + ps)[1..] == ps;
    assert ([g] + gs)[1..] == gs;
  }

  /** Spans that run left to right up to the end of the text, with the text between them, rebuild it. */
  lemma {:induction false} InterleaveSlices(s: string, sp: seq<Span>)
    requires sp != [] && Ordered(s, sp) && sp[|sp| - 1].hi == |s|
    ensures Interleave(Slices(s, sp), GapTexts(s, sp)) == s[sp[0].lo..]
    decreases |sp|
  {
    if |sp| == 1 {
      assert s[sp[0].lo..sp[0].hi] == s[sp[0].lo..];
    } else {
      var rest := sp[1..];
      InterleaveSlices(s, rest);
      var a, b, c := sp[0].lo, sp[0].hi, sp[1].lo;
      InterleaveCons(s[a..b], s[b..c], Slices(s, rest), GapTexts(s, rest));
      assert s[a..] == s[a..b] + s[b..c] + s[c..];
    }
  }

  lemma {:induction false} SectionAt(s: string, sp: seq<Span>, m: nat)
    requires Ordered(s, sp) && m < |sp|
    ensures sp[m].lo <= sp[m].hi <= |s| && Slices(s, sp)[m] == s[sp[m].lo..sp[m].hi]
    decreases m
  {
    if m > 0 {
      SectionAt(s, sp[1..], m - 1);
    }
  }

  lemma {:induction false} GapTextAt(s: string, sp: seq<Span>, m: nat)
    requires Ordered(s, sp) && m + 1 < |sp|
    ensures sp[m].hi <= sp[m + 1].lo <= |s| && GapTexts(s, sp)[m] == s[sp[m].hi..sp[m + 1].lo]
    decreases m
  {
    if m > 0 {
      GapTextAt(s, sp[1..], m - 1);
    }
  }

  // ---------------------------------------------------------------------------
  // The split

  /** The spans of the split from `a` run left to right and end with the text. */
  lemma {:induction false} SpansFromOrdered(s: string, a: nat, marks: set<nat>)
    requires a <= |s|
    ensures var sp := Spans(s, a, marks); Ordered(s, sp) && sp[|sp| - 1].hi == |s|
    decreases |s| - a
  {
    var b := NextCut(s, a, marks);
    if b < |s| {
      var rest := Spans(s, b + NewlineRun(s, b), marks);
      SpansFromOrdered(s, b + NewlineRun(s, b), marks);
      var sp := Spans(s, a, marks);
      assert sp == [Span(a, b)] + rest;
      assert sp[1..] == rest;
    }
  }

  lemma SpansOrdered(s: string, marks: set<nat>)
    ensures var sp := Spans(s, 0, marks); Ordered(s, sp) && sp[0].lo == 0 && sp[|sp| - 1].hi == |s|
  {
    SpansFromOrdered(s, 0, marks);
  }

  /** The pieces `re.split` returns. */
  function Split(s: string, marks: set<nat>): (pieces: seq<string>)
  {
    SpansOrdered(s, marks);
    Slices(s, Spans(s, 0, marks))
  }

  /** The newline runs `re.split` drops between consecutive pieces. */
  function Gaps(s: string, marks: set<nat>): (gaps: seq<string>)
  {
    SpansOrdered(s, marks);
    GapTexts(s, Spans(s, 0, marks))
  }

  /** Putting the dropped newline runs back between the pieces rebuilds the text. */
  lemma SplitLossless(s: string, marks: set<nat>)
    ensures |Split(s, marks)| == |Gaps(s, marks)| + 1
    ensures Interleave(Split(s, marks), Gaps(s, marks)) == s
  {
    SpansOrdered(s, marks);
    InterleaveSlices(s, Spans(s, 0, marks));
    assert s[0..] == s;
  }

  /** Span m of the split starts at 0 or right where the lookahead matches. */
  lemma SpanStart(s: string, m: nat, marks: set<nat>)
    requires m < |Spans(s, 0, marks)|
    ensures var c := Spans(s, 0, marks)[m].lo; (m == 0 ==> c == 0) && (m > 0 ==> c in marks)
  {
    if m > 0 {
      var sp := Spans(s, 0, marks);
      SpanFacts(s, 0, m - 1, marks);
      assert BreakAt(s, sp[m - 1].hi, marks);
    }
  }

  /** Span m of the split holds no break and ends at a break or at the end of the text. */
  lemma SpanCut(s: string, m: nat, marks: set<nat>)
    requires m < |Spans(s, 0, marks)|
    ensures var c, e := Spans(s, 0, marks)[m].lo, Spans(s, 0, marks)[m].hi;
      && c <= e <= |s|
      && (forall j :: c <= j < e ==> !BreakAt(s, j, marks))
      && (e == |s| || BreakAt(s, e, marks))
  {
    var sp := Spans(s, 0, marks);
    SpanFacts(s, 0, m, marks);
    forall j | sp[m].lo <= j < sp[m].hi ensures !BreakAt(s, j, marks) {
      NextCutLeftmost(s, sp[m].lo, j, marks);
    }
  }

  /**
   * Piece m is the text from `c` to `e`: it starts at 0 or where the lookahead
   * matches, holds no break, and ends at a break or at the end of the text.
   */
  lemma PiecePlacement(s: string, m: nat, marks: set<nat>) returns (c: nat, e: nat)
    requires m < |Split(s, marks)|
    ensures c <= e <= |s| && Split(s, marks)[m] == s[c..e]
    ensures m == 0 ==> c == 0
    ensures m > 0 ==> c in marks
    ensures forall j :: c <= j < e ==> !BreakAt(s, j, marks)
    ensures e == |s| || BreakAt(s, e, marks)
  {
    var sp := Spans(s, 0, marks);
    SpansOrdered(s, marks);
    SpanStart(s, m, marks);
    SpanCut(s, m, marks);
    c, e := sp[m].lo, sp[m].hi;
    SectionAt(s, sp, m);
  }

  /** A run of two or more newlines. */
  predicate NewlineGap(g: string) {
    |g| >= 2 && forall i :: 0 <= i < |g| ==> g[i] == '\n'
  }

  lemma RunIsGap(s: string, b: nat)
    requires b <= |s| && NewlineRun(s, b) >= 2
    ensures NewlineGap(s[b..b + NewlineRun(s, b)])
  {
    var g := s[b..b + NewlineRun(s, b)];
    forall i | 0 <= i < |g| ensures g[i] == '\n' {
      NewlineRunChars(s, b, b + i);
    }
  }

  /** When a newline run separates two spans, the text between them is that run. */
  lemma GapOfRun(s: string, sp: seq<Span>, m: nat)
    requires Ordered(s, sp) && m + 1 < |sp|
    requires sp[m].hi <= |s| && NewlineRun(s, sp[m].hi) >= 2 && sp[m + 1].lo == sp[m].hi + NewlineRun(s, sp[m].hi)
    ensures var g, b := GapTexts(s, sp)[m], sp[m].hi;
      |g| == NewlineRun(s, b) && b + |g| <= |s| && g == s[b..b + |g|] && NewlineGap(g)
  {
    GapTextAt(s, sp, m);
    RunIsGap(s, sp[m].hi);
  }

  /** Between span m and span m + 1 lies the whole newline run of a break. */
  lemma GapSpan(s: string, m: nat, marks: set<nat>)
    requires m + 1 < |Spans(s, 0, marks)|
    ensures var b := Spans(s, 0, marks)[m].hi;
      && BreakAt(s, b, marks) && Spans(s, 0, marks)[m + 1].lo == b + NewlineRun(s, b)
  {
    SpanFacts(s, 0, m, marks);
  }

  /**
   * Gap m is the whole newline run that starts at a break `b`: two or more
   * newlines, with the lookahead matching right after them.
   */
  lemma GapPlacement(s: string, m: nat, marks: set<nat>) returns (b: nat)
    requires m < |Gaps(s, marks)|
    ensures var g := Gaps(s, marks)[m];
      && BreakAt(s, b, marks) && |g| == NewlineRun(s, b) && g == s[b..b + |g|] && NewlineGap(g)
  {
    var sp := Spans(s, 0, marks);
    SpansOrdered(s, marks);
    GapSpan(s, m, marks);
    b := sp[m].hi;
    GapOfRun(s, sp, m);
  }

  /** When the text has no break, the split is the text itself. */
  lemma SplitWithoutBreak(s: string, marks: set<nat>)
    requires forall j: nat :: !BreakAt(s, j, marks)
    ensures Split(s, marks) == [s] && Gaps(s, marks) == []
  {
    NextCutNoBreak(s, 0, marks);
    assert Spans(s, 0, marks) == [Span(0, |s|)];
    assert s[0..|s|] == s;
  }
}
