/**
 * The roadmap segmenter (app.py:383-389).
 *
 * The generated roadmap is trimmed and cut before every run of two or more
 * newlines that is followed by one of three triggers: a numbered heading
 * (`Level`, `Phase` or `Module`, optional whitespace, digits, then `:` or `-`),
 * the bold career-guidance marker, or the total-time line. Every piece is
 * trimmed again and empty pieces are skipped; what remains are the blocks the
 * roadmap view renders one by one.
 *
 * `\s` and `\d` are taken over ASCII (see `Text`).
 */
module Segmenter {
  import opened Text
  import opened NewlineSplit

  const CareerTitle := "Career Guidance & Next Steps"
  /** `\*{2}Career Guidance & Next Steps\*{2}` */
  const CareerMarker := "**" + CareerTitle + "**"
  const TotalMarker := "Total Estimated Time for Roadmap:"

  /** Length of the heading word `Level`, `Phase` or `Module` found at `i`, 0 when there is none. */
  function WordLen(s: string, i: nat): (w: nat)
    ensures w == 0 || w == 5 || w == 6
    ensures w > 0 ==> i + w <= |s| && (s[i] == 'L' || s[i] == 'P' || s[i] == 'M')
  {
    if OccursAt(s, "Level", i) then assert s[i] == s[i..i + 5][0]; 5
    else if OccursAt(s, "Phase", i) then assert s[i] == s[i..i + 5][0]; 5
    else if OccursAt(s, "Module", i) then assert s[i] == s[i..i + 6][0]; 6
    else 0
  }

  /** `(?:Level|Phase|Module)\s*\d+[:\-]` at `i`: the length of the match, 0 when there is none. */
  function NumberedLen(s: string, i: nat): (n: nat)
    requires i <= |s|
    ensures n > 0 ==> i + n <= |s| && WordLen(s, i) > 0
  {
    var w := WordLen(s, i);
    if w == 0 then 0
    else
      var j := SkipSpace(s, i + w);
      var k := SkipDigits(s, j);
      if k > j && k < |s| && (s[k] == ':' || s[k] == '-') then k + 1 - i else 0
  }

  /** Length of the trigger that starts at `i` (the lookahead of the split pattern), 0 when there is none. */
  function TriggerLen(s: string, i: nat): (n: nat)
    requires i <= |s|
    ensures n > 0 ==> i + n <= |s|
  {
    if NumberedLen(s, i) > 0 then NumberedLen(s, i)
    else if OccursAt(s, CareerMarker, i) then |CareerMarker|
    else if OccursAt(s, TotalMarker, i) then |TotalMarker|
    else 0
  }

  /** One of the three triggers starts at `i`. */
  predicate TriggerAt(s: string, i: nat) {
    i <= |s| && TriggerLen(s, i) > 0
  }

  /** A trigger starts with `L`, `P`, `M`, `*` or `T`: never with whitespace. */
  lemma TriggerStart(s: string, i: nat)
    requires TriggerAt(s, i)
    ensures i < |s| && s[i] in "LPM*T" && !IsSpace(s[i])
  {
    if NumberedLen(s, i) == 0 {
      if OccursAt(s, CareerMarker, i) {
        assert s[i] == s[i..i + |CareerMarker|][0];
      } else {
        assert s[i] == s[i..i + |TotalMarker|][0];
      }
    }
  }

  /** Every position of `t` at which a trigger starts: where the lookahead of the split pattern matches. */
  function Triggers(t: string): (marks: set<nat>)
  {
    set i: nat | i < |t| && TriggerAt(t, i)
  }

  /** The blocks of a trimmed text for a given set of lookahead positions: split, trim every piece, skip the empty ones. */
  function Blocks(t: string, marks: set<nat>): (blocks: seq<string>)
  {
    NonEmpty(StripAll(Split(t, marks), 0), 0)
  }

  /** The blocks the roadmap view renders (app.py:383-389). */
  function Segment(doc: string): (blocks: seq<string>)
  {
    var t := Strip(doc);
    Blocks(t, Triggers(t))
  }

  // ---------------------------------------------------------------------------
  // Properties of the blocks, for lookahead positions that hold no whitespace

  /** Every lookahead position holds a character that is not whitespace. */
  predicate StartsSolid(t: string, marks: set<nat>) {
    forall i :: i in marks ==> i < |t| && !IsSpace(t[i])
  }

  lemma TriggersSolid(t: string)
    ensures StartsSolid(t, Triggers(t))
  {
    forall i | i in Triggers(t) ensures i < |t| && !IsSpace(t[i]) {
      TriggerStart(t, i);
    }
  }

  /** On a trimmed non-empty text every piece is non-empty and starts with a non-space. */
  lemma PieceSolid(t: string, m: nat, marks: set<nat>)
    requires t != [] && Stripped(t) && StartsSolid(t, marks) && m < |Split(t, marks)|
    ensures Split(t, marks)[m] != [] && !IsSpace(Split(t, marks)[m][0])
  {
    var c, e := PiecePlacement(t, m, marks);
    assert c < |t| && !IsSpace(t[c]);
    if e == c {
      NewlineRunChars(t, e, e);
    }
    assert Split(t, marks)[m][0] == t[c];
  }

  /** No piece of a trimmed non-empty text is dropped: block m is piece m without its trailing whitespace. */
  lemma BlocksOfPieces(t: string, marks: set<nat>)
    requires t != [] && Stripped(t) && StartsSolid(t, marks)
    ensures |Blocks(t, marks)| == |Split(t, marks)|
    ensures forall m :: 0 <= m < |Split(t, marks)| ==> Blocks(t, marks)[m] == StripRight(Split(t, marks)[m])
  {
    var raw := Split(t, marks);
    var sections := StripAll(raw, 0);
    forall m | 0 <= m < |raw| ensures sections[m] == StripRight(raw[m]) && |sections[m]| > 0 {
      PieceSolid(t, m, marks);
      StripKeepsFront(raw[m]);
      StripAllAt(raw, 0, m);
    }
    NonEmptyAll(sections, 0);
    assert sections[0..] == sections;
  }

  lemma BlocksTrimmed(t: string, marks: set<nat>)
    ensures forall block :: block in Blocks(t, marks) ==> block != [] && Stripped(block)
  {
    var raw := Split(t, marks);
    var sections := StripAll(raw, 0);
    forall block | block in Blocks(t, marks) ensures block != [] && Stripped(block) {
      NonEmptyMembers(sections, 0, block);
      var j :| 0 <= j < |sections| && block == sections[j];
      StripAllAt(raw, 0, j);
      StripEnds(raw[j]);
    }
  }

  /** `block` sits at `c` in `t` and only whitespace follows it up to `e`. */
  predicate PlacedAt(t: string, block: string, c: nat, e: nat) {
    c + |block| <= e <= |t| && block == t[c..c + |block|] && Blank(t[c + |block|..e])
  }

  /**
   * Block m is the stretch of the text from `c` to `e` with trailing whitespace
   * cut: it starts at 0 or where the lookahead matches, no break lies in
   * [c, e), and the stretch ends at a break or at the end of the text.
   */
  lemma BlockPlacement(t: string, m: nat, marks: set<nat>) returns (c: nat, e: nat)
    requires t != [] && Stripped(t) && StartsSolid(t, marks) && m < |Blocks(t, marks)|
    ensures PlacedAt(t, Blocks(t, marks)[m], c, e)
      && (m == 0 ==> c == 0) && (m > 0 ==> c in marks)
      && (forall j :: c <= j < e ==> !BreakAt(t, j, marks))
      && (e == |t| || BreakAt(t, e, marks))
  {
    BlocksOfPieces(t, marks);
    c, e := PiecePlacement(t, m, marks);
    StripRightSlice(t, c, e);
  }

  lemma BlocksWithoutBreak(t: string, marks: set<nat>)
    requires Stripped(t) && forall j: nat :: !BreakAt(t, j, marks)
    ensures Blocks(t, marks) == if t == [] then [] else [t]
  {
    SplitWithoutBreak(t, marks);
    StripStripped(t);
  }

  // ---------------------------------------------------------------------------
  // The roadmap segmenter

  /** Every block is non-empty and trimmed. */
  lemma SegmentBlocksTrimmed(doc: string)
    ensures forall block :: block in Segment(doc) ==> block != [] && Stripped(block)
  {
    var t := Strip(doc);
    BlocksTrimmed(t, Triggers(t));
  }

  /** A blank roadmap yields no block. */
  lemma SegmentBlank(doc: string)
    requires Blank(doc)
    ensures Segment(doc) == []
  {
    StripEmpty(doc);
    StripEnds(doc);
    BlocksWithoutBreak(Strip(doc), Triggers(Strip(doc)));
  }

  /**
   * For a non-blank roadmap no block is dropped: block m is piece m of the split
   * with its trailing whitespace removed, and the pieces with the dropped newline
   * runs between them rebuild the trimmed roadmap.
   */
  lemma SegmentLossless(doc: string)
    requires !Blank(doc)
    ensures var t := Strip(doc); var pieces := Split(t, Triggers(t));
      && |Segment(doc)| == |pieces|
      && (forall m :: 0 <= m < |pieces| ==> Segment(doc)[m] == StripRight(pieces[m]))
      && Interleave(pieces, Gaps(t, Triggers(t))) == t
  {
    var t := Strip(doc);
    StripEmpty(doc);
    StripEnds(doc);
    TriggersSolid(t);
    BlocksOfPieces(t, Triggers(t));
    SplitLossless(t, Triggers(t));
  }

  /**
   * Block m is the stretch of the trimmed roadmap from `c` to `e` with trailing
   * whitespace cut: the first block starts the roadmap, every later block starts
   * where a trigger matches, no break lies inside the stretch, and the stretch
   * ends at a break or at the end of the roadmap.
   */
  lemma SegmentBlockPlacement(doc: string, m: nat) returns (c: nat, e: nat)
    requires m < |Segment(doc)|
    ensures var t := Strip(doc);
      && PlacedAt(t, Segment(doc)[m], c, e)
      && (m == 0 ==> c == 0) && (m > 0 ==> TriggerAt(t, c))
      && (forall j :: c <= j < e ==> !BreakAt(t, j, Triggers(t)))
      && (e == |t| || BreakAt(t, e, Triggers(t)))
  {
    var t := Strip(doc);
    StripEmpty(doc);
    StripEnds(doc);
    TriggersSolid(t);
    var marks := Triggers(t);
    assert Segment(doc) == Blocks(t, marks);
    c, e := BlockPlacement(t, m, marks);
    assert m > 0 ==> TriggerAt(t, c);
  }

  /**
   * The roadmap is cut only at a run of two or more newlines that a trigger
   * follows: gap m is such a whole run, starting at `b`.
   */
  lemma SegmentCutAtTrigger(doc: string, m: nat) returns (b: nat)
    requires var t := Strip(doc); m < |Gaps(t, Triggers(t))|
    ensures var t := Strip(doc); var g := Gaps(t, Triggers(t))[m];
      && b + |g| < |t| && |g| == NewlineRun(t, b) && g == t[b..b + |g|] && NewlineGap(g)
      && TriggerAt(t, b + |g|)
  {
    var t := Strip(doc);
    b := GapPlacement(t, m, Triggers(t));
  }

  /** A roadmap in which no trigger occurs yields exactly one block, its trimmed self, or none when it is blank. */
  lemma SegmentWithoutTrigger(doc: string)
    requires forall i: nat :: !TriggerAt(Strip(doc), i)
    ensures Segment(doc) == if Blank(doc) then [] else [Strip(doc)]
  {
    var t := Strip(doc);
    StripEmpty(doc);
    StripEnds(doc);
    BlocksWithoutBreak(t, Triggers(t));
  }
}
