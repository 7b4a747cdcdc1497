/**
 * The section list the roadmap endpoint returns (main.py:27): the roadmap
 * split on every blank line (the literal two-newline separator), each piece
 * trimmed, the empty pieces dropped.
 */
module Api {
  import opened Text

  const BlankLine := "\n\n"

  /** The sections of a roadmap. */
  function Sections(roadmap: string): (sections: seq<string>)
  {
    NonEmpty(StripAll(SplitOn(roadmap, BlankLine), 0), 0)
  }

  /** A section as the endpoint returns it: non-empty, no surrounding whitespace, no blank line inside. */
  predicate Clean(x: string) {
    x != [] && Stripped(x) && !Contains(x, BlankLine)
  }

  /** Trimming a piece without a blank line gives a clean section unless it gives nothing. */
  lemma TrimmedPieceClean(p: string)
    requires !Contains(p, BlankLine) && Strip(p) != []
    ensures Clean(Strip(p))
  {
    var a := StripIsSlice(p);
    SliceContains(p, a, a + |Strip(p)|, BlankLine);
  }

  /** Every section is non-empty, has no surrounding whitespace and holds no blank line. */
  lemma SectionsClean(roadmap: string)
    ensures forall x :: x in Sections(roadmap) ==> Clean(x)
  {
    var pieces := SplitOn(roadmap, BlankLine);
    var trimmed := StripAll(pieces, 0);
    SplitOnPieces(roadmap, BlankLine);
    forall x | x in Sections(roadmap) ensures Clean(x) {
      NonEmptyMembers(trimmed, 0, x);
      var j :| 0 <= j < |trimmed| && x == trimmed[j];
      StripAllAt(pieces, 0, j);
      assert pieces[j] in pieces;
      TrimmedPieceClean(pieces[j]);
    }
  }

  /** The sections occur in the roadmap one after the other, in the order of the text. */
  lemma SectionsInOrder(roadmap: string)
    ensures InOrder(Sections(roadmap), roadmap)
  {
    var pieces := SplitOn(roadmap, BlankLine);
    SplitOnInOrder(roadmap, BlankLine);
    assert pieces[0..] == pieces;
    StripAllInOrder(pieces, 0, roadmap);
    var trimmed := StripAll(pieces, 0);
    assert trimmed[0..] == trimmed;
    NonEmptyInOrder(trimmed, 0, roadmap);
  }

  /** A roadmap without a blank line is one section, its trimmed self, or none when it is blank. */
  lemma SectionsWithoutBlankLine(roadmap: string)
    requires !Contains(roadmap, BlankLine)
    ensures Sections(roadmap) == if Blank(roadmap) then [] else [Strip(roadmap)]
  {
    SplitOnWithout(roadmap, BlankLine);
    StripEmpty(roadmap);
    assert StripAll([roadmap], 0) == [Strip(roadmap)];
  }

  /** In a text that is a clean section, a blank line, then more, the first blank line is the one after the section. */
  lemma FindAfterSection(x: string, rest: string)
    requires Clean(x)
    ensures Find(x + BlankLine + rest, BlankLine) == Some(|x|)
  {
    var s := x + BlankLine + rest;
    assert OccursAt(s, BlankLine, |x|);
    forall j | 0 <= j < |x| ensures !OccursAt(s, BlankLine, j) {
      if j + 2 <= |x| {
        assert s[j..j + 2] == x[j..j + 2];
        assert !OccursAt(x, BlankLine, j);
      } else {
        assert s[j] == x[|x| - 1] && !IsSpace(s[j]);
        assert s[j..j + 2][0] == s[j];
      }
    }
    FindContains(s, BlankLine);
  }

  /** Splitting clean sections joined by blank lines gives them back. */
  lemma {:induction false} SplitJoined(xs: seq<string>)
    requires xs != []
    requires forall x :: x in xs ==> Clean(x)
    ensures SplitOn(JoinWith(xs, BlankLine), BlankLine) == xs
    decreases |xs|
  {
    if |xs| == 1 {
      assert xs[0] in xs;
      SplitOnWithout(xs[0], BlankLine);
    } else {
      var x := xs[0];
      var rest := JoinWith(xs[1..], BlankLine);
      var s := x + BlankLine + rest;
      assert xs[1..][0] in xs;
      assert forall y :: y in xs[1..] ==> y in xs;
      SplitJoined(xs[1..]);
      FindAfterSection(x, rest);
      SplitOnStep(s, BlankLine, |x|);
      assert s[..|x|] == x && s[|x| + 2..] == rest;
      assert xs == [x] + xs[1..];
    }
  }

  /** Trimming clean sections changes nothing. */
  lemma StripAllClean(xs: seq<string>)
    requires forall x :: x in xs ==> Clean(x)
    ensures StripAll(xs, 0) == xs
  {
    forall m | 0 <= m < |xs| ensures StripAll(xs, 0)[m] == xs[m] {
      StripAllAt(xs, 0, m);
      assert xs[m] in xs;
      StripStripped(xs[m]);
    }
  }

  /** Sectioning clean sections joined by blank lines gives them back. */
  lemma SectionsOfJoined(xs: seq<string>)
    requires forall x :: x in xs ==> Clean(x)
    ensures Sections(JoinWith(xs, BlankLine)) == xs
  {
    if xs == [] {
      assert SplitOn("", BlankLine) == [""];
      assert StripAll([""], 0) == [Strip("")];
    } else {
      SplitJoined(xs);
      StripAllClean(xs);
      forall j | 0 <= j < |xs| ensures |xs[j]| > 0 {
        assert xs[j] in xs;
      }
      NonEmptyAll(xs, 0);
    }
  }

  /**
   * Sectioning is stable: joining the sections with blank lines and
   * sectioning that text again gives the same sections.
   */
  lemma SectionsRoundTrip(roadmap: string)
    ensures Sections(JoinWith(Sections(roadmap), BlankLine)) == Sections(roadmap)
  {
    SectionsClean(roadmap);
    SectionsOfJoined(Sections(roadmap));
  }
}
