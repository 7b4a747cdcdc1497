/**
 * The roadmap page (app.py:376-437): every block of the segmented roadmap is
 * shown either as a special section (its sanitized heading and its body) or as
 * a collapsed levelled section (its sanitized heading and the lines of the
 * non-empty fields the extractor finds in its body). The HTML around the
 * text and the markdown rewrites of a special body are not modelled; a view
 * records what text is shown where.
 */
module Render {
  import opened Text
  import opened Segmenter
  import opened Headings
  import opened Fields
  import opened NewlineSplit

  datatype View =
    | SpecialView(heading: string, body: string)
    | SectionView(heading: string, lines: seq<string>)

  /**
   * The lines a levelled section shows for its body (app.py:424-437): the
   * non-empty fields the extractor returns, in display order. As written the
   * extractor fills only `Estimated Time`, so there is at most one line, that
   * field's line, and it is there exactly when the value is non-empty.
   */
  function SectionLines(body: string): (lines: seq<string>)
    ensures var parts := SplitTokens(Rewritten(body, |FieldNames|));
      var v := ValueAfter(parts, EstimatedTime, |parts|);
      lines == if v == "" then [] else [FieldLine(EstimatedTime, v)]
  {
    var parts := SplitTokens(Rewritten(body, |FieldNames|));
    ShownAsWritten(Rewritten(body, |FieldNames|));
    Shown(FieldsAfter(parts, |parts|))
  }

  /** How one block is shown (app.py:392-437). */
  function ViewOf(block: string): (v: View)
  {
    var heading := DisplayHeading(block);
    if Classify(block) == Special then SpecialView(heading, Body(block))
    else SectionView(heading, SectionLines(Body(block)))
  }

  /** One pass of the page loop (app.py:387-437): the view of one block. */
  method RenderBlock(block: string) returns (view: View)
    ensures view == ViewOf(block)
  {
    var heading := DisplayHeading(block);
    if Contains(heading, CareerTitle) || Contains(block, TotalMarker) {
      view := SpecialView(heading, Body(block));
    } else {
      var parsed := ParseSectionContent(Body(block));
      ShownAsWritten(Rewritten(Body(block), |FieldNames|));
      view := SectionView(heading, Shown(parsed));
    }
  }

  /** The views of a list of blocks, one per block, in order. */
  function ViewsOf(blocks: seq<string>): (views: seq<View>)
    ensures |views| == |blocks|
  {
    if blocks == [] then [] else ViewsOf(blocks[..|blocks| - 1]) + [ViewOf(blocks[|blocks| - 1])]
  }

  /** View k is the view of block k. */
  lemma {:induction false} ViewsOfAt(blocks: seq<string>, k: nat)
    requires k < |blocks|
    ensures ViewsOf(blocks)[k] == ViewOf(blocks[k])
    decreases |blocks|
  {
    if k < |blocks| - 1 {
      var front := blocks[..|blocks| - 1];
      ViewsOfAt(front, k);
      assert front[k] == blocks[k];
    }
  }

  lemma ViewsOfSnoc(blocks: seq<string>, k: nat)
    requires k < |blocks|
    ensures ViewsOf(blocks[..k + 1]) == ViewsOf(blocks[..k]) + [ViewOf(blocks[k])]
  {
    assert blocks[..k + 1][..k] == blocks[..k];
  }

  /** The loop over the blocks. */
  method RenderBlocks(blocks: seq<string>) returns (views: seq<View>)
    ensures views == ViewsOf(blocks)
  {
    views := [];
    for k := 0 to |blocks|
      invariant views == ViewsOf(blocks[..k])
    {
      var view := RenderBlock(blocks[k]);
      ViewsOfSnoc(blocks, k);
      views := views + [view];
    }
    assert blocks[..|blocks|] == blocks;
  }

  /** The page (app.py:383-437): one view per block of the segmented roadmap, in order. */
  method RenderRoadmap(roadmap: string) returns (views: seq<View>)
    ensures |views| == |Segment(roadmap)|
    ensures forall k :: 0 <= k < |views| ==> views[k] == ViewOf(Segment(roadmap)[k])
  {
    views := RenderBlocks(Segment(roadmap));
    forall k | 0 <= k < |views| ensures views[k] == ViewOf(Segment(roadmap)[k]) {
      ViewsOfAt(Segment(roadmap), k);
    }
  }

  /**
   * Every heading shown is one line with no surrounding whitespace, no
   * decoration and neither time note.
   */
  lemma ViewHeadingClean(block: string)
    ensures var h := ViewOf(block).heading;
      && Stripped(h) && Plain(h) && OneLine(h) && !Contains(h, EstimatedNote) && !Contains(h, TotalNote)
  {
    SanitizeClean(FirstLine(block));
  }

  /** A special section shows the block without its first line, trimmed. */
  lemma SpecialViewBody(line: string, rest: string)
    requires OneLine(line) && ViewOf(line + "\n" + rest).SpecialView?
    ensures ViewOf(line + "\n" + rest).body == Strip(rest)
  {
    BodyOfLines(line, rest);
  }

  lemma TotalMarkerOneLine()
    ensures OneLine(TotalMarker)
  {
  }

  lemma BlankAt(s: string, i: nat)
    requires Blank(s) && i < |s|
    ensures IsSpace(s[i])
  {
  }

  /**
   * A trigger that holds no newline and ends in a non-space character lies
   * whole inside the block that starts with it.
   */
  lemma PlacedLead(t: string, block: string, c: nat, e: nat, p: string)
    requires PlacedAt(t, block, c, e) && OccursAt(t, p, c)
    requires p != [] && OneLine(p) && !IsSpace(p[|p| - 1])
    requires e == |t| || NewlineRun(t, e) >= 2
    ensures |p| <= |block| && block[..|p|] == p
  {
    if |block| < |p| {
      BlankAt(t[c + |block|..e], |p| - 1 - |block|);
    }
    assert block[..|p|] == t[c..c + |p|];
  }

  /** A block placed at a trigger and classified as levelled starts with a `Level`, `Phase` or `Module` heading. */
  lemma LevelledAtNumbered(t: string, block: string, c: nat, e: nat)
    requires PlacedAt(t, block, c, e) && TriggerAt(t, c)
    requires e == |t| || NewlineRun(t, e) >= 2
    requires Classify(block) == Levelled
    ensures NumberedLen(t, c) > 0
  {
    if NumberedLen(t, c) == 0 {
      CareerMarkerOneLine();
      TotalMarkerOneLine();
      if OccursAt(t, CareerMarker, c) {
        PlacedLead(t, block, c, e, CareerMarker);
      } else {
        PlacedLead(t, block, c, e, TotalMarker);
      }
      TriggerBlocksSpecial(block);
    }
  }

  /**
   * Every block after the first starts where a trigger matches; when that
   * block is shown as a levelled section, its trigger is a `Level`, `Phase`
   * or `Module` heading: the career-guidance and the total-time triggers
   * always open special sections.
   */
  lemma SectionOpensNumbered(roadmap: string, k: nat) returns (c: nat, e: nat)
    requires 0 < k < |Segment(roadmap)|
    requires ViewOf(Segment(roadmap)[k]).SectionView?
    ensures var t := Strip(roadmap);
      PlacedAt(t, Segment(roadmap)[k], c, e) && c < |t| && NumberedLen(t, c) > 0
  {
    var t := Strip(roadmap);
    c, e := SegmentBlockPlacement(roadmap, k);
    LevelledAtNumbered(t, Segment(roadmap)[k], c, e);
    TriggerStart(t, c);
  }
}
