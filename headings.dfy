/**
 * Headings, classification and bodies of roadmap blocks (app.py:392-424).
 *
 * Each block the segmenter yields is shown under a heading taken from its
 * first line: trimmed, stripped of markdown `*` and `#` and of emoji-like
 * characters, cut before any `Estimated Time:` or `Total Time Estimate:`
 * note, and trimmed between the steps. A block is rendered as a special
 * section when that heading names the career guidance or when the block
 * carries the total-time line; every other block is a levelled section whose
 * fields are parsed from its body, the block without its first line.
 */
module Headings {
  import opened Text
  import opened Segmenter

  const EstimatedNote := "Estimated Time:"
  const TotalNote := "Total Time Estimate:"

  predicate OneLine(s: string) {
    forall k :: 0 <= k < |s| ==> s[k] != '\n'
  }

  // ---------------------------------------------------------------------------
  // `re.match(r'^(.*?)(?:\n|$)', block)`

  /** The position of the first newline at or after `i`, or the end of `s`. */
  function LineEnd(s: string, i: nat): (k: nat)
    requires i <= |s|
    ensures i <= k <= |s| && (k == |s| || s[k] == '\n')
    decreases |s| - i
  {
    if i == |s| || s[i] == '\n' then i else LineEnd(s, i + 1)
  }

  lemma {:induction false} LineEndSkips(s: string, i: nat, j: nat)
    requires i <= |s| && i <= j < LineEnd(s, i)
    ensures s[j] != '\n'
    decreases |s| - i
  {
    if i < j {
      LineEndSkips(s, i + 1, j);
    }
  }

  /** The line ends at the first newline. */
  lemma {:induction false} LineEndAt(s: string, i: nat, k: nat)
    requires i <= k <= |s| && (k == |s| || s[k] == '\n')
    requires forall j :: i <= j < k ==> s[j] != '\n'
    ensures LineEnd(s, i) == k
    decreases k - i
  {
    if i < k {
      LineEndAt(s, i + 1, k);
    }
  }

  /** No newline before `n` puts the end of the line at `n` or later. */
  lemma {:induction false} LineEndPast(s: string, i: nat, n: nat)
    requires i <= n <= |s| && forall j :: i <= j < n ==> s[j] != '\n'
    ensures n <= LineEnd(s, i)
    decreases n - i
  {
    if i < n {
      LineEndPast(s, i + 1, n);
    }
  }

  /** Group 1 of the heading match: the block up to its first newline. */
  function FirstLine(s: string): (r: string)
    ensures |r| <= |s| && r == s[..|r|] && OneLine(r) && (|r| == |s| || s[|r|] == '\n')
  {
    var k := LineEnd(s, 0);
    forall j | 0 <= j < k ensures s[j] != '\n' {
      LineEndSkips(s, 0, j);
    }
    s[..k]
  }

  /**
   * Group 0 of the heading match: the first line with its newline. The lazy
   * `.*?` stops at the first newline, where `\n` is tried before `$`, so the
   * pattern matches every string and the `else` branches of app.py:411 and
   * app.py:424 never run.
   */
  function HeadMatch(s: string): (r: string)
    ensures |r| <= |s| && r == s[..|r|]
    ensures r == FirstLine(s) || r == FirstLine(s) + "\n"
  {
    var k := LineEnd(s, 0);
    if k < |s| then
      assert s[..k + 1] == s[..k] + "\n";
      s[..k + 1]
    else s
  }

  /** The heading line is what the match consumes, less a final newline. */
  lemma HeadMatchLine(s: string)
    ensures HeadMatch(s) == if |FirstLine(s)| < |s| then FirstLine(s) + "\n" else s
  {
    var k := LineEnd(s, 0);
    if k < |s| {
      assert s[..k + 1] == s[..k] + "\n";
    }
  }

  /** A line followed by a newline is the first line, whatever follows. */
  lemma FirstLineOf(line: string, rest: string)
    requires OneLine(line)
    ensures FirstLine(line + "\n" + rest) == line
    ensures HeadMatch(line + "\n" + rest) == line + "\n"
  {
    var s := line + "\n" + rest;
    assert s[..|line|] == line;
    LineEndAt(s, 0, |line|);
    HeadMatchLine(s);
  }

  /** A single line is its own first line. */
  lemma FirstLineOfLine(line: string)
    requires OneLine(line)
    ensures FirstLine(line) == line
  {
    LineEndAt(line, 0, |line|);
  }

  // ---------------------------------------------------------------------------
  // The character class of app.py:397

  /**
   * `*`, `#` and the code points of the listed ranges. The last range,
   * U+24C2..U+1F251, is wide: it takes in all of CJK, the Hangul syllables
   * and the private use area besides the enclosed alphanumerics it aims at.
   */
  predicate IsDecorative(c: char) {
    c == '*' || c == '#'
    || 0x1F600 <= c as int <= 0x1F64F
    || 0x1F300 <= c as int <= 0x1F5FF
    || 0x1F680 <= c as int <= 0x1F6FF
    || 0x1F1E0 <= c as int <= 0x1F1FF
    || 0x2702 <= c as int <= 0x27B0
    || 0x24C2 <= c as int <= 0x1F251
  }

  predicate Plain(s: string) {
    forall k :: 0 <= k < |s| ==> !IsDecorative(s[k])
  }

  /** `re.sub(class, '', s[i:])`: the characters of `s` from `i` on that are not decorative, in order. */
  function RemoveDecorative(s: string, i: nat): (r: string)
    requires i <= |s|
    ensures |r| <= |s| - i && Plain(r)
    ensures (forall k :: i <= k < |s| ==> s[k] != '\n') ==> OneLine(r)
    decreases |s| - i
  {
    if i == |s| then []
    else if IsDecorative(s[i]) then RemoveDecorative(s, i + 1)
    else [s[i]] + RemoveDecorative(s, i + 1)
  }

  /** Removing decorations from plain text changes nothing. */
  lemma {:induction false} RemoveDecorativePlain(s: string, i: nat)
    requires i <= |s| && forall k :: i <= k < |s| ==> !IsDecorative(s[k])
    ensures RemoveDecorative(s, i) == s[i..]
    decreases |s| - i
  {
    if i < |s| {
      RemoveDecorativePlain(s, i + 1);
      assert s[i..] == [s[i]] + s[i + 1..];
    }
  }

  /** Past the end of `a`, removing decorations from `a + b` is removing them from `b`. */
  lemma {:induction false} RemoveDecorativeShift(a: string, b: string, j: nat)
    requires j <= |b|
    ensures RemoveDecorative(a + b, |a| + j) == RemoveDecorative(b, j)
    decreases |b| - j
  {
    if j < |b| {
      assert (a + b)[|a| + j] == b[j];
      RemoveDecorativeShift(a, b, j + 1);
    }
  }

  lemma RemoveDecorativeStep(s: string, i: nat)
    requires i < |s|
    ensures RemoveDecorative(s, i) == (if IsDecorative(s[i]) then [] else [s[i]]) + RemoveDecorative(s, i + 1)
  {
  }

  /** Decorations are removed character by character: the result for `a + b` is the result for `a`, then for `b`. */
  lemma {:induction false} RemoveDecorativeConcat(a: string, b: string, i: nat)
    requires i <= |a|
    ensures RemoveDecorative(a + b, i) == RemoveDecorative(a, i) + RemoveDecorative(b, 0)
    decreases |a| - i
  {
    if i == |a| {
      RemoveDecorativeShift(a, b, 0);
    } else {
      assert (a + b)[i] == a[i];
      RemoveDecorativeStep(a + b, i);
      RemoveDecorativeStep(a, i);
      RemoveDecorativeConcat(a, b, i + 1);
    }
  }

  /** One character is dropped exactly when it is decorative. */
  lemma RemoveDecorativeChar(c: char)
    ensures RemoveDecorative([c], 0) == if IsDecorative(c) then [] else [c]
  {
  }

  /** Plain characters at `i` survive, in front of whatever the rest leaves. */
  lemma {:induction false} RemoveDecorativeKeeps(s: string, i: nat, n: nat)
    requires i + n <= |s| && forall k :: i <= k < i + n ==> !IsDecorative(s[k])
    ensures n <= |RemoveDecorative(s, i)| && RemoveDecorative(s, i)[..n] == s[i..i + n]
    decreases n
  {
    if n > 0 {
      RemoveDecorativeKeeps(s, i + 1, n - 1);
      var rest := RemoveDecorative(s, i + 1);
      assert RemoveDecorative(s, i) == [s[i]] + rest;
      assert ([s[i]] + rest)[..n] == [s[i]] + rest[..n - 1];
      assert s[i..i + n] == [s[i]] + s[i + 1..i + n];
    }
  }

  // ---------------------------------------------------------------------------
  // The sanitized heading (app.py:396-400)

  /** Trim, drop decorations, trim, cut the time notes, trimming after each cut. */
  function Sanitize(line: string): (h: string)
  {
    var h1 := Strip(RemoveDecorative(Strip(line), 0));
    var h2 := Strip(CutFrom(h1, EstimatedNote));
    Strip(CutFrom(h2, TotalNote))
  }

  /** The heading shown for a block: its first line, sanitized. */
  function DisplayHeading(block: string): (h: string)
  {
    Sanitize(FirstLine(block))
  }

  /** A slice keeps plainness, single lines and the absence of the two notes. */
  lemma SliceKeeps(s: string, a: nat, b: nat)
    requires a <= b <= |s|
    ensures Plain(s) ==> Plain(s[a..b])
    ensures OneLine(s) ==> OneLine(s[a..b])
    ensures !Contains(s, EstimatedNote) ==> !Contains(s[a..b], EstimatedNote)
    ensures !Contains(s, TotalNote) ==> !Contains(s[a..b], TotalNote)
  {
    assert forall k :: 0 <= k < b - a ==> s[a..b][k] == s[a + k];
    SliceContains(s, a, b, EstimatedNote);
    SliceContains(s, a, b, TotalNote);
  }

  /** The same four facts carry over to the stripped string, which has no surrounding whitespace. */
  lemma StripCarries(s: string)
    ensures var h := Strip(s);
      && Stripped(h)
      && (Plain(s) ==> Plain(h)) && (OneLine(s) ==> OneLine(h))
      && (!Contains(s, EstimatedNote) ==> !Contains(h, EstimatedNote))
      && (!Contains(s, TotalNote) ==> !Contains(h, TotalNote))
  {
    var a := StripIsSlice(s);
    SliceKeeps(s, a, a + |Strip(s)|);
  }

  /** ... and over to a prefix. */
  lemma PrefixCarries(s: string, r: string)
    requires |r| <= |s| && r == s[..|r|]
    ensures (Plain(s) ==> Plain(r)) && (OneLine(s) ==> OneLine(r))
    ensures !Contains(s, EstimatedNote) ==> !Contains(r, EstimatedNote)
    ensures !Contains(s, TotalNote) ==> !Contains(r, TotalNote)
  {
    SliceKeeps(s, 0, |r|);
    assert s[0..|r|] == r;
  }

  /**
   * The sanitized heading has no surrounding whitespace, no `*`, `#` or other
   * decorative character, and neither time note; a heading made from one line
   * is one line.
   */
  lemma SanitizeClean(line: string)
    ensures var h := Sanitize(line);
      && Stripped(h) && Plain(h) && !Contains(h, EstimatedNote) && !Contains(h, TotalNote)
      && (OneLine(line) ==> OneLine(h))
  {
    var s0 := Strip(line);
    StripCarries(line);
    var d := RemoveDecorative(s0, 0);
    var h1 := Strip(d);
    StripCarries(d);
    var c1 := CutFrom(h1, EstimatedNote);
    PrefixCarries(h1, c1);
    var h2 := Strip(c1);
    StripCarries(c1);
    var c2 := CutFrom(h2, TotalNote);
    PrefixCarries(h2, c2);
    StripCarries(c2);
  }

  /** Sanitizing a sanitized heading gives it back unchanged. */
  lemma SanitizeIdempotent(line: string)
    ensures Sanitize(Sanitize(line)) == Sanitize(line)
  {
    var h := Sanitize(line);
    SanitizeClean(line);
    SanitizePlain(h);
    StripStripped(h);
  }

  /**
   * A line with no decorative character and neither time note keeps its
   * text: sanitizing it only trims it.
   */
  lemma SanitizePlain(line: string)
    requires Plain(line) && !Contains(line, EstimatedNote) && !Contains(line, TotalNote)
    ensures Sanitize(line) == Strip(line)
  {
    var s0 := Strip(line);
    StripCarries(line);
    RemoveDecorativePlain(s0, 0);
    assert s0[0..] == s0;
    StripStripped(s0);
  }

  /** The heading comes from the first line alone: whatever follows the first newline does not affect it. */
  lemma HeadingFromFirstLine(line: string, rest: string)
    requires OneLine(line)
    ensures DisplayHeading(line + "\n" + rest) == Sanitize(line)
  {
    FirstLineOf(line, rest);
  }

  /** Taking the heading of a heading changes nothing. */
  lemma DisplayHeadingIdempotent(block: string)
    ensures DisplayHeading(DisplayHeading(block)) == DisplayHeading(block)
  {
    var h := DisplayHeading(block);
    SanitizeClean(FirstLine(block));
    FirstLineOfLine(h);
    SanitizeIdempotent(FirstLine(block));
  }

  // ---------------------------------------------------------------------------
  // Classification and body (app.py:403-406, 411, 424)

  datatype Kind = Special | Levelled

  /** Special when the heading names the career guidance or the block carries the total-time line. */
  function Classify(block: string): (k: Kind)
  {
    if Contains(DisplayHeading(block), CareerTitle) || Contains(block, TotalMarker) then Special
    else Levelled
  }

  /** The block with its heading match removed (the first occurrence, which is the prefix), then trimmed. */
  function Body(block: string): (r: string)
  {
    Strip(ReplaceFirst(block, HeadMatch(block), ""))
  }

  /** The body is what follows the first line and its newline, trimmed. */
  lemma BodyAfterHead(block: string)
    ensures Body(block) == Strip(block[|HeadMatch(block)|..])
  {
    ReplaceFirstPrefix(block, HeadMatch(block));
  }

  /** The body comes from the lines after the first alone, and a single-line block has none. */
  lemma BodyOfLines(line: string, rest: string)
    requires OneLine(line)
    ensures Body(line + "\n" + rest) == Strip(rest)
    ensures Body(line) == ""
  {
    var s := line + "\n" + rest;
    FirstLineOf(line, rest);
    BodyAfterHead(s);
    assert s[|line| + 1..] == rest;
    LineEndAt(line, 0, |line|);
    BodyAfterHead(line);
    HeadMatchLine(line);
  }

  lemma CareerTitlePlain()
    ensures Plain(CareerTitle)
  {
  }

  lemma CareerMarkerOneLine()
    ensures OneLine(CareerMarker)
  {
  }

  /** Neither time note can start inside the career title: it has no capital `E` and no capital `T`. */
  lemma CareerTitleLetters()
    ensures forall k :: 0 <= k < |CareerTitle| ==> CareerTitle[k] != 'E' && CareerTitle[k] != 'T'
  {
  }

  /** The first line of a block that starts with a one-line prefix starts with it too, also once stripped. */
  lemma FirstLineLead(block: string, pre: string)
    requires 0 < |pre| <= |block| && block[..|pre|] == pre && OneLine(pre)
    requires !IsSpace(pre[0]) && !IsSpace(pre[|pre| - 1])
    ensures |pre| <= |Strip(FirstLine(block))| && Strip(FirstLine(block))[..|pre|] == pre
  {
    var line := FirstLine(block);
    LineEndPast(block, 0, |pre|);
    assert line[..|pre|] == pre;
    StripKeepsLead(line, pre);
  }

  /** The two stars around the career title go, the title stays in front. */
  lemma UndecoratedLead(s: string)
    requires |CareerMarker| <= |s| && s[..|CareerMarker|] == CareerMarker
    ensures |CareerTitle| <= |RemoveDecorative(s, 0)| && RemoveDecorative(s, 0)[..|CareerTitle|] == CareerTitle
  {
    var title := CareerTitle;
    CareerTitlePlain();
    assert s[..|title| + 4] == "**" + title + "**";
    assert s[0] == '*' && s[1] == '*';
    assert s[2..2 + |title|] == title;
    assert RemoveDecorative(s, 0) == RemoveDecorative(s, 1) == RemoveDecorative(s, 2);
    RemoveDecorativeKeeps(s, 2, |title|);
  }

  /** Trimming and cutting the time notes keep the career title in front. */
  lemma NotesLead(d: string)
    requires |CareerTitle| <= |d| && d[..|CareerTitle|] == CareerTitle
    ensures var h1 := Strip(d); var h2 := Strip(CutFrom(h1, EstimatedNote)); var h := Strip(CutFrom(h2, TotalNote));
      |CareerTitle| <= |h| && h[..|CareerTitle|] == CareerTitle
  {
    CareerTitleLetters();
    assert EstimatedNote[0] == 'E' && TotalNote[0] == 'T';
    var h1 := Strip(d);
    StripKeepsLead(d, CareerTitle);
    var c1 := CutFrom(h1, EstimatedNote);
    CutFromKeepsPrefix(h1, EstimatedNote, CareerTitle);
    var h2 := Strip(c1);
    StripKeepsLead(c1, CareerTitle);
    CutFromKeepsPrefix(h2, TotalNote, CareerTitle);
    StripKeepsLead(CutFrom(h2, TotalNote), CareerTitle);
  }

  /** A block that starts with the career-guidance trigger keeps the career title in front of its heading. */
  lemma CareerHeading(block: string)
    requires |CareerMarker| <= |block| && block[..|CareerMarker|] == CareerMarker
    ensures |CareerTitle| <= |DisplayHeading(block)| && DisplayHeading(block)[..|CareerTitle|] == CareerTitle
  {
    CareerMarkerOneLine();
    FirstLineLead(block, CareerMarker);
    var s0 := Strip(FirstLine(block));
    UndecoratedLead(s0);
    NotesLead(RemoveDecorative(s0, 0));
  }

  /** Blocks that start with the career-guidance or the total-time trigger are rendered as special sections. */
  lemma TriggerBlocksSpecial(block: string)
    requires (|CareerMarker| <= |block| && block[..|CareerMarker|] == CareerMarker)
          || (|TotalMarker| <= |block| && block[..|TotalMarker|] == TotalMarker)
    ensures Classify(block) == Special
  {
    if |CareerMarker| <= |block| && block[..|CareerMarker|] == CareerMarker {
      CareerHeading(block);
      assert OccursAt(DisplayHeading(block), CareerTitle, 0);
    } else {
      assert OccursAt(block, TotalMarker, 0);
    }
  }
}
