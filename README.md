# PathPilot roadmap pipeline in Dafny

PathPilot asks a language model for a learning roadmap towards a career goal
and shows it on a Streamlit page (`app.py`) or returns it from a FastAPI
endpoint (`main.py`). This project models the deterministic text and state
handling around those calls:

- **Text**: the Python string built-ins the pipeline relies on. These are
  `strip`, `in`, `replace` and `split`. `Find`, the position of the first
  occurrence, is a helper that states what the other three do. Neither program joins text
  with a blank line. `JoinWith` exists only to state that the sections of the
  endpoint survive being joined and split again.
- **NewlineSplit** and **Segmenter**: the roadmap segmenter (app.py:383-389).
  It trims the roadmap and cuts it before each run of two or more newlines
  that a trigger follows. The triggers are a `Level`/`Phase`/`Module` heading,
  the bold career-guidance marker and the total-time line. Each piece is then
  trimmed, and empty pieces are skipped.
- **Headings**: the heading sanitizer (app.py:392-400), the classification
  into special and levelled sections (403-406) and the body (411, 424).
- **Fields**: `parse_roadmap_section_content` (app.py:325-373), as an
  imperative method. It is proved against a fold over the parts of the split.
  This module also covers the selection of the non-empty fields for display
  (428-437).
- **Render**: the page loop (app.py:383-437). Each block becomes either a
  special view or a levelled view with its field lines.
- **Session**: the session state (app.py:14-29) as a class. Its methods are
  the goal check, the generate button, the two toggles and the course cache
  (286-321, 441-461). The state keeps the invariant that cached courses exist
  only while a roadmap is shown, and always belong to the current goal.
- **Api**: the section list of the roadmap endpoint (main.py:27).

What the code does and what its docstring says differ. The docstring of
`parse_roadmap_section_content` (app.py:326-334) promises five parsed fields,
but the code fills at most one:

- `Topics to Cover` comes back from its placeholder as `Topics To Cover`, so
  it is not a key of the dictionary.
- The placeholders of the other three labels hold `/` or `-`, which the split
  pattern `[A-Z_]+` never matches.
- Only `Estimated Time` can be filled.

The model follows the code, and `Fields.OnlyEstimatedFilled` proves this
behaviour.

Abstractions:

- `\s`, `\d` and `strip` are taken over ASCII whitespace and ASCII digits.
- `str.title()` is taken over ASCII letters.
- Regular expressions are modelled by the positions at which they match.

## Model

| member | source | states |
|---|---|---|
| NewlineSplit.SplitLossless | app.py:383 | putting the dropped newline runs back between the pieces of the split rebuilds the text; there is one more piece than there are runs |
| NewlineSplit.PiecePlacement | app.py:383 | each piece is a stretch of the text that starts at 0 or where the lookahead matches, holds no cut, and ends at a cut or at the end |
| NewlineSplit.SplitWithoutBreak | app.py:383 | a text without a cut point splits into itself, with no dropped runs |
| Segmenter.TriggerStart | app.py:383 | every trigger starts with `L`, `P`, `M`, `*` or `T`, never with whitespace |
| Segmenter.SegmentBlocksTrimmed | app.py:386-389 | every block is non-empty and has no surrounding whitespace |
| Segmenter.SegmentBlank | app.py:383-389 | a blank roadmap yields no block |
| Segmenter.SegmentLossless | app.py:383-389 | for a non-blank roadmap no block is dropped: block m is piece m, right-trimmed, and the pieces with the dropped newline runs rebuild the trimmed roadmap |
| Segmenter.SegmentBlockPlacement | app.py:383-389 | block m is a stretch of the trimmed roadmap: the first starts it, every later one starts where a trigger matches, no cut lies inside, and it ends at a cut or at the end |
| Segmenter.SegmentCutAtTrigger | app.py:383 | the roadmap is cut only at a whole run of two or more newlines followed directly by a trigger |
| Segmenter.SegmentWithoutTrigger | app.py:383-389 | a roadmap without a trigger yields one block, its trimmed self, or none when blank |
| Headings.FirstLineOf | app.py:392 | the heading match is the text up to the first newline |
| Headings.HeadMatch | app.py:392 | the lazy match `^(.*?)(?:\n\|$)` is a prefix of the block ending after the first newline or at the end |
| Headings.RemoveDecorative | app.py:397 | deleting `*`, `#` and the listed code-point ranges leaves no such character and keeps a single line single |
| Headings.RemoveDecorativePlain | app.py:397 | text with no decorative character comes through unchanged |
| Headings.RemoveDecorativeChar | app.py:397 | a single character is dropped exactly when it is decorative |
| Headings.RemoveDecorativeConcat | app.py:397 | the deletion works character by character: the result for `a + b` is the result for `a` followed by the result for `b` |
| Headings.SanitizePlain | app.py:393-400 | a line with no decorative character and neither time note is only trimmed: its text survives the sanitizer |
| Headings.SanitizeClean | app.py:393-400 | the sanitized heading has no surrounding whitespace, no decorative character, no `Estimated Time:` and no `Total Time Estimate:`, and is one line when its source is |
| Headings.SanitizeIdempotent | app.py:397-400 | sanitizing a sanitized heading gives it back |
| Headings.HeadingFromFirstLine | app.py:392-400 | the heading depends only on the first line of the block |
| Headings.DisplayHeadingIdempotent | app.py:392-400 | the heading of a heading is itself |
| Headings.BodyAfterHead | app.py:411 | the body is the block after its heading match, trimmed |
| Headings.BodyOfLines | app.py:411 | the body is the lines after the first, trimmed; a one-line block has an empty body |
| Headings.CareerHeading | app.py:392-400 | a block that opens with the career-guidance trigger keeps the career title at the front of its heading |
| Headings.TriggerBlocksSpecial | app.py:403-406 | blocks that open with the career-guidance or the total-time trigger are special |
| Text.CutFrom | app.py:399-400 | `re.sub(note + '.*', '', s)` on one line: a prefix of the line that ends exactly at the note's first occurrence (the position `find` reports, so it holds even for a note that overlaps itself) and holds no occurrence of it, or the whole line when the note does not occur |
| Text.ReplaceAll | app.py:355 | `str.replace` of a marker that does not occur changes nothing |
| Text.ReplaceAllFirst | app.py:355 | `str.replace` keeps the text before the first occurrence, puts the replacement in place of that occurrence, and the rest is the same replacement applied to the text after that occurrence: `s.replace(p, q) == s[:k] + q + s[k+len(p):].replace(p, q)` |
| Text.ReplaceFromNext | app.py:355 | the left-to-right scan from any position copies the text up to the next occurrence, writes the replacement for it and resumes right after it, so replaced occurrences never overlap |
| Text.ReplaceFromIsReplaceAll | app.py:355 | the scan from position i is `s[i:].replace(p, q)` |
| Text.SplitOnJoin | main.py:27 | joining the pieces of `str.split(sep)` with `sep` gives the text back |
| Text.SplitOnPieces | main.py:27 | no piece of `str.split(sep)` holds the separator |
| Text.SplitOnInOrder | main.py:27 | the pieces of `str.split(sep)` occur in the text one after the other |
| Fields.ParseSectionContent | app.py:325-373 | the extractor's result is the fold of the cursor walk over the parts of the split of the rewritten body |
| Fields.FieldsKeys | app.py:335-341 | the result always has exactly the five keys |
| Fields.FieldsTrimmed | app.py:362-371 | every value is trimmed |
| Fields.ValueSource | app.py:362-371 | a non-empty value is the trimmed text part right after the last token naming its key; part 0, the text before the first split point, is never assigned |
| Fields.LastKeyed | app.py:362-371 | finds the last token naming a key before a position, and no later token names it |
| Fields.RewrittenWithoutLabels | app.py:353-355 | a body without any of the five labels is not changed by the rewriting |
| Fields.SplitTokensRejoin | app.py:358 | putting the placeholders back between the parts of `re.split` rebuilds the text |
| Fields.TokenPart | app.py:358 | every odd part of the split is a token of `[A-Z_]` characters |
| Fields.TextPart | app.py:358 | text part m is a stretch of the text that starts at 0 or right after a closing `---`, in which no match starts; it ends at the end of the text when it is the last part, and otherwise at the next match, whose captured token is the next part. So the split cuts at the leftmost matches |
| Fields.SplitNoMatch | app.py:358 | a text without a placeholder splits into itself |
| Fields.KeyOfShape | app.py:366 | a token read back through `replace('_', ' ').title()` holds only letters and spaces, with an upper-case letter after each space |
| Fields.NotReadBack | app.py:366-368 | a name holding a character other than a letter or a space is never read back from a token |
| Fields.EstimatedTokenOnly | app.py:366-368 | the only token that reads back as one of the five names is `ESTIMATED_TIME`, giving `Estimated Time` |
| Fields.EstimatedRoundTrip | app.py:355-366 | the `Estimated Time` label becomes a placeholder whose token reads back as `Estimated Time` |
| Fields.TopicsLost | app.py:355-368 | the `Topics to Cover` token reads back as `Topics To Cover`, which is not a key |
| Fields.SlashedLost | app.py:355-358 | the placeholders of the three labels holding `/` or `-` are not tokens, so the split never matches them |
| Fields.OnlyEstimatedFilled | app.py:335-371 | the result is the five empty fields with only `Estimated Time` set |
| Fields.FieldsWithoutLabels | app.py:335-371 | a body without labels or placeholders gives the five empty fields |
| Fields.ShownEvery | app.py:428-437 | every non-empty field has its line in the display |
| Fields.ShownOnly | app.py:428-437 | every displayed line is the line of a non-empty field |
| Fields.ShownAsWritten | app.py:428-437 | as written, the display holds the `Estimated Time` line when its value is non-empty, and nothing else |
| Render.SectionLines | app.py:424-437 | the lines of a levelled section are the `Estimated Time` line exactly when that value is non-empty |
| Render.RenderBlock | app.py:387-437 | one pass of the page loop computes the view of its block |
| Render.RenderBlocks | app.py:386-437 | the loop gives one view per block, in order |
| Render.RenderRoadmap | app.py:383-437 | the page shows one view per block of the segmented roadmap, in order |
| Render.ViewsOfAt | app.py:386-389 | view k is the view of block k |
| Render.ViewHeadingClean | app.py:393-400 | every shown heading is trimmed, plain, one line and free of both time notes |
| Render.SpecialViewBody | app.py:411 | a special section shows the block without its first line, trimmed |
| Render.SectionOpensNumbered | app.py:383-406 | every later block shown as a levelled section opens with a `Level`, `Phase` or `Module` heading |
| Session.CachedCourses | app.py:450-461 | with ranking off the search results are cached as found; the cache is empty exactly when nothing was found or the ranker returned nothing; every cached course was found or ranked |
| Session.State.constructor | app.py:14-29 | a new session has no roadmap, an empty last goal, both toggles off, no cache and empty follow-up fields |
| Session.State.ObserveGoal | app.py:286-295 | a new goal is recorded and marked updated, and resets the toggles, cache and follow-up while the roadmap stays; the same goal changes nothing |
| Session.State.Generate | app.py:298-310 | a blank goal changes nothing; otherwise the roadmap is set, the update mark is cleared and the toggles, cache and follow-up reset |
| Session.State.SetToggles | app.py:313-321 | with a roadmap shown, courses take the user's setting, and ranking does only while courses are on; otherwise nothing changes |
| Session.State.FillCourseCache | app.py:441-461 | the cache is filled once, while it is empty, a roadmap is shown and courses are on; every other state is unchanged |
| Session.State.Run | app.py:286-461 | after one run the goal is recorded, any cached courses belong to it with a roadmap shown, and a fresh roadmap has the user's toggles and a cache of this run's courses |
| Text.Strip | app.py:383-388 | Python's `str.strip()` over ASCII whitespace; a definition with no contract of its own, described by `Text.StripIsSlice`, `Text.StripEnds` and `Text.StripStripped` |
| Text.SplitOn | main.py:27 | Python's `str.split(sep)`: at least one piece; described by the `Text.SplitOn*` rows |
| Text.ReplaceFirst | app.py:411 | Python's `str.replace(p, q, 1)`; a definition with no contract of its own, described by `Text.ReplaceFirstPrefix` |
| NewlineSplit.Split | app.py:383 | the pieces of `re.split(r'\n{2,}(?=…)', s)`; a definition with no contract of its own, described by the `NewlineSplit` rows |
| NewlineSplit.Gaps | app.py:383 | the newline runs that split drops; a definition with no contract of its own, described by `NewlineSplit.SplitLossless` |
| Segmenter.NumberedLen | app.py:383 | the length of a `(?:Level\|Phase\|Module)\s*\d+[:\-]` match, which lies inside the text and starts with one of the three words |
| Segmenter.TriggerLen | app.py:383 | the length of the lookahead match, which lies inside the text |
| Segmenter.Segment | app.py:383-389 | the blocks of a roadmap; a definition with no contract of its own, described by the `Segmenter.Segment*` rows |
| Headings.FirstLine | app.py:392 | group 1 of the heading match: a prefix with no newline that ends at the first newline or at the end |
| Headings.Sanitize | app.py:393-400 | the heading clean-up; a definition with no contract of its own, described by the `Headings.Sanitize*` rows |
| Headings.DisplayHeading | app.py:392-400 | the sanitized first line; a definition with no contract of its own, described by `Headings.HeadingFromFirstLine` and `Headings.DisplayHeadingIdempotent` |
| Headings.Classify | app.py:403-406 | special when the heading holds the career title or the block holds the total-time line; a definition with no contract of its own, described by `Headings.TriggerBlocksSpecial` and `Render.SectionOpensNumbered` |
| Headings.Body | app.py:411 | the block without its heading match, trimmed; a definition with no contract of its own, described by `Headings.BodyAfterHead` and `Headings.BodyOfLines` |
| Fields.Token | app.py:355 | the placeholder token of a label, of the same length as the label |
| Fields.KeyOf | app.py:366 | `token.replace('_', ' ').title()`, of the same length as the token; described by `Fields.KeyOfShape` |
| Fields.Rewritten | app.py:353-355 | the body after the first n label rewrites; a definition with no contract of its own, described by `Fields.RewrittenWithoutLabels` and `Text.ReplaceAllFirst` |
| Fields.SplitTokens | app.py:358 | `re.split(r'---SPLIT_([A-Z_]+)---', s)`; a definition with no contract of its own, described by `Fields.SplitTokensRejoin`, `Fields.TokenPart` and `Fields.TextPart` |
| Fields.FieldsAfter | app.py:362-371 | the dictionary after the walk has seen the first n parts; a definition with no contract of its own, described by the `Fields.Fields*` rows and `Fields.ValueSource` |
| Fields.Shown | app.py:428-437 | the lines of the non-empty fields in display order; a definition with no contract of its own, described by `Fields.ShownEvery` and `Fields.ShownOnly` |
| Render.ViewOf | app.py:387-437 | the view of one block; a definition with no contract of its own, described by the `Render` rows |
| Api.Sections | main.py:27 | the section list; a definition with no contract of its own, described by the `Api.Sections*` rows |
| Api.SectionsClean | main.py:27 | every section is non-empty, trimmed and free of blank lines |
| Api.SectionsInOrder | main.py:27 | the sections occur in the roadmap one after the other, in order |
| Api.SectionsWithoutBlankLine | main.py:27 | a roadmap without a blank line is one section, its trimmed self, or none when blank |
| Api.SectionsOfJoined | main.py:27 | clean sections joined by blank lines are sectioned back into themselves |
| Api.SectionsRoundTrip | main.py:27 | joining the sections with blank lines and sectioning again gives the same sections |

## Left out

- The Streamlit page itself is not modelled: page setup, CSS, widgets and the HTML wrappers of `st.markdown` (app.py:11-283, 409-439, 463-530). A view records only which text goes where.
- The markdown rewrites of a special body (app.py:413-415) are not modelled. These are the bold-to-`<strong>` substitutions and the list-marker normalisation. A special view holds the body before them.
- The roadmap generator, the follow-up agent, the course search and the course ranker call language models and web services. They are not modelled, and their answers are parameters of the session methods.
- The projection of search results into the ranker's input (app.py:453-456) is not modelled: the ranker's answer is a parameter.
- Session.State.Generate, Session.State.Run: the roadmap generator is modelled as always answering. In the source an exception from it stops the page run part-way, leaving the session as it was at that point. The course search and the ranker catch every exception themselves and answer with an empty list (course_search.py:48-58, course_ranker_agent.py:88-90), which the model covers as an empty `found` or `ranked`.
- The follow-up question and answer flow beyond clearing its two fields is not modelled.
- The FastAPI plumbing of `main.py` is not modelled. Only the section split at line 27 is.
- Non-ASCII whitespace and digits, which Python's `strip`, `\s` and `\d` also accept, are not modelled.
- `str.title()` is modelled only over ASCII letters.
- The `else section_text` branches at app.py:411 and 424 are not modelled. `re.match(r'^(.*?)(?:\n|$)', ...)` always matches, so these branches are dead.
