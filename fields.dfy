/**
 * The field extractor of a levelled roadmap section (app.py:325-373) and the
 * selection of the fields shown for it (app.py:428-437).
 *
 * The extractor starts from a dictionary with five empty fields, rewrites each
 * bold label `**<name>:**` of the body into a placeholder
 * `---SPLIT_<NAME>---` (spaces to `_`, upper-cased), splits the text with
 * `re.split(r'---SPLIT_([A-Z_]+)---', ...)`, and walks the parts: a captured
 * token names a field when `token.replace('_', ' ').title()` is one of the
 * five names, and the text part after it, trimmed, becomes that field.
 *
 * As the code stands only `Estimated Time` is ever filled: `Topics to Cover`
 * comes back from its token as `Topics To Cover`, and the placeholders of the
 * other three names hold `/` or `-`, which `[A-Z_]` does not match.
 */
module Fields {
  import opened Text

  const TopicsToCover := "Topics to Cover"
  const EstimatedTime := "Estimated Time"
  const KeyTools := "Key Tools/Technologies"
  const MiniProjects := "Mini-Projects/Exercises"
  const Resources := "Resources/Learning Strategies"

  /** The five fields, in the order of the dictionary and of the display. */
  const FieldNames: seq<string> := [TopicsToCover, EstimatedTime, KeyTools, MiniProjects, Resources]

  const SplitOpen := "---SPLIT_"
  const SplitClose := "---"

  // ---------------------------------------------------------------------------
  // ASCII case mapping and `str.title()`

  predicate IsUpper(c: char) { 'A' <= c <= 'Z' }
  predicate IsLower(c: char) { 'a' <= c <= 'z' }
  predicate IsLetter(c: char) { IsUpper(c) || IsLower(c) }

  function Upper(c: char): (u: char)
  {
    if IsLower(c) then (c as int - 32) as char else c
  }

  function Lower(c: char): (l: char)
  {
    if IsUpper(c) then (c as int + 32) as char else c
  }

  /** The placeholder name of a field: `key.replace(' ', '_').upper()`. */
  function Token(key: string): (t: string)
    ensures |t| == |key|
  {
    seq(|key|, k requires 0 <= k < |key| => Upper(if key[k] == ' ' then '_' else key[k]))
  }

  function Placeholder(key: string): (p: string)
  {
    SplitOpen + Token(key) + SplitClose
  }

  function Marker(key: string): (m: string)
  {
    "**" + key + ":**"
  }

  /** `token.replace('_', ' ')`. */
  function Spaced(token: string): (s: string)
    ensures |s| == |token|
  {
    seq(|token|, k requires 0 <= k < |token| => if token[k] == '_' then ' ' else token[k])
  }

  /** Character `k` of `s.title()`: a letter after a letter is lowered, any other letter raised. */
  function TitleChar(s: string, k: nat): (c: char)
    requires k < |s|
  {
    if !IsLetter(s[k]) then s[k]
    else if k > 0 && IsLetter(s[k - 1]) then Lower(s[k])
    else Upper(s[k])
  }

  /** `s.title()` over ASCII letters. */
  function Title(s: string): (t: string)
    ensures |t| == |s|
  {
    seq(|s|, k requires 0 <= k < |s| => TitleChar(s, k))
  }

  /** The field name a captured token stands for: `token.replace('_', ' ').title()`. */
  function KeyOf(token: string): (key: string)
    ensures |key| == |token|
  {
    Title(Spaced(token))
  }

  predicate IsTokenChar(c: char) { IsUpper(c) || c == '_' }

  /** A string `[A-Z_]+` matches. */
  predicate IsToken(t: string) {
    |t| > 0 && forall k :: 0 <= k < |t| ==> IsTokenChar(t[k])
  }

  /** The name read back from a token holds only letters and spaces; a letter after a space is a capital. */
  lemma KeyOfShape(token: string, k: nat)
    requires IsToken(token) && k < |token|
    ensures var key := KeyOf(token);
      && (IsLetter(key[k]) || key[k] == ' ')
      && (k > 0 && key[k - 1] == ' ' && IsLetter(key[k]) ==> IsUpper(key[k]))
  {
    var s := Spaced(token);
    assert KeyOf(token)[k] == TitleChar(s, k);
  }

  /** A name with a character other than a letter or a space is never read back from a token. */
  lemma NotReadBack(token: string, name: string, k: nat)
    requires IsToken(token) && k < |name| && !IsLetter(name[k]) && name[k] != ' '
    ensures KeyOf(token) != name
  {
    if |KeyOf(token)| == |name| {
      KeyOfShape(token, k);
    }
  }

  /** Nor is a name with a small letter right after a space. */
  lemma NotReadBackLower(token: string, name: string, k: nat)
    requires IsToken(token) && 0 < k < |name| && name[k - 1] == ' ' && IsLower(name[k])
    ensures KeyOf(token) != name
  {
    if |KeyOf(token)| == |name| {
      KeyOfShape(token, k);
    }
  }

  /**
   * Of the five names only `Estimated Time` can be read back from a token:
   * `Topics to Cover` has a small letter after a space, and the other three
   * hold `/` or `-`.
   */
  lemma OnlyEstimatedKey(token: string)
    requires IsToken(token)
    ensures KeyOf(token) in FieldNames ==> KeyOf(token) == EstimatedTime
  {
    NotReadBackLower(token, TopicsToCover, 7);
    NotReadBack(token, KeyTools, 9);
    NotReadBack(token, MiniProjects, 4);
    NotReadBack(token, Resources, 9);
  }

  /** A name with a `/` or a `-` gets a placeholder token that `[A-Z_]+` cannot match. */
  lemma NotTokenAt(key: string, k: nat)
    requires k < |key| && (key[k] == '/' || key[k] == '-')
    ensures !IsToken(Token(key))
  {
    assert Token(key)[k] == key[k];
  }

  /** The placeholders of the last three names hold a `/` or a `-`. */
  lemma SlashedLost()
    ensures !IsToken(Token(KeyTools)) && !IsToken(Token(MiniProjects)) && !IsToken(Token(Resources))
  {
    NotTokenAt(KeyTools, 9);
    NotTokenAt(MiniProjects, 4);
    NotTokenAt(Resources, 9);
  }

  lemma EstimatedToken()
    ensures Token(EstimatedTime) == "ESTIMATED_TIME"
  {
  }

  lemma EstimatedSpaced()
    ensures Spaced("ESTIMATED_TIME") == "ESTIMATED TIME"
  {
  }

  lemma EstimatedTitle()
    ensures Title("ESTIMATED TIME") == EstimatedTime
  {
  }

  lemma EstimatedIsToken()
    ensures IsToken("ESTIMATED_TIME")
  {
  }

  /** `Estimated Time` survives the trip to its placeholder and back. */
  lemma EstimatedRoundTrip()
    ensures Placeholder(EstimatedTime) == "---SPLIT_ESTIMATED_TIME---"
    ensures IsToken(Token(EstimatedTime)) && KeyOf(Token(EstimatedTime)) == EstimatedTime
  {
    EstimatedToken();
    EstimatedPlaceholderText("ESTIMATED_TIME");
    EstimatedSpaced();
    EstimatedTitle();
    EstimatedIsToken();
  }

  lemma EstimatedPlaceholderText(token: string)
    requires Token(EstimatedTime) == token && token == "ESTIMATED_TIME"
    ensures Placeholder(EstimatedTime) == "---SPLIT_ESTIMATED_TIME---"
  {
    assert Placeholder(EstimatedTime) == SplitOpen + token + SplitClose;
  }

  lemma TopicsToken()
    ensures Token(TopicsToCover) == "TOPICS_TO_COVER"
  {
  }

  lemma TopicsSpaced()
    ensures Spaced("TOPICS_TO_COVER") == "TOPICS TO COVER"
  {
  }

  lemma TopicsTitle()
    ensures Title("TOPICS TO COVER") == "Topics To Cover"
  {
  }

  /** `Topics to Cover` does not: its token reads back as `Topics To Cover`, which is no field. */
  lemma TopicsLost()
    ensures IsToken(Token(TopicsToCover)) && KeyOf(Token(TopicsToCover)) == "Topics To Cover"
    ensures KeyOf(Token(TopicsToCover)) !in FieldNames
  {
    TopicsToken();
    TopicsSpaced();
    TopicsTitle();
  }

  // ---------------------------------------------------------------------------
  // `re.split(r'---SPLIT_([A-Z_]+)---', text)`

  /** The end of the run of `[A-Z_]` characters that starts at `i`. */
  function TokenEnd(s: string, i: nat): (j: nat)
    requires i <= |s|
    ensures i <= j <= |s| && (j == |s| || !IsTokenChar(s[j]))
    decreases |s| - i
  {
    if i < |s| && IsTokenChar(s[i]) then TokenEnd(s, i + 1) else i
  }

  lemma {:induction false} TokenEndChars(s: string, i: nat, k: nat)
    requires i <= |s| && i <= k < TokenEnd(s, i)
    ensures IsTokenChar(s[k])
    decreases |s| - i
  {
    if i < k {
      TokenEndChars(s, i + 1, k);
    }
  }

  /** `---SPLIT_` at `i`, character by character. */
  predicate OpenAt(s: string, i: nat) {
    i + 9 <= |s| && s[i] == '-' && s[i + 1] == '-' && s[i + 2] == '-'
    && s[i + 3] == 'S' && s[i + 4] == 'P' && s[i + 5] == 'L' && s[i + 6] == 'I' && s[i + 7] == 'T' && s[i + 8] == '_'
  }

  /** `---` at `i`. */
  predicate CloseAt(s: string, i: nat) {
    i + 3 <= |s| && s[i] == '-' && s[i + 1] == '-' && s[i + 2] == '-'
  }

  /**
   * The pattern matches at `i`. The greedy `[A-Z_]+` takes the whole run; a
   * shorter run is followed by another `[A-Z_]` character, never by `-`, so
   * backtracking cannot help and the closing `---` must follow the whole run.
   */
  predicate MatchAt(s: string, i: nat) {
    OpenAt(s, i) && TokenEnd(s, i + 9) > i + 9 && CloseAt(s, TokenEnd(s, i + 9))
  }

  /** The leftmost match at or after `i`. */
  function NextMatch(s: string, i: nat): (r: Option<nat>)
    requires i <= |s|
    ensures r.Some? ==> i <= r.value <= |s| && MatchAt(s, r.value)
    decreases |s| - i
  {
    if MatchAt(s, i) then Some(i)
    else if i == |s| then None
    else NextMatch(s, i + 1)
  }

  /** No match lies before the leftmost one, and none at all when there is none. */
  lemma {:induction false} NextMatchFirst(s: string, i: nat, p: nat)
    requires i <= p <= |s| && MatchAt(s, p)
    ensures NextMatch(s, i).Some? && NextMatch(s, i).value <= p
    decreases |s| - i
  {
    if !MatchAt(s, i) && i < |s| {
      NextMatchFirst(s, i + 1, p);
    }
  }

  /** No match from `i` on: the search finds nothing. */
  lemma {:induction false} NextMatchNone(s: string, i: nat)
    requires i <= |s| && forall p :: i <= p <= |s| ==> !MatchAt(s, p)
    ensures NextMatch(s, i) == None
    decreases |s| - i
  {
    if i < |s| {
      NextMatchNone(s, i + 1);
    }
  }

  /** A match of the pattern: `---SPLIT_` at `at`, the captured token up to `end`, `---` at `end`. */
  datatype Cut = Cut(at: nat, end: nat)

  /** The matches `re.split` uses, searching from `a`: the leftmost one, then the leftmost after it, and so on. */
  function CutsFrom(s: string, a: nat): (cuts: seq<Cut>)
    requires a <= |s|
    decreases |s| - a
  {
    match NextMatch(s, a)
    case None => []
    case Some(j) =>
      var e := TokenEnd(s, j + 9);
      [Cut(j, e)] + CutsFrom(s, e + 3)
  }

  /** Where text part m starts: at `a`, or right after the closing `---` of match m - 1. */
  function TextStart(cuts: seq<Cut>, a: nat, m: nat): nat
    requires m <= |cuts|
  {
    if m == 0 then a else cuts[m - 1].end + 3
  }

  /** Where text part m ends: at match m, or at the end of the text. */
  function TextEnd(s: string, cuts: seq<Cut>, m: nat): nat
    requires m <= |cuts|
  {
    if m < |cuts| then cuts[m].at else |s|
  }

  /** Match m is the leftmost match from where text part m starts; its token runs to the end of the run of `[A-Z_]`. */
  lemma {:induction false} CutAt(s: string, a: nat, m: nat) returns (b: nat)
    requires a <= |s| && m < |CutsFrom(s, a)|
    ensures b == TextStart(CutsFrom(s, a), a, m) && a <= b <= |s|
    ensures NextMatch(s, b) == Some(CutsFrom(s, a)[m].at)
    ensures CutsFrom(s, a)[m].end == TokenEnd(s, CutsFrom(s, a)[m].at + 9)
    decreases |s| - a
  {
    var cuts := CutsFrom(s, a);
    var j := NextMatch(s, a).value;
    var e := TokenEnd(s, j + 9);
    var rest := CutsFrom(s, e + 3);
    assert cuts == [Cut(j, e)] + rest;
    if m == 0 {
      b := a;
      assert cuts[0] == Cut(j, e);
    } else {
      b := CutAt(s, e + 3, m - 1);
      CutsShift(cuts, Cut(j, e), rest, a, m);
    }
  }

  /** After the last match the search finds nothing. */
  lemma {:induction false} CutsLast(s: string, a: nat) returns (b: nat)
    requires a <= |s|
    ensures b == TextStart(CutsFrom(s, a), a, |CutsFrom(s, a)|) && a <= b <= |s|
    ensures NextMatch(s, b) == None
    decreases |s| - a
  {
    var cuts := CutsFrom(s, a);
    match NextMatch(s, a)
    case None =>
      b := a;
      assert |cuts| == 0;
    case Some(j) =>
      var e := TokenEnd(s, j + 9);
      var rest := CutsFrom(s, e + 3);
      assert cuts == [Cut(j, e)] + rest;
      b := CutsLast(s, e + 3);
      CutsShift(cuts, Cut(j, e), rest, a, |cuts|);
  }

  /** After the first cut, text part m is text part m - 1 of the rest, and so is cut m. */
  lemma CutsShift(cuts: seq<Cut>, x: Cut, rest: seq<Cut>, a: nat, m: nat)
    requires cuts == [x] + rest && 0 < m <= |cuts|
    ensures |cuts| == |rest| + 1 && TextStart(cuts, a, m) == TextStart(rest, x.end + 3, m - 1)
    ensures m < |cuts| ==> cuts[m] == rest[m - 1]
  {
  }

  /** Text part m lies inside the text; match m is `---SPLIT_`, a non-empty token and `---`. */
  lemma CutBounds(s: string, a: nat, m: nat)
    requires a <= |s| && m <= |CutsFrom(s, a)|
    ensures var cuts := CutsFrom(s, a);
      && a <= TextStart(cuts, a, m) <= TextEnd(s, cuts, m) <= |s|
      && (m < |cuts| ==>
            MatchAt(s, cuts[m].at) && cuts[m].at + 9 < cuts[m].end
            && cuts[m].end == TokenEnd(s, cuts[m].at + 9) && cuts[m].end + 3 <= |s|)
  {
    var b;
    if m < |CutsFrom(s, a)| {
      b := CutAt(s, a, m);
    } else {
      b := CutsLast(s, a);
    }
  }

  /** The cuts fit the text: every text part and every token lies inside it, left to right. */
  predicate CutsFit(s: string, cuts: seq<Cut>, a: nat) {
    && (forall m :: 0 <= m <= |cuts| ==> TextStart(cuts, a, m) <= TextEnd(s, cuts, m) <= |s|)
    && (forall m :: 0 <= m < |cuts| ==> cuts[m].at + 9 <= cuts[m].end <= |s|)
  }

  lemma CutsFromFit(s: string)
    ensures CutsFit(s, CutsFrom(s, 0), 0)
  {
    var cuts := CutsFrom(s, 0);
    forall m | 0 <= m <= |cuts| ensures TextStart(cuts, 0, m) <= TextEnd(s, cuts, m) <= |s| {
      CutBounds(s, 0, m);
    }
    forall m | 0 <= m < |cuts| ensures cuts[m].at + 9 <= cuts[m].end <= |s| {
      CutBounds(s, 0, m);
    }
  }

  /** Text part m, then the token of match m. */
  function PartOf(s: string, cuts: seq<Cut>, k: nat): string
    requires CutsFit(s, cuts, 0) && k < 2 * |cuts| + 1
  {
    if k % 2 == 0 then s[TextStart(cuts, 0, k / 2)..TextEnd(s, cuts, k / 2)]
    else s[cuts[k / 2].at + 9..cuts[k / 2].end]
  }

  /** `re.split(r'---SPLIT_([A-Z_]+)---', s)`: text, token, text, ..., text. */
  function SplitTokens(s: string): (parts: seq<string>)
  {
    var cuts := CutsFrom(s, 0);
    CutsFromFit(s);
    seq(2 * |cuts| + 1, k requires 0 <= k < 2 * |cuts| + 1 => PartOf(s, cuts, k))
  }

  /** Part k of the split, by the cuts. */
  lemma SplitTokensAt(s: string, k: nat)
    requires k < 2 * |CutsFrom(s, 0)| + 1
    ensures CutsFit(s, CutsFrom(s, 0), 0) && |SplitTokens(s)| == 2 * |CutsFrom(s, 0)| + 1
    ensures SplitTokens(s)[k] == PartOf(s, CutsFrom(s, 0), k)
  {
    CutsFromFit(s);
  }

  lemma PartOfEven(s: string, cuts: seq<Cut>, m: nat)
    requires CutsFit(s, cuts, 0) && m <= |cuts|
    ensures TextStart(cuts, 0, m) <= TextEnd(s, cuts, m) <= |s|
    ensures PartOf(s, cuts, 2 * m) == s[TextStart(cuts, 0, m)..TextEnd(s, cuts, m)]
  {
    assert (2 * m) % 2 == 0 && (2 * m) / 2 == m;
  }

  lemma PartOfOdd(s: string, cuts: seq<Cut>, m: nat)
    requires CutsFit(s, cuts, 0) && m < |cuts|
    ensures cuts[m].at + 9 <= cuts[m].end <= |s|
    ensures PartOf(s, cuts, 2 * m + 1) == s[cuts[m].at + 9..cuts[m].end]
  {
    assert (2 * m + 1) % 2 == 1 && (2 * m + 1) / 2 == m;
  }

  /** Part 2m is text part m, from where the search started or the last `---` up to the next match or the end. */
  lemma TextPartAt(s: string, m: nat) returns (b: nat, c: nat)
    requires m <= |CutsFrom(s, 0)|
    ensures var cuts := CutsFrom(s, 0);
      && 2 * m < |SplitTokens(s)| && b == TextStart(cuts, 0, m) && c == TextEnd(s, cuts, m)
      && b <= c <= |s| && SplitTokens(s)[2 * m] == s[b..c]
  {
    var cuts := CutsFrom(s, 0);
    SplitTokensAt(s, 2 * m);
    PartOfEven(s, cuts, m);
    b, c := TextStart(cuts, 0, m), TextEnd(s, cuts, m);
  }

  /** Part 2m + 1 is the token captured by match m. */
  lemma TokenPartAt(s: string, m: nat) returns (o: nat, e: nat)
    requires m < |CutsFrom(s, 0)|
    ensures var cuts := CutsFrom(s, 0);
      && 2 * m + 1 < |SplitTokens(s)| && o == cuts[m].at + 9 && e == cuts[m].end
      && o <= e <= |s| && SplitTokens(s)[2 * m + 1] == s[o..e]
  {
    var cuts := CutsFrom(s, 0);
    SplitTokensAt(s, 2 * m + 1);
    PartOfOdd(s, cuts, m);
    o, e := cuts[m].at + 9, cuts[m].end;
  }

  predicate NoMatch(t: string) {
    forall p: nat :: p <= |t| ==> !MatchAt(t, p)
  }

  /** A run of token characters inside a slice that stops before the end of the slice is the run in the whole text. */
  lemma {:induction false} TokenEndSlice(s: string, a: nat, b: nat, q: nat)
    requires a <= b <= |s| && q <= b - a && TokenEnd(s[a..b], q) < b - a
    ensures TokenEnd(s, a + q) == a + TokenEnd(s[a..b], q)
    decreases b - a - q
  {
    if q < b - a && IsTokenChar(s[a + q]) {
      TokenEndSlice(s, a, b, q + 1);
    }
  }

  /** A match inside a slice is a match in the whole text. */
  lemma MatchInSlice(s: string, a: nat, b: nat, p: nat)
    requires a <= b <= |s| && MatchAt(s[a..b], p)
    ensures MatchAt(s, a + p)
  {
    var t := s[a..b];
    var o := p + 9;
    var e := TokenEnd(t, o);
    TokenEndSlice(s, a, b, o);

  }

  /** The text from `a` up to the leftmost match holds no match. */
  lemma TextNoMatch(s: string, a: nat, b: nat)
    requires a <= b <= |s| && forall p :: a <= p < b ==> !MatchAt(s, p)
    ensures NoMatch(s[a..b])
  {
    forall p: nat | p <= b - a && MatchAt(s[a..b], p) ensures false {
      MatchInSlice(s, a, b, p);
    }
  }

  /** Before the leftmost match from `a` there is none. */
  lemma NoMatchBefore(s: string, a: nat, b: nat)
    requires a <= b <= |s| && (NextMatch(s, a) == Some(b) || (NextMatch(s, a) == None && b == |s|))
    ensures forall p :: a <= p < b ==> !MatchAt(s, p)
  {
    forall p | a <= p < b && MatchAt(s, p) ensures false {
      NextMatchFirst(s, a, p);
    }
  }

  /** The whole run of token characters is a token. */
  lemma RunIsToken(s: string, o: nat)
    requires o <= |s| && o < TokenEnd(s, o)
    ensures IsToken(s[o..TokenEnd(s, o)])
  {
    var token := s[o..TokenEnd(s, o)];
    forall i | 0 <= i < |token| ensures IsTokenChar(token[i]) {
      TokenEndChars(s, o, o + i);
    }
  }

  /** The split has an odd number of parts: one more text part than there are tokens. */
  lemma PartsOdd(s: string) returns (n: nat)
    ensures |SplitTokens(s)| == 2 * n + 1 && n == |CutsFrom(s, 0)|
  {
    n := |CutsFrom(s, 0)|;
  }

  /** Every odd part is a captured token, `[A-Z_]+`. */
  lemma TokenPart(s: string, m: nat)
    requires 2 * m + 1 < |SplitTokens(s)|
    ensures IsToken(SplitTokens(s)[2 * m + 1])
  {
    var o, e := TokenPartAt(s, m);
    CutBounds(s, 0, m);
    RunIsToken(s, o);
  }

  /** Text part m starts at 0 or right after the closing `---` of match m - 1. */
  lemma TextStartAfterClose(s: string, m: nat)
    requires m <= |CutsFrom(s, 0)|
    ensures var b := TextStart(CutsFrom(s, 0), 0, m);
      && (m == 0 ==> b == 0) && (m > 0 ==> 3 <= b && CloseAt(s, b - 3))
  {
    if m > 0 {
      CutBounds(s, 0, m - 1);
    }
  }

  /** Text part m ends at the end of the text after the last match, otherwise at match m. */
  lemma TextEndAtMatch(s: string, m: nat)
    requires m <= |CutsFrom(s, 0)|
    ensures var cuts := CutsFrom(s, 0); var c := TextEnd(s, cuts, m);
      && (c < |s| <==> m < |cuts|)
      && (m < |cuts| ==> MatchAt(s, c) && cuts[m].end == TokenEnd(s, c + 9))
  {
    CutBounds(s, 0, m);
  }

  /** No match starts inside text part m. */
  lemma TextSpan(s: string, m: nat) returns (b: nat, c: nat)
    requires m <= |CutsFrom(s, 0)|
    ensures b == TextStart(CutsFrom(s, 0), 0, m) && c == TextEnd(s, CutsFrom(s, 0), m) && b <= c <= |s|
    ensures forall j :: b <= j < c ==> !MatchAt(s, j)
  {
    var cuts := CutsFrom(s, 0);
    b, c := TextStart(cuts, 0, m), TextEnd(s, cuts, m);
    var b';
    if m < |cuts| {
      b' := CutAt(s, 0, m);
    } else {
      b' := CutsLast(s, 0);
    }
    CutBounds(s, 0, m);
    NoMatchBefore(s, b, c);
  }

  /**
   * Text part m is the stretch of `s` from `b` to `c`: it starts at 0 or right
   * after a closing `---`, no match of the pattern starts inside it, and it
   * ends at the end of the text or at the next match, whose token is the next
   * part. So the matches `re.split` cuts at are the leftmost ones.
   */
  lemma TextPart(s: string, m: nat) returns (b: nat, c: nat)
    requires 2 * m < |SplitTokens(s)|
    ensures b <= c <= |s| && SplitTokens(s)[2 * m] == s[b..c] && NoMatch(s[b..c])
    ensures m == 0 ==> b == 0
    ensures m > 0 ==> 3 <= b && CloseAt(s, b - 3)
    ensures forall j :: b <= j < c ==> !MatchAt(s, j)
    ensures c < |s| <==> 2 * m + 1 < |SplitTokens(s)|
    ensures c < |s| ==> MatchAt(s, c) && SplitTokens(s)[2 * m + 1] == s[c + 9..TokenEnd(s, c + 9)]
  {
    b, c := TextPartHead(s, m);
    TextStartAfterClose(s, m);
    TextPartTail(s, m, b, c);
  }

  /** The span of text part m, and what lies inside it. */
  lemma TextPartHead(s: string, m: nat) returns (b: nat, c: nat)
    requires 2 * m < |SplitTokens(s)|
    ensures m <= |CutsFrom(s, 0)| && b == TextStart(CutsFrom(s, 0), 0, m) && c == TextEnd(s, CutsFrom(s, 0), m)
    ensures b <= c <= |s| && SplitTokens(s)[2 * m] == s[b..c] && NoMatch(s[b..c])
    ensures forall j :: b <= j < c ==> !MatchAt(s, j)
  {
    var n := PartsOdd(s);
    b, c := TextSpan(s, m);
    var b2, c2 := TextPartAt(s, m);
    TextNoMatch(s, b, c);
  }

  /** What follows text part m: the end of the text, or a match whose token is the next part. */
  lemma TextPartTail(s: string, m: nat, b: nat, c: nat)
    requires m <= |CutsFrom(s, 0)| && b == TextStart(CutsFrom(s, 0), 0, m) && c == TextEnd(s, CutsFrom(s, 0), m)
    ensures c < |s| <==> 2 * m + 1 < |SplitTokens(s)|
    ensures c < |s| ==> MatchAt(s, c) && SplitTokens(s)[2 * m + 1] == s[c + 9..TokenEnd(s, c + 9)]
  {
    var n := PartsOdd(s);
    TextEndAtMatch(s, m);
    if m < n {
      var o, e := TokenPartAt(s, m);
      assert o == c + 9 && e == TokenEnd(s, c + 9);
    }
  }

  /** A text without a match is not split. */
  lemma SplitNoMatch(s: string)
    requires NoMatch(s)
    ensures SplitTokens(s) == [s]
  {
    NextMatchNone(s, 0);
    var b, c := TextPartAt(s, 0);
    assert s[0..|s|] == s;
  }

  // ---------------------------------------------------------------------------
  // The split loses nothing

  /** Putting the placeholders back between the parts from `i` on. */
  function RejoinFrom(parts: seq<string>, i: nat): string
    requires i < |parts|
    decreases |parts| - i
  {
    if i + 2 < |parts| then parts[i] + SplitOpen + parts[i + 1] + SplitClose + RejoinFrom(parts, i + 2)
    else if i + 1 < |parts| then parts[i] + SplitOpen + parts[i + 1] + SplitClose
    else parts[i]
  }

  function Rejoin(parts: seq<string>): string
    requires |parts| >= 1
  {
    RejoinFrom(parts, 0)
  }

  lemma FiveSlices(s: string, a: nat, b: nat, c: nat, d: nat, e: nat)
    requires a <= b <= c <= d <= e <= |s|
    ensures s[a..b] + s[b..c] + s[c..d] + s[d..e] + s[e..] == s[a..]
  {
    assert s[a..b] + s[b..c] == s[a..c];
    assert s[a..c] + s[c..d] == s[a..d];
    assert s[a..d] + s[d..e] == s[a..e];
    assert s[a..e] + s[e..] == s[a..];
  }

  lemma RejoinUnfold(parts: seq<string>, i: nat, i': nat)
    requires i' == i + 2 && i' < |parts|
    ensures RejoinFrom(parts, i) == parts[i] + SplitOpen + parts[i + 1] + SplitClose + RejoinFrom(parts, i')
  {
  }

  /** The text from `b` is the text before a match, `---SPLIT_`, the token, `---` and the text after it. */
  lemma JoinSlices(s: string, b: nat, j: nat, e: nat, c: nat)
    requires b <= j && j + 9 <= e && c == e + 3 && c <= |s| && OpenAt(s, j) && CloseAt(s, e)
    ensures s[b..j] + SplitOpen + s[j + 9..e] + SplitClose + s[c..] == s[b..]
  {
    assert s[j..j + 9] == SplitOpen;
    assert s[e..e + 3] == SplitClose;
    FiveSlices(s, b, j, j + 9, e, e + 3);
  }

  /** A text part, a placeholder and the rejoined rest give back the text from where the text part starts. */
  lemma RejoinStep(s: string, parts: seq<string>, i: nat, b: nat, j: nat, e: nat, i': nat, c: nat)
    requires i' == i + 2 && i' < |parts| && c == e + 3
    requires b <= j && j + 9 <= e && c <= |s| && OpenAt(s, j) && CloseAt(s, e)
    requires parts[i] == s[b..j] && parts[i + 1] == s[j + 9..e] && RejoinFrom(parts, i') == s[c..]
    ensures RejoinFrom(parts, i) == s[b..]
  {
    RejoinUnfold(parts, i, i');
    JoinSlices(s, b, j, e, c);
  }

  /** Around match m: text part m from `b` to `j`, `---SPLIT_` at `j`, the token up to `e`, `---` at `e`, and the next text part from `c`. */
  lemma PartsAroundCut(s: string, m: nat) returns (b: nat, j: nat, e: nat, c: nat)
    requires m < |CutsFrom(s, 0)|
    ensures b == TextStart(CutsFrom(s, 0), 0, m) && c == TextStart(CutsFrom(s, 0), 0, m + 1) && c == e + 3
    ensures b <= j && j + 9 <= e && c <= |s| && OpenAt(s, j) && CloseAt(s, e)
    ensures 2 * (m + 1) < |SplitTokens(s)|
    ensures SplitTokens(s)[2 * m] == s[b..j] && SplitTokens(s)[2 * m + 1] == s[j + 9..e]
  {
    var c0;
    b, c0 := TextPartAt(s, m);
    CutBounds(s, 0, m);
    var o;
    o, e := TokenPartAt(s, m);
    j, c := CutsFrom(s, 0)[m].at, e + 3;
  }

  /** One step of the rebuild: text part m, match m, then the text from where text part m + 1 starts. */
  lemma RejoinAtCut(s: string, m: nat, b': nat)
    requires m < |CutsFrom(s, 0)| && b' == TextStart(CutsFrom(s, 0), 0, m + 1) && b' <= |s|
    requires 2 * (m + 1) < |SplitTokens(s)| && RejoinFrom(SplitTokens(s), 2 * (m + 1)) == s[b'..]
    ensures TextStart(CutsFrom(s, 0), 0, m) <= |s|
    ensures RejoinFrom(SplitTokens(s), 2 * m) == s[TextStart(CutsFrom(s, 0), 0, m)..]
  {
    var b, j, e, c := PartsAroundCut(s, m);
    RejoinStep(s, SplitTokens(s), 2 * m, b, j, e, 2 * (m + 1), c);
  }

  /** Rejoining from part 2m gives back the text from where text part m starts. */
  lemma {:induction false} RejoinFromText(s: string, m: nat) returns (b: nat)
    requires m <= |CutsFrom(s, 0)|
    ensures b == TextStart(CutsFrom(s, 0), 0, m) && b <= |s|
    ensures 2 * m < |SplitTokens(s)| && RejoinFrom(SplitTokens(s), 2 * m) == s[b..]
    decreases |CutsFrom(s, 0)| - m
  {
    var c;
    b, c := TextPartAt(s, m);
    if m == |CutsFrom(s, 0)| {
      assert s[b..c] == s[b..];
    } else {
      var b' := RejoinFromText(s, m + 1);
      RejoinAtCut(s, m, b');
    }
  }

  /** Putting `---SPLIT_` and `---` around every token and joining the parts rebuilds the text. */
  lemma SplitTokensRejoin(s: string)
    ensures Rejoin(SplitTokens(s)) == s
  {
    var b := RejoinFromText(s, 0);
    assert s[0..] == s;
  }

  // ---------------------------------------------------------------------------
  // The extractor (app.py:335-373)

  /** The text after the first n label rewrites: each `**<name>:**` becomes `---SPLIT_<NAME>---`. */
  function Rewritten(content: string, n: nat): (r: string)
    requires n <= |FieldNames|
  {
    if n == 0 then content
    else ReplaceAll(Rewritten(content, n - 1), Marker(FieldNames[n - 1]), Placeholder(FieldNames[n - 1]))
  }

  /** A content without any bold label is not rewritten. */
  lemma {:induction false} RewrittenWithoutLabels(content: string, n: nat)
    requires n <= |FieldNames| && forall k :: 0 <= k < |FieldNames| ==> !Contains(content, Marker(FieldNames[k]))
    ensures Rewritten(content, n) == content
  {
    if n > 0 {
      RewrittenWithoutLabels(content, n - 1);
    }
  }

  /** The last token among the first n parts that reads back as `key`: an odd index, with no later one. */
  function LastKeyed(parts: seq<string>, key: string, n: nat): (r: Option<nat>)
    requires n <= |parts|
    ensures r.Some? ==> r.value < n && r.value % 2 == 1 && KeyOf(parts[r.value]) == key
    ensures forall i :: (if r.Some? then r.value + 1 else 0) <= i < n && i % 2 == 1 ==> KeyOf(parts[i]) != key
  {
    if n == 0 then None
    else if (n - 1) % 2 == 1 && KeyOf(parts[n - 1]) == key then Some(n - 1)
    else LastKeyed(parts, key, n - 1)
  }

  /**
   * What the walk over the first n parts leaves in field `key`: the trimmed
   * text part right after the last token naming it, once that text part has
   * been walked over; "" before that.
   */
  function ValueAfter(parts: seq<string>, key: string, n: nat): (v: string)
    requires n <= |parts|
  {
    if n == 0 then ""
    else match LastKeyed(parts, key, n - 1)
      case None => ""
      case Some(i) => Strip(parts[i + 1])
  }

  /** The dictionary after walking over the first n parts. */
  function FieldsAfter(parts: seq<string>, n: nat): (fields: map<string, string>)
    requires n <= |parts|
  {
    map key | key in FieldNames :: ValueAfter(parts, key, n)
  }

  /** The field the cursor names after walking over the first n parts: set by a token naming a field, cleared otherwise. */
  function Cursor(parts: seq<string>, n: nat): (cur: Option<string>)
    requires n <= |parts|
  {
    if n > 0 && (n - 1) % 2 == 1 && KeyOf(parts[n - 1]) in FieldNames then Some(KeyOf(parts[n - 1])) else None
  }

  /** The five fields, all empty. */
  function EmptyFields(): (fields: map<string, string>)
  {
    map[TopicsToCover := "", EstimatedTime := "", KeyTools := "", MiniProjects := "", Resources := ""]
  }

  lemma FieldsAtStart(parts: seq<string>)
    ensures FieldsAfter(parts, 0) == EmptyFields()
  {
  }

  /** Two dictionaries of the walk agree when every field agrees. */
  lemma FieldsSame(parts: seq<string>, n: nat, n': nat)
    requires n <= |parts| && n' <= |parts|
    requires forall key :: key in FieldNames ==> ValueAfter(parts, key, n) == ValueAfter(parts, key, n')
    ensures FieldsAfter(parts, n) == FieldsAfter(parts, n')
  {
  }

  /** A step over a part that does not complete an assignment of `key` leaves `key` as it is. */
  lemma ValueKept(parts: seq<string>, n: nat, key: string)
    requires n < |parts| && (n % 2 == 1 || n == 0 || KeyOf(parts[n - 1]) != key)
    ensures ValueAfter(parts, key, n + 1) == ValueAfter(parts, key, n)
  {
    if n > 0 {
      LastKeyedSkip(parts, key, n);
      ValueAfterSame(parts, key, n);
    }
  }

  /** When the last token naming `key` stays put, so does its value. */
  lemma ValueAfterSame(parts: seq<string>, key: string, n: nat)
    requires 0 < n < |parts| && LastKeyed(parts, key, n) == LastKeyed(parts, key, n - 1)
    ensures ValueAfter(parts, key, n + 1) == ValueAfter(parts, key, n)
  {
  }

  /** A part that is not a token naming `key` does not move the last one. */
  lemma LastKeyedSkip(parts: seq<string>, key: string, n: nat)
    requires 0 < n <= |parts| && ((n - 1) % 2 == 0 || KeyOf(parts[n - 1]) != key)
    ensures LastKeyed(parts, key, n) == LastKeyed(parts, key, n - 1)
  {
  }

  /** A step over the text part right after a token naming `key` sets `key`. */
  lemma ValueSet(parts: seq<string>, n: nat, key: string)
    requires n < |parts| && n % 2 == 0 && n > 0 && KeyOf(parts[n - 1]) == key
    ensures ValueAfter(parts, key, n + 1) == Strip(parts[n])
  {
    assert LastKeyed(parts, key, n) == Some(n - 1);
  }

  /** Walking over a token leaves the fields as they are. */
  lemma FieldsAfterToken(parts: seq<string>, n: nat)
    requires n < |parts| && n % 2 == 1
    ensures FieldsAfter(parts, n + 1) == FieldsAfter(parts, n)
  {
    forall key | key in FieldNames ensures ValueAfter(parts, key, n + 1) == ValueAfter(parts, key, n) {
      ValueKept(parts, n, key);
    }
    FieldsSame(parts, n + 1, n);
  }

  /** Walking over a text part that no field-naming token precedes leaves the fields as they are. */
  lemma FieldsAfterIdle(parts: seq<string>, n: nat)
    requires n < |parts| && n % 2 == 0 && Cursor(parts, n) == None
    ensures FieldsAfter(parts, n + 1) == FieldsAfter(parts, n)
  {
    forall key | key in FieldNames ensures ValueAfter(parts, key, n + 1) == ValueAfter(parts, key, n) {
      ValueKept(parts, n, key);
    }
    FieldsSame(parts, n + 1, n);
  }

  /** Walking over the text part after a token naming field `key` sets that field to the trimmed text part. */
  lemma FieldsAfterValue(parts: seq<string>, n: nat, key: string)
    requires n < |parts| && n % 2 == 0 && Cursor(parts, n) == Some(key)
    ensures key in FieldsAfter(parts, n)
    ensures FieldsAfter(parts, n + 1) == FieldsAfter(parts, n)[key := Strip(parts[n])]
  {
    var after := FieldsAfter(parts, n)[key := Strip(parts[n])];
    forall k | k in FieldNames ensures ValueAfter(parts, k, n + 1) == after[k] {
      if k == key {
        ValueSet(parts, n, key);
      } else {
        ValueKept(parts, n, k);
      }
    }
  }

  /**
   * `parse_roadmap_section_content` (app.py:325-373): start with five empty
   * fields, rewrite the labels into placeholders, split, and walk the parts
   * with a cursor; a token that reads back as a field name points the cursor
   * at that field, any other token clears it, and the text part after a
   * pointed cursor, trimmed, becomes the field.
   */
  method ParseSectionContent(content: string) returns (parsed: map<string, string>)
    ensures var parts := SplitTokens(Rewritten(content, |FieldNames|)); parsed == FieldsAfter(parts, |parts|)
  {
    parsed := EmptyFields();
    var temp := content;
    for k := 0 to |FieldNames|
      invariant temp == Rewritten(content, k)
    {
      var key := FieldNames[k];
      temp := ReplaceAll(temp, Marker(key), Placeholder(key));
    }
    var parts := SplitTokens(temp);
    FieldsAtStart(parts);
    var current: Option<string> := None;
    for i := 0 to |parts|
      invariant parsed == FieldsAfter(parts, i)
      invariant current == Cursor(parts, i)
    {
      if i % 2 == 1 {
        FieldsAfterToken(parts, i);
        var key := KeyOf(parts[i]);
        if key in parsed {
          current := Some(key);
        } else {
          current := None;
        }
      } else if current.Some? {
        FieldsAfterValue(parts, i, current.value);
        parsed := parsed[current.value := Strip(parts[i])];
        current := None;
      } else {
        FieldsAfterIdle(parts, i);
      }
    }
  }

  // ---------------------------------------------------------------------------
  // What the extractor returns

  /** The dictionary always holds exactly the five fields. */
  lemma FieldsKeys(parts: seq<string>, n: nat)
    requires n <= |parts|
    ensures FieldsAfter(parts, n).Keys == {TopicsToCover, EstimatedTime, KeyTools, MiniProjects, Resources}
  {
  }

  /** Every value is trimmed. */
  lemma FieldsTrimmed(parts: seq<string>, n: nat)
    requires n <= |parts|
    ensures forall key :: key in FieldsAfter(parts, n) ==> Stripped(FieldsAfter(parts, n)[key])
  {
    forall key | key in FieldNames ensures Stripped(ValueAfter(parts, key, n)) {
      if n > 0 && LastKeyed(parts, key, n - 1).Some? {
        StripEnds(parts[LastKeyed(parts, key, n - 1).value + 1]);
      }
    }
  }

  /**
   * A value that is set comes from the text part right after the last token
   * naming its field: never from the text before the first placeholder.
   */
  lemma ValueSource(parts: seq<string>, key: string, n: nat) returns (t: nat)
    requires n <= |parts| && ValueAfter(parts, key, n) != ""
    ensures 1 <= t && t + 1 < n && t % 2 == 1 && KeyOf(parts[t]) == key && ValueAfter(parts, key, n) == Strip(parts[t + 1])
    ensures forall j :: t < j < n - 1 && j % 2 == 1 ==> KeyOf(parts[j]) != key
  {
    assert n > 0;
    var r := LastKeyed(parts, key, n - 1);
    assert r.Some?;
    t := r.value;
  }

  /** A token is recovered from the name it reads back as: it is that name's placeholder token. */
  lemma TokenOfKey(token: string)
    requires IsToken(token)
    ensures Token(KeyOf(token)) == token
  {
    var key := KeyOf(token);
    forall k | 0 <= k < |token| ensures Token(key)[k] == token[k] {
      assert key[k] == TitleChar(Spaced(token), k);
    }
  }

  /** The only token that names a field is `ESTIMATED_TIME`. */
  lemma EstimatedTokenOnly(token: string)
    requires IsToken(token) && KeyOf(token) in FieldNames
    ensures token == "ESTIMATED_TIME" && KeyOf(token) == EstimatedTime
  {
    OnlyEstimatedKey(token);
    TokenOfKey(token);
    EstimatedToken();
  }

  /** In the split of any text, a token that reads back as a field name reads back as `Estimated Time`. */
  lemma SplitKeys(s: string, i: nat)
    requires i < |SplitTokens(s)| && i % 2 == 1
    ensures KeyOf(SplitTokens(s)[i]) in FieldNames ==> KeyOf(SplitTokens(s)[i]) == EstimatedTime
  {
    var m := i / 2;
    assert i == 2 * m + 1;
    TokenPart(s, m);
    OnlyEstimatedKey(SplitTokens(s)[i]);
  }

  /**
   * As written, only `Estimated Time` is ever filled: the walk over the split
   * of any text leaves the other four fields empty.
   */
  lemma OnlyEstimatedFilled(s: string, n: nat)
    requires n <= |SplitTokens(s)|
    ensures FieldsAfter(SplitTokens(s), n) == EmptyFields()[EstimatedTime := ValueAfter(SplitTokens(s), EstimatedTime, n)]
  {
    var parts := SplitTokens(s);
    var expected := EmptyFields()[EstimatedTime := ValueAfter(parts, EstimatedTime, n)];
    forall key | key in FieldNames ensures ValueAfter(parts, key, n) == expected[key] {
      if key != EstimatedTime && n > 0 {
        var r := LastKeyed(parts, key, n - 1);
        if r.Some? {
          SplitKeys(s, r.value);
        }
      }
    }
  }

  /** A content with no bold label and no placeholder-like text leaves all five fields empty. */
  lemma FieldsWithoutLabels(content: string)
    requires forall k :: 0 <= k < |FieldNames| ==> !Contains(content, Marker(FieldNames[k]))
    requires NoMatch(content)
    ensures var parts := SplitTokens(Rewritten(content, |FieldNames|)); FieldsAfter(parts, |parts|) == EmptyFields()
  {
    RewrittenWithoutLabels(content, |FieldNames|);
    SplitNoMatch(content);
  }

  // ---------------------------------------------------------------------------
  // The fields shown for a levelled section (app.py:428-437)

  /** The line shown for a field: `**<name>:** <value>`. */
  function FieldLine(name: string, value: string): string
  {
    "**" + name + ":** " + value
  }

  /** The line for field `name` when its value is non-empty, nothing otherwise. */
  function LineFor(parsed: map<string, string>, name: string): (lines: seq<string>)
    requires name in parsed
  {
    if parsed[name] != "" then [FieldLine(name, parsed[name])] else []
  }

  predicate HasFields(parsed: map<string, string>) {
    TopicsToCover in parsed && EstimatedTime in parsed && KeyTools in parsed && MiniProjects in parsed && Resources in parsed
  }

  /** The lines shown for a levelled section: one per non-empty field, in the fixed order of the five names. */
  function Shown(parsed: map<string, string>): (lines: seq<string>)
    requires HasFields(parsed)
  {
    LineFor(parsed, TopicsToCover) + LineFor(parsed, EstimatedTime) + LineFor(parsed, KeyTools)
    + LineFor(parsed, MiniProjects) + LineFor(parsed, Resources)
  }

  /** Every non-empty field is shown. */
  lemma ShownEvery(parsed: map<string, string>, name: string)
    requires HasFields(parsed) && name in FieldNames && parsed[name] != ""
    ensures FieldLine(name, parsed[name]) in Shown(parsed)
  {
    assert FieldLine(name, parsed[name]) in LineFor(parsed, name);
  }

  /** Every line shown is the line of a non-empty field. */
  lemma ShownOnly(parsed: map<string, string>, line: string) returns (name: string)
    requires HasFields(parsed) && line in Shown(parsed)
    ensures name in FieldNames && parsed[name] != "" && line == FieldLine(name, parsed[name])
  {
    if line in LineFor(parsed, TopicsToCover) {
      name := TopicsToCover;
    } else if line in LineFor(parsed, EstimatedTime) {
      name := EstimatedTime;
    } else if line in LineFor(parsed, KeyTools) {
      name := KeyTools;
    } else if line in LineFor(parsed, MiniProjects) {
      name := MiniProjects;
    } else {
      name := Resources;
    }
  }

  /** As written, a levelled section shows at most the `Estimated Time` line. */
  lemma ShownAsWritten(s: string)
    ensures var parts := SplitTokens(s); var v := ValueAfter(parts, EstimatedTime, |parts|);
      HasFields(FieldsAfter(parts, |parts|))
      && Shown(FieldsAfter(parts, |parts|)) == if v == "" then [] else [FieldLine(EstimatedTime, v)]
  {
    var parts := SplitTokens(s);
    OnlyEstimatedFilled(s, |parts|);
  }
}
