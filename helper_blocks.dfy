/**
 * The markdown helpers of src/lib/generateBlogHelpers.ts: the code-fence
 * step `handleCodeBlock` (with `startCodeBlock` and `endCodeBlock`),
 * `normalizeLanguage`, the inline tokenizer `parseInlineMarkdown` with
 * `parseBoldWithCode`, and the heading, bullet and paragraph builders that
 * `handleTextBlock` tries in turn.
 */
module HelperBlocks {
  import opened Text
  import opened Spans

  const DefaultLanguage: String := "javascript"

  /* ---------------------------------------------------------------------- */
  /* normalizeLanguage                                                       */
  /* ---------------------------------------------------------------------- */

  /** The alias table of `normalizeLanguage`. */
  const LanguageMap: map<String, String> := map[
    "js" := "javascript", "ts" := "typescript", "py" := "python",
    "sh" := "bash", "shell" := "bash", "yml" := "yaml",
    "gql" := "graphql", "md" := "markdown", "htm" := "html"]

  /** Lower-cased and trimmed; an alias is replaced by its language, and
      nothing at all becomes "javascript". */
  function NormalizeLanguage(lang: String): (r: String)
    ensures r != []
    ensures Trim(ToLower(lang)) in LanguageMap ==> r == LanguageMap[Trim(ToLower(lang))]
    ensures Trim(ToLower(lang)) !in LanguageMap ==>
              r == (if Trim(ToLower(lang)) == [] then DefaultLanguage else Trim(ToLower(lang)))
  {
    var langLower := Trim(ToLower(lang));
    if langLower in LanguageMap then LanguageMap[langLower]
    else if langLower != [] then langLower
    else DefaultLanguage
  }

  /** Every character is its own lower case. */
  predicate Lowered(s: String) {
    forall i :: 0 <= i < |s| ==> LowerChar(s[i]) == s[i]
  }

  lemma LoweredToLower(s: String)
    requires Lowered(s)
    ensures ToLower(s) == s
  {
  }

  /** What `trim` keeps of a lower-cased text is lower-cased. */
  lemma TrimLowered(s: String)
    ensures Lowered(Trim(ToLower(s)))
  {
    var t := ToLower(s);
    var k := LeadingSpaces(t);
    forall i | 0 <= i < |Trim(t)|
      ensures LowerChar(Trim(t)[i]) == Trim(t)[i]
    {
      assert Trim(t)[i] == t[k + i];
    }
  }

  /** A lower-case word: what the table maps to. */
  predicate LowerWord(v: String) {
    v != [] && forall i :: 0 <= i < |v| ==> 'a' <= v[i] <= 'z'
  }

  lemma LanguageNames()
    ensures forall k :: k in LanguageMap ==> LowerWord(LanguageMap[k])
    ensures LowerWord(DefaultLanguage)
  {
  }

  /** No language the table maps to is itself an alias. */
  lemma NamesAreNotAliases()
    ensures forall k :: k in LanguageMap ==> LanguageMap[k] !in LanguageMap
    ensures DefaultLanguage !in LanguageMap
  {
  }

  /** A lower-case word is its own lower case and its own trim. */
  lemma LowerWordFixed(v: String)
    requires LowerWord(v)
    ensures ToLower(v) == v && Trim(v) == v
  {
    assert !IsSpace(v[0]) && !IsSpace(v[|v| - 1]);
    TrimOfTrimmed(v);
  }

  /** Normalizing twice is normalizing once: every result is lower-case and
      trimmed, and no language the table maps to is itself an alias. */
  lemma NormalizeLanguageIdempotent(lang: String)
    ensures NormalizeLanguage(NormalizeLanguage(lang)) == NormalizeLanguage(lang)
  {
    var l := Trim(ToLower(lang));
    var r := NormalizeLanguage(lang);
    LanguageNames();
    NamesAreNotAliases();
    if l in LanguageMap || l == [] {
      LowerWordFixed(r);
    } else {
      TrimLowered(lang);
      LoweredToLower(l);
      TrimIdempotent(ToLower(lang));
    }
  }

  /* ---------------------------------------------------------------------- */
  /* handleCodeBlock                                                         */
  /* ---------------------------------------------------------------------- */

  /** `{ _type: 'codeBlock', _key: 'code-<line>', language, code }`. */
  datatype CodeBlock = CodeBlock(key: Key, language: String, code: String)

  /** What `handleCodeBlock` returns, `codeLines` given by its contents. */
  datatype CodeStep = CodeStep(handled: bool, inCodeBlock: bool, codeLanguage: String,
                               codeLines: seq<String>, nextLineIndex: nat, block: Option<CodeBlock>)

  /** `/^\w+$/`. */
  predicate IsWord(t: String) {
    t != [] && forall i :: 0 <= i < |t| ==> IsWordChar(t[i])
  }

  function StartCodeBlock(language: String, index: nat, offset: nat): CodeStep {
    CodeStep(true, true, language, [], index + offset, None)
  }

  function EndCodeBlock(language: String, codeLines: seq<String>, index: nat): CodeStep {
    CodeStep(true, false, [], [], index + 1,
             Some(CodeBlock(CodeKey(index), NormalizeLanguage(language), Join(codeLines, "\n"))))
  }

  /** The line's part in a fenced block, tried in the order of the source:
      an opening fence (outside a block), the alternative form of a
      language word followed by a fence line, a closing "```", a line
      inside a block; anything else is not handled. */
  function HandleCode(line: String, lines: seq<String>, lineIndex: nat, inCodeBlock: bool,
                      codeLanguage: String, codeLines: seq<String>): CodeStep
  {
    var trimmed := Trim(line);
    var startMatch := FenceWord(trimmed);
    if startMatch.Some? && !inCodeBlock then
      StartCodeBlock(if startMatch.value != [] then startMatch.value else DefaultLanguage, lineIndex, 1)
    else if !inCodeBlock && IsWord(trimmed) && lineIndex + 1 < |lines|
            && StartsWith(Trim(lines[lineIndex + 1]), Fence) then
      StartCodeBlock(trimmed, lineIndex + 1, 2)
    else if trimmed == Fence && inCodeBlock then
      EndCodeBlock(codeLanguage, codeLines, lineIndex)
    else if inCodeBlock then
      CodeStep(true, inCodeBlock, codeLanguage, codeLines + [line], lineIndex + 1, None)
    else
      CodeStep(false, inCodeBlock, codeLanguage, codeLines, lineIndex, None)
  }

  /** `handleCodeBlock`: the buffer passed in is appended to in place and
      returned when the line lies inside a block; the other handled cases
      return a new empty buffer. */
  method HandleCodeBlock(line: String, lines: seq<String>, lineIndex: nat, inCodeBlock: bool,
                         codeLanguage: String, codeLines: LineBuffer)
    returns (handled: bool, inCode: bool, language: String, resultLines: LineBuffer,
             nextLineIndex: nat, block: Option<CodeBlock>)
    modifies codeLines
    ensures CodeStep(handled, inCode, language, resultLines.lines, nextLineIndex, block)
            == HandleCode(line, lines, lineIndex, inCodeBlock, codeLanguage, old(codeLines.lines))
    ensures codeLines.lines == if inCodeBlock && Trim(line) != Fence then old(codeLines.lines) + [line]
                               else old(codeLines.lines)
    ensures resultLines == codeLines || fresh(resultLines)
    ensures (inCodeBlock && Trim(line) != Fence) || !handled ==> resultLines == codeLines
  {
    var trimmed := Trim(line);
    var startMatch := FenceWord(trimmed);
    if startMatch.Some? && !inCodeBlock {
      var step := StartCodeBlock(if startMatch.value != [] then startMatch.value else DefaultLanguage, lineIndex, 1);
      resultLines := new LineBuffer([]);
      handled, inCode, language, nextLineIndex, block := step.handled, step.inCodeBlock, step.codeLanguage, step.nextLineIndex, step.block;
    } else if !inCodeBlock && IsWord(trimmed) && lineIndex + 1 < |lines|
              && StartsWith(Trim(lines[lineIndex + 1]), Fence) {
      var step := StartCodeBlock(trimmed, lineIndex + 1, 2);
      resultLines := new LineBuffer([]);
      handled, inCode, language, nextLineIndex, block := step.handled, step.inCodeBlock, step.codeLanguage, step.nextLineIndex, step.block;
    } else if trimmed == Fence && inCodeBlock {
      var step := EndCodeBlock(codeLanguage, codeLines.lines, lineIndex);
      resultLines := new LineBuffer([]);
      handled, inCode, language, nextLineIndex, block := step.handled, step.inCodeBlock, step.codeLanguage, step.nextLineIndex, step.block;
    } else if inCodeBlock {
      codeLines.Push(line);
      handled, inCode, language, resultLines, nextLineIndex, block := true, inCodeBlock, codeLanguage, codeLines, lineIndex + 1, None;
    } else {
      handled, inCode, language, resultLines, nextLineIndex, block := false, inCodeBlock, codeLanguage, codeLines, lineIndex, None;
    }
  }

  /** An opening fence outside a block always starts one, whatever follows;
      with no word after the fence the language is "javascript". */
  lemma OpenFence(line: String, lines: seq<String>, i: nat, language: String, codeLines: seq<String>)
    requires StartsWith(Trim(line), Fence)
    ensures var r := HandleCode(line, lines, i, false, language, codeLines);
            r.handled && r.inCodeBlock && r.codeLines == [] && r.nextLineIndex == i + 1 && r.block.None?
            && (StartsWith(Trim(line), Fence + r.codeLanguage) || r.codeLanguage == DefaultLanguage)
            && (|Trim(line)| == 3 || !IsWordChar(Trim(line)[3]) ==> r.codeLanguage == DefaultLanguage)
  {
    var t := Trim(line);
    var w := FenceWord(t);
    if |t| > 3 && IsWordChar(t[3]) {
      assert w.value != [];
    }
  }

  /** The alternative form: a lone word whose next line opens a fence
      starts a block named by the word, and the step skips to three lines
      on, past the fence line and the line after it. */
  lemma AlternativeFence(line: String, lines: seq<String>, i: nat, language: String, codeLines: seq<String>)
    requires !StartsWith(Trim(line), Fence) && IsWord(Trim(line))
    requires i + 1 < |lines| && StartsWith(Trim(lines[i + 1]), Fence)
    ensures HandleCode(line, lines, i, false, language, codeLines)
            == CodeStep(true, true, Trim(line), [], i + 3, None)
  {
  }

  /** Inside a block every line but a bare "```" (after trimming) is kept
      verbatim, fence-like or not, and the state is otherwise unchanged. */
  lemma InsideBlock(line: String, lines: seq<String>, i: nat, language: String, codeLines: seq<String>)
    requires Trim(line) != Fence
    ensures HandleCode(line, lines, i, true, language, codeLines)
            == CodeStep(true, true, language, codeLines + [line], i + 1, None)
  {
  }

  /** The closing line emits the one code block, with the language
      normalized and the lines joined by newlines (which split back into
      the same lines), and resets the state. */
  lemma CloseFence(line: String, lines: seq<String>, i: nat, language: String, codeLines: seq<String>)
    requires Trim(line) == Fence
    ensures var r := HandleCode(line, lines, i, true, language, codeLines);
            r == CodeStep(true, false, [], [], i + 1,
                          Some(CodeBlock(CodeKey(i), NormalizeLanguage(language), Join(codeLines, "\n"))))
            && (codeLines != [] && (forall k :: 0 <= k < |codeLines| ==> '\n' !in codeLines[k]) ==>
                  Split(r.block.value.code, '\n') == codeLines)
  {
    if codeLines != [] && (forall k :: 0 <= k < |codeLines| ==> '\n' !in codeLines[k]) {
      SplitJoin(codeLines, '\n');
    }
  }

  /** Outside a block, a line that opens no fence in either form is left to
      the text handlers: not handled, the index and the state unchanged. */
  lemma NotCode(line: String, lines: seq<String>, i: nat, language: String, codeLines: seq<String>)
    requires !StartsWith(Trim(line), Fence)
    requires !(IsWord(Trim(line)) && i + 1 < |lines| && StartsWith(Trim(lines[i + 1]), Fence))
    ensures HandleCode(line, lines, i, false, language, codeLines)
            == CodeStep(false, false, language, codeLines, i, None)
  {
  }

  /** A handled line always moves the index forward, an unhandled one never
      does; only a closing line emits a block. */
  lemma HandleCodeProgress(line: String, lines: seq<String>, i: nat, inCode: bool, language: String, codeLines: seq<String>)
    ensures var r := HandleCode(line, lines, i, inCode, language, codeLines);
            (r.handled <==> r.nextLineIndex > i) && (!r.handled ==> r.nextLineIndex == i)
            && (r.block.Some? <==> inCode && Trim(line) == Fence)
            && (r.block.Some? ==> !r.inCodeBlock && r.codeLines == [])
  {
  }

  /* ---------------------------------------------------------------------- */
  /* The pattern of parseInlineMarkdown                                      */
  /* ---------------------------------------------------------------------- */

  /** What the pattern matched, by capture group: bold text that may hold
      code runs (group 1), a code run (group 2), bold text without stars
      (group 3), a link (group 4, its text and URL groups 5 and 6). */
  datatype Token =
    | Bold(content: String)
    | InlineCode(content: String)
    | PlainBold(content: String)
    | Link(text: String, url: String)

  /** A match of the pattern: where it starts and ends, and what matched. */
  datatype Match = Match(start: nat, end: nat, token: Token)

  /** The source text a token was matched from. */
  function Markup(t: Token): String {
    match t
    case Bold(c) => "**" + c + "**"
    case InlineCode(c) => "`" + c + "`"
    case PlainBold(c) => "**" + c + "**"
    case Link(text, url) => "[" + text + "](" + url + ")"
  }

  /** The body `(?:[^*]|`[^`]*`)+` of group 1 from `q`, followed by the
      closing "**", searched as the backtracking matcher does: another
      iteration before leaving the loop (the quantifier is greedy), and in
      an iteration `[^*]` before the code run; `started` says an iteration
      has already matched. The result is the end of the whole match. */
  function BoldBody(s: String, q: nat, started: bool): (r: Option<nat>)
    requires q <= |s|
    ensures r.Some? ==> q + 2 <= r.value <= |s| && (!started ==> q + 3 <= r.value)
                        && s[r.value - 2] == '*' && s[r.value - 1] == '*'
    decreases |s| - q
  {
    var more := if q < |s| && s[q] != '*' then BoldBody(s, q + 1, true) else None;
    if more.Some? then more
    else
      var code := if q < |s| && s[q] == '`' && TickFrom(s, q + 1) < |s|
                  then BoldBody(s, TickFrom(s, q + 1) + 1, true) else None;
      if code.Some? then code
      else if started && q + 2 <= |s| && s[q] == '*' && s[q + 1] == '*' then Some(q + 2)
      else None
  }

  /** Group 1 at `p`: the end of the match. */
  function BoldAt(s: String, p: nat): (r: Option<nat>)
    ensures r.Some? ==> p + 5 <= r.value <= |s| && s[p] == '*' && s[p + 1] == '*'
                        && s[r.value - 2] == '*' && s[r.value - 1] == '*'
  {
    if p + 2 <= |s| && s[p] == '*' && s[p + 1] == '*' then BoldBody(s, p + 2, false) else None
  }

  /** Group 3, `\*\*[^*]+\*\*`, at `p`: the star run ends at the first star. */
  function PlainBoldAt(s: String, p: nat): (r: Option<nat>)
    ensures r.Some? ==> p + 5 <= r.value <= |s| && s[p] == '*' && s[p + 1] == '*'
                        && s[r.value - 2] == '*' && s[r.value - 1] == '*'
  {
    if p + 2 <= |s| && s[p] == '*' && s[p + 1] == '*' then
      var k := IndexOfCharFrom(s, '*', p + 2);
      if k > p + 2 && k + 1 < |s| && s[k + 1] == '*' then Some(k + 2) else None
    else None
  }

  /** Group 4, `\[([^\]]+)\]\(([^)]+)\)`, at `p`: the positions of the
      closing bracket and the closing parenthesis. */
  function LinkAt(s: String, p: nat): (r: Option<(nat, nat)>)
    ensures r.Some? ==> p + 1 < r.value.0 && r.value.0 + 2 < r.value.1 < |s|
                        && s[p] == '[' && s[r.value.0] == ']' && s[r.value.0 + 1] == '('
                        && s[r.value.1] == ')'
  {
    if p < |s| && s[p] == '[' then
      var b := IndexOfCharFrom(s, ']', p + 1);
      if b > p + 1 && b + 1 < |s| && s[b + 1] == '(' then
        var c := IndexOfCharFrom(s, ')', b + 2);
        if c > b + 2 then Some((b, c)) else None
      else None
    else None
  }

  /** The pattern at `p`, its alternatives tried in order. */
  function MatchAt(s: String, p: nat): (r: Option<Match>)
    ensures r.Some? ==> r.value.start == p && p + 3 <= r.value.end <= |s|
  {
    var bold := BoldAt(s, p);
    if bold.Some? then Some(Match(p, bold.value, Bold(s[p + 2..bold.value - 2])))
    else
      var code := CodeRunAt(s, p);
      if code.Some? then Some(Match(p, code.value, InlineCode(s[p + 1..code.value - 1])))
      else
        var plain := PlainBoldAt(s, p);
        if plain.Some? then Some(Match(p, plain.value, PlainBold(s[p + 2..plain.value - 2])))
        else
          var link := LinkAt(s, p);
          if link.Some? then
            Some(Match(p, link.value.1 + 1, Link(s[p + 1..link.value.0], s[link.value.0 + 2..link.value.1])))
          else None
  }

  /** Text between "**" and "**". */
  lemma StarsMarkup(s: String, p: nat, e: nat)
    requires p + 4 <= e <= |s| && s[p] == '*' && s[p + 1] == '*' && s[e - 2] == '*' && s[e - 1] == '*'
    ensures s[p..e] == "**" + s[p + 2..e - 2] + "**"
  {
    assert s[p..e] == s[p..p + 2] + s[p + 2..e - 2] + s[e - 2..e];
    assert s[p..p + 2] == "**" && s[e - 2..e] == "**";
  }

  /** A link's text and URL in their brackets and parentheses. */
  lemma LinkMarkup(s: String, p: nat)
    requires LinkAt(s, p).Some?
    ensures var (b, c) := LinkAt(s, p).value;
            s[p..c + 1] == "[" + s[p + 1..b] + "](" + s[b + 2..c] + ")"
  {
    var (b, c) := LinkAt(s, p).value;
    var text := s[p + 1..b];
    var url := s[b + 2..c];
    assert s[p..b] == "[" + text;
    assert s[b..c + 1] == "](" + url + ")";
    assert s[p..c + 1] == s[p..b] + s[b..c + 1];
    calc {
      s[p..c + 1];
      ("[" + text) + (("](" + url) + ")");
      { AppendAssoc("[" + text, "](" + url, ")"); }
      (("[" + text) + ("](" + url)) + ")";
      { AppendAssoc("[" + text, "](", url); }
      "[" + text + "](" + url + ")";
    }
  }

  /** A match spans exactly its token's source text. */
  lemma MatchMarkup(s: String, p: nat)
    requires MatchAt(s, p).Some?
    ensures s[p..MatchAt(s, p).value.end] == Markup(MatchAt(s, p).value.token)
  {
    if BoldAt(s, p).Some? {
      StarsMarkup(s, p, BoldAt(s, p).value);
    } else if CodeRunAt(s, p).Some? {
      CodeRunSlice(s, p);
    } else if PlainBoldAt(s, p).Some? {
      StarsMarkup(s, p, PlainBoldAt(s, p).value);
    } else {
      LinkMarkup(s, p);
    }
  }

  /** A run of non-stars closed by "**" is a body of group 1 (taking `[^*]`
      at every step). */
  lemma {:induction false} BodyOverNonStars(s: String, q: nat, k: nat, started: bool)
    requires q <= k && k + 2 <= |s| && s[k] == '*' && s[k + 1] == '*'
    requires forall i :: q <= i < k ==> s[i] != '*'
    requires started || q < k
    ensures BoldBody(s, q, started).Some?
    decreases k - q
  {
    if q < k {
      BodyOverNonStars(s, q + 1, k, true);
    }
  }

  /** Group 1 matches wherever group 3 does and is tried first, so the
      `match[3]` branch of `processMarkdownMatch` never runs. */
  lemma PlainBoldBranchDead(s: String, p: nat)
    ensures MatchAt(s, p).Some? ==> !MatchAt(s, p).value.token.PlainBold?
  {
    if PlainBoldAt(s, p).Some? {
      var k := IndexOfCharFrom(s, '*', p + 2);
      BodyOverNonStars(s, p + 2, k, false);
    }
  }

  /** The leftmost match starting at or after `from`. */
  function NextMatch(s: String, from: nat): (r: Option<Match>)
    ensures r.Some? ==> from <= r.value.start && MatchAt(s, r.value.start) == r
    decreases |s| - from
  {
    if from >= |s| then None
    else if MatchAt(s, from).Some? then MatchAt(s, from)
    else NextMatch(s, from + 1)
  }

  lemma {:induction false} NextMatchLeftmost(s: String, from: nat)
    ensures NextMatch(s, from).Some? ==>
              forall q :: from <= q < NextMatch(s, from).value.start ==> MatchAt(s, q).None?
    ensures NextMatch(s, from).None? ==> forall q :: from <= q ==> MatchAt(s, q).None?
    decreases |s| - from
  {
    if from < |s| && MatchAt(s, from).None? {
      NextMatchLeftmost(s, from + 1);
    }
  }

  /* ---------------------------------------------------------------------- */
  /* parseInlineMarkdown and parseBoldWithCode                               */
  /* ---------------------------------------------------------------------- */

  /** The line as the exec loop sees it: text between matches, and the
      matches. */
  datatype Piece = Gap(text: String) | Matched(m: Match)

  function PieceMarkup(x: Piece): String {
    match x
    case Gap(t) => t
    case Matched(m) => Markup(m.token)
  }

  function Unparse(pieces: seq<Piece>): String {
    if pieces == [] then [] else Unparse(pieces[..|pieces| - 1]) + PieceMarkup(pieces[|pieces| - 1])
  }

  /** The pieces of `line[from..]` after `acc`: at each leftmost match the
      text before it, when there is any, and the match; after the last one
      the rest of the line, when there is any. */
  function PiecesFrom(line: String, from: nat, acc: seq<Piece>): seq<Piece>
    requires from <= |line|
    decreases |line| - from
  {
    var m := NextMatch(line, from);
    if m.None? then
      if from < |line| then acc + [Gap(line[from..])] else acc
    else
      var withGap := if m.value.start > from then acc + [Gap(line[from..m.value.start])] else acc;
      PiecesFrom(line, m.value.end, withGap + [Matched(m.value)])
  }

  function Pieces(line: String): seq<Piece> {
    PiecesFrom(line, 0, [])
  }

  /** The parts `parseBoldWithCode` returns for bold text: the code runs
      marked `strong` and `code`, the text around them `strong`. */
  function BoldParts(boldContent: String): seq<Span> {
    CodeSpansFrom(boldContent, 0, [], [StrongMark])
  }

  /** What `processMarkdownMatch` pushes for a match; a link's mark is the
      key `linkKey` gives the match's position (the source draws it from
      the clock and a random number). */
  function MatchSpans(m: Match, linkKey: nat -> String): seq<Span> {
    match m.token
    case Bold(c) => if '`' in c then BoldParts(c) else [Span(c, [StrongMark], None)]
    case InlineCode(c) => [Span(c, [CodeMark], None)]
    case PlainBold(c) => [Span(c, [StrongMark], None)]
    case Link(text, url) => [Span(text, [linkKey(m.start)], Some(url))]
  }

  function PieceSpans(x: Piece, linkKey: nat -> String): seq<Span> {
    match x
    case Gap(t) => [Plain(t)]
    case Matched(m) => MatchSpans(m, linkKey)
  }

  function SpansOf(pieces: seq<Piece>, linkKey: nat -> String): seq<Span> {
    if pieces == [] then []
    else SpansOf(pieces[..|pieces| - 1], linkKey) + PieceSpans(pieces[|pieces| - 1], linkKey)
  }

  lemma SpansOfSnoc(pieces: seq<Piece>, x: Piece, linkKey: nat -> String)
    ensures SpansOf(pieces + [x], linkKey) == SpansOf(pieces, linkKey) + PieceSpans(x, linkKey)
  {
    assert (pieces + [x])[..|pieces|] == pieces;
  }

  /** What `parseInlineMarkdown` returns: the spans of the pieces, or the
      whole line as one span when there are none (the empty line). */
  function InlineSpans(line: String, linkKey: nat -> String): (r: seq<Span>)
    ensures r != []
  {
    var spans := SpansOf(Pieces(line), linkKey);
    if spans == [] then [Plain(line)] else spans
  }

  method ParseBoldWithCode(boldContent: String) returns (parts: seq<Span>)
    ensures parts == BoldParts(boldContent)
  {
    parts := [];
    var lastIndex: nat := 0;
    while true
      invariant lastIndex <= |boldContent|
      invariant CodeSpansFrom(boldContent, lastIndex, parts, [StrongMark]) == BoldParts(boldContent)
      decreases |boldContent| - lastIndex
    {
      var m := NextCodeRun(boldContent, lastIndex);
      if m.None? {
        break;
      }
      var a := m.value.0;
      var e := m.value.1;
      CodeSpansFromAt(boldContent, lastIndex, parts, [StrongMark], a, e);
      if a > lastIndex {
        parts := parts + [GapSpan([StrongMark], boldContent[lastIndex..a])];
      }
      parts := parts + [CodeSpan([StrongMark], boldContent[a + 1..e - 1])];
      lastIndex := e;
    }
    if lastIndex < |boldContent| {
      parts := parts + [GapSpan([StrongMark], boldContent[lastIndex..])];
    }
  }

  method ProcessMarkdownMatch(m: Match, linkKey: nat -> String) returns (pushed: seq<Span>)
    ensures pushed == MatchSpans(m, linkKey)
  {
    match m.token
    case Bold(boldContent) =>
      if '`' in boldContent {
        pushed := ParseBoldWithCode(boldContent);
      } else {
        pushed := [Span(boldContent, [StrongMark], None)];
      }
    case InlineCode(codeText) =>
      pushed := [Span(codeText, [CodeMark], None)];
    case PlainBold(boldText) =>
      pushed := [Span(boldText, [StrongMark], None)];
    case Link(linkText, linkUrl) =>
      pushed := [Span(linkText, [linkKey(m.start)], Some(linkUrl))];
  }

  /** The exec loop of `parseInlineMarkdown`, with `addTextBefore` and
      `addRemainingText` written out in place. */
  method ParseInlineMarkdown(line: String, linkKey: nat -> String) returns (textWithMarks: seq<Span>)
    ensures textWithMarks == InlineSpans(line, linkKey)
  {
    textWithMarks := [];
    var lastIndex: nat := 0;
    ghost var pieces: seq<Piece> := [];
    while true
      invariant lastIndex <= |line|
      invariant PiecesFrom(line, lastIndex, pieces) == Pieces(line)
      invariant textWithMarks == SpansOf(pieces, linkKey)
      decreases |line| - lastIndex
    {
      var found := NextMatch(line, lastIndex);
      if found.None? {
        break;
      }
      var m := found.value;
      if m.start > lastIndex {
        SpansOfSnoc(pieces, Gap(line[lastIndex..m.start]), linkKey);
        textWithMarks := textWithMarks + [Plain(line[lastIndex..m.start])];
        pieces := pieces + [Gap(line[lastIndex..m.start])];
      }
      var pushed := ProcessMarkdownMatch(m, linkKey);
      SpansOfSnoc(pieces, Matched(m), linkKey);
      textWithMarks := textWithMarks + pushed;
      pieces := pieces + [Matched(m)];
      lastIndex := m.end;
    }
    if lastIndex < |line| {
      SpansOfSnoc(pieces, Gap(line[lastIndex..]), linkKey);
      textWithMarks := textWithMarks + [Plain(line[lastIndex..])];
      pieces := pieces + [Gap(line[lastIndex..])];
    }
    if textWithMarks == [] {
      textWithMarks := [Plain(line)];
    }
  }

  /* ---------------------------------------------------------------------- */
  /* Properties of the tokenizer                                             */
  /* ---------------------------------------------------------------------- */

  lemma UnparseSnoc(pieces: seq<Piece>, x: Piece)
    ensures Unparse(pieces + [x]) == Unparse(pieces) + PieceMarkup(x)
  {
    assert (pieces + [x])[..|pieces|] == pieces;
  }

  /** What one match adds to the source text: the gap, then the match. */
  lemma UnparsePush(acc: seq<Piece>, gap: String, m: Match)
    ensures Unparse((if gap != [] then acc + [Gap(gap)] else acc) + [Matched(m)])
            == Unparse(acc) + gap + Markup(m.token)
  {
    var withGap := if gap != [] then acc + [Gap(gap)] else acc;
    UnparseSnoc(withGap, Matched(m));
    if gap != [] {
      UnparseSnoc(acc, Gap(gap));
    } else {
      assert Unparse(acc) + gap == Unparse(acc);
    }
  }

  /** One step of `PiecesFrom` at a match. */
  lemma PiecesFromMatch(line: String, from: nat, acc: seq<Piece>)
    requires from <= |line| && NextMatch(line, from).Some?
    ensures var m := NextMatch(line, from).value;
            var gap := line[from..m.start];
            PiecesFrom(line, from, acc)
            == PiecesFrom(line, m.end, (if gap != [] then acc + [Gap(gap)] else acc) + [Matched(m)])
  {
  }

  /** The slices a match cuts `line[from..]` into. */
  lemma MatchSlicesAt(line: String, from: nat, a: nat)
    requires from <= a && MatchAt(line, a).Some?
    ensures var e := MatchAt(line, a).value.end;
            line[from..] == line[from..a] + Markup(MatchAt(line, a).value.token) + line[e..]
  {
    var e := MatchAt(line, a).value.end;
    MatchMarkup(line, a);
    assert line[from..] == line[from..a] + line[a..e] + line[e..];
  }

  lemma {:induction false} UnparsePiecesFrom(line: String, from: nat, acc: seq<Piece>)
    requires from <= |line|
    ensures Unparse(PiecesFrom(line, from, acc)) == Unparse(acc) + line[from..]
    decreases |line| - from
  {
    var m := NextMatch(line, from);
    if m.Some? {
      var a := m.value.start;
      var e := m.value.end;
      var gap := line[from..a];
      var withGap := if gap != [] then acc + [Gap(gap)] else acc;
      var next := withGap + [Matched(m.value)];
      var markup := Markup(m.value.token);
      var done := Unparse(acc);
      calc {
        Unparse(PiecesFrom(line, from, acc));
        { PiecesFromMatch(line, from, acc); }
        Unparse(PiecesFrom(line, e, next));
        { UnparsePiecesFrom(line, e, next); }
        Unparse(next) + line[e..];
        { UnparsePush(acc, gap, m.value); }
        (done + gap + markup) + line[e..];
        { AppendAssoc(done + gap, markup, line[e..]);
          AppendAssoc(done, gap, markup + line[e..]); }
        done + (gap + (markup + line[e..]));
        { AppendAssoc(gap, markup, line[e..]); }
        done + (gap + markup + line[e..]);
        { MatchSlicesAt(line, from, a); }
        done + line[from..];
      }
    } else if from < |line| {
      UnparseSnoc(acc, Gap(line[from..]));
    }
  }

  /** The tokenizer loses nothing: the text between matches and the
      matches' source texts make up the line again, in order. */
  lemma InlineRoundTrip(line: String)
    ensures Unparse(Pieces(line)) == line
  {
    UnparsePiecesFrom(line, 0, []);
  }

  /** The spans the tokenizer produces: unmarked text, `strong` text, a
      link (one mark, the key, and a URL), or a non-empty run without
      backticks marked `code` or `strong` and `code`. */
  predicate InlineShaped(sp: Span) {
    || (sp.href.Some? && |sp.marks| == 1)
    || (sp.href.None? && (sp.marks == [] || sp.marks == [StrongMark]))
    || (sp.href.None? && (sp.marks == [CodeMark] || sp.marks == [StrongMark, CodeMark])
        && sp.text != [] && '`' !in sp.text)
  }

  /** A match found in the line. */
  predicate MatchOf(line: String, m: Match) {
    MatchAt(line, m.start) == Some(m)
  }

  predicate PiecesOf(line: String, pieces: seq<Piece>) {
    forall j :: 0 <= j < |pieces| && pieces[j].Matched? ==> MatchOf(line, pieces[j].m)
  }

  lemma {:induction false} PiecesFromOf(line: String, from: nat, acc: seq<Piece>)
    requires from <= |line| && PiecesOf(line, acc)
    ensures PiecesOf(line, PiecesFrom(line, from, acc))
    decreases |line| - from
  {
    var m := NextMatch(line, from);
    if m.Some? {
      var withGap := if m.value.start > from then acc + [Gap(line[from..m.value.start])] else acc;
      PiecesFromOf(line, m.value.end, withGap + [Matched(m.value)]);
    }
  }

  /** Bold text holding code runs is split into `strong` parts and `strong`
      `code` parts, never none; their texts are the bold text with the
      backticks of each run removed, and putting the runs back in
      backticks gives the bold text again. */
  lemma BoldPartsFacts(c: String)
    requires '`' in c
    ensures BoldParts(c) != []
    ensures forall j :: 0 <= j < |BoldParts(c)| ==> CodeMarked([StrongMark], BoldParts(c)[j])
    ensures Texts(BoldParts(c)) == Unticked(c, 0)
    ensures RenderCode([StrongMark], BoldParts(c)) == c
  {
    CodeSpansFromNonEmpty(c, 0, [], [StrongMark]);
    CodeSpansFromMarks(c, 0, [], [StrongMark]);
    CodeSpansFromTexts(c, 0, [], [StrongMark]);
    RenderCodeSpansFrom(c, 0, [], [StrongMark]);
  }

  lemma MatchSpansShaped(line: String, m: Match, linkKey: nat -> String)
    requires MatchOf(line, m)
    ensures forall j :: 0 <= j < |MatchSpans(m, linkKey)| ==> InlineShaped(MatchSpans(m, linkKey)[j])
  {
    if m.token.Bold? && '`' in m.token.content {
      BoldPartsFacts(m.token.content);
      assert [StrongMark] + [CodeMark] == [StrongMark, CodeMark];
    } else if m.token.InlineCode? {
      CodeRunContent(line, m.start);
    }
  }

  lemma {:induction false} SpansOfShaped(line: String, pieces: seq<Piece>, linkKey: nat -> String)
    requires PiecesOf(line, pieces)
    ensures forall j :: 0 <= j < |SpansOf(pieces, linkKey)| ==> InlineShaped(SpansOf(pieces, linkKey)[j])
  {
    if pieces != [] {
      var init := pieces[..|pieces| - 1];
      var x := pieces[|pieces| - 1];
      SpansOfShaped(line, init, linkKey);
      if x.Matched? {
        MatchSpansShaped(line, x.m, linkKey);
      }
    }
  }

  /** Every span of `parseInlineMarkdown` has one of the tokenizer's shapes. */
  lemma InlineSpansShaped(line: String, linkKey: nat -> String)
    ensures forall j :: 0 <= j < |InlineSpans(line, linkKey)| ==> InlineShaped(InlineSpans(line, linkKey)[j])
  {
    PiecesFromOf(line, 0, []);
    SpansOfShaped(line, Pieces(line), linkKey);
  }

  /** Text with no star, backtick or opening bracket holds no match and
      comes back as one unmarked span. */
  lemma NoMarkupPlain(line: String, linkKey: nat -> String)
    requires '*' !in line && '`' !in line && '[' !in line
    ensures InlineSpans(line, linkKey) == [Plain(line)]
  {
    forall q | 0 <= q
      ensures MatchAt(line, q).None?
    {
      if q < |line| {
        assert line[q] != '*' && line[q] != '`' && line[q] != '[';
      }
    }
    NextMatchLeftmost(line, 0);
    if line != [] {
      assert Pieces(line) == [Gap(line[0..])];
      SpansOfSnoc([], Gap(line[0..]), linkKey);
      assert line[0..] == line;
    }
  }

  /* ---------------------------------------------------------------------- */
  /* getHeadingBlock, getBulletBlock, makeNormalBlock, handleTextBlock       */
  /* ---------------------------------------------------------------------- */

  /** `{ _key, _type: 'link', href }`, keyed by the span's first mark. */
  datatype MarkDef = MarkDef(key: Option<String>, href: String)

  /** `{ _type: 'block', _key: 'block-<line>', style, listItem?, children,
      markDefs? }`; `bullet` stands for `listItem: 'bullet'`. */
  datatype TextBlock = TextBlock(key: Key, style: Style, bullet: bool, children: seq<Span>,
                                 markDefs: Option<seq<MarkDef>>)

  /** The mark definitions of the spans that carry one, in order. */
  function MarkDefs(spans: seq<Span>): seq<MarkDef> {
    if spans == [] then []
    else
      (if spans[0].href.Some?
       then [MarkDef(if spans[0].marks != [] then Some(spans[0].marks[0]) else None, spans[0].href.value)]
       else [])
      + MarkDefs(spans[1..])
  }

  lemma {:induction false} MarkDefsEmpty(spans: seq<Span>)
    ensures MarkDefs(spans) == [] <==> forall j :: 0 <= j < |spans| ==> spans[j].href.None?
  {
    if spans != [] {
      MarkDefsEmpty(spans[1..]);
      assert forall j :: 1 <= j < |spans| ==> spans[j] == spans[1..][j - 1];
    }
  }

  /** The tail shared by the three builders: the spans become the
      children, and `markDefs` is set only when there are any. */
  function MakeBlock(lineIndex: nat, style: Style, bullet: bool, spans: seq<Span>): TextBlock {
    var markDefs := MarkDefs(spans);
    TextBlock(BlockKey(lineIndex), style, bullet, spans, if |markDefs| > 0 then Some(markDefs) else None)
  }

  /** `markDefs` is present exactly when a child is a link. */
  lemma MakeBlockMarkDefs(lineIndex: nat, style: Style, bullet: bool, spans: seq<Span>)
    ensures var b := MakeBlock(lineIndex, style, bullet, spans);
            b.markDefs.Some? <==> exists j :: 0 <= j < |b.children| && b.children[j].href.Some?
  {
    MarkDefsEmpty(spans);
  }

  /** The first line terminator at or after `k`, or the end (what `.*`
      stops at). */
  function LineEnd(s: String, k: nat): (r: nat)
    requires k <= |s|
    ensures k <= r <= |s|
    ensures forall q :: k <= q < r ==> !IsLineTerminator(s[q])
    decreases |s| - k
  {
    if k < |s| && !IsLineTerminator(s[k]) then LineEnd(s, k + 1) else k
  }

  /** `/^(#{1,4})\s+(.*)/`: the level and the captured text. The `#` run
      has to end before the whitespace, so backtracking into `#{1,4}`
      never helps; `\s+` then takes all the whitespace and `.*` the rest
      up to a line terminator. */
  function HeadingMatch(line: String): Option<(nat, String)> {
    var h := HashEnd(line, 0);
    if 1 <= h <= 4 && h < |line| && IsSpace(line[h]) then
      var j := SkipSpaces(line, h);
      Some((h, line[j..LineEnd(line, j)]))
    else None
  }

  /** Exactly the lines that open with one to four `#` and whitespace are
      headings, at the level of the `#` count. */
  lemma HeadingIff(line: String, n: nat)
    requires 1 <= n <= 4
    ensures (n < |line| && (forall i :: 0 <= i < n ==> line[i] == '#') && IsSpace(line[n]))
            <==> (HeadingMatch(line).Some? && HeadingMatch(line).value.0 == n)
  {
    var h := HashEnd(line, 0);
    if n < |line| && (forall i :: 0 <= i < n ==> line[i] == '#') && IsSpace(line[n]) {
      assert line[n] != '#';
    }
  }

  /** The heading text starts after all the whitespace and stops before
      any line terminator. */
  lemma HeadingText(line: String)
    requires HeadingMatch(line).Some?
    ensures var text := HeadingMatch(line).value.1;
            (text == [] || !IsSpace(text[0])) && forall i :: 0 <= i < |text| ==> !IsLineTerminator(text[i])
  {
    var h := HashEnd(line, 0);
    var j := SkipSpaces(line, h);
    var text := line[j..LineEnd(line, j)];
    if text != [] {
      assert text[0] == line[j];
    }
  }

  function GetHeadingBlock(line: String, lineIndex: nat, linkKey: nat -> String): Option<TextBlock> {
    var m := HeadingMatch(line);
    if m.None? then None
    else Some(MakeBlock(lineIndex, Heading(m.value.0), false, InlineSpans(m.value.1, linkKey)))
  }

  /** Both tests of the guard compare with "* ", so the text is always
      `slice(4)`: two characters of the item are lost. */
  function BulletText(line: String): Option<String> {
    if StartsWith(line, "* ") then Some(line[if |line| < 4 then |line| else 4..]) else None
  }

  lemma BulletDropsTwo(a: char, b: char, rest: String)
    ensures BulletText("* " + [a, b] + rest) == Some(rest)
  {
    var line := "* " + [a, b] + rest;
    assert line[..2] == "* ";
    assert line[4..] == rest;
  }

  function GetBulletBlock(line: String, lineIndex: nat, linkKey: nat -> String): Option<TextBlock> {
    var t := BulletText(line);
    if t.None? then None
    else Some(MakeBlock(lineIndex, Normal, true, InlineSpans(t.value, linkKey)))
  }

  function MakeNormalBlock(line: String, lineIndex: nat, linkKey: nat -> String): TextBlock {
    MakeBlock(lineIndex, Normal, false, InlineSpans(line, linkKey))
  }

  /** Heading, else bullet, else normal text: a block is always returned. */
  function HandleTextBlock(line: String, lineIndex: nat, linkKey: nat -> String): TextBlock {
    var heading := GetHeadingBlock(line, lineIndex, linkKey);
    if heading.Some? then heading.value
    else
      var bullet := GetBulletBlock(line, lineIndex, linkKey);
      if bullet.Some? then bullet.value
      else MakeNormalBlock(line, lineIndex, linkKey)
  }

  /** The block of a text line: keyed by the line, an `h<level>` heading
      exactly when the heading pattern matches, else a bullet exactly when
      the line starts "* ", else a normal paragraph of the whole line;
      never without children, and with `markDefs` exactly when a child is
      a link. */
  lemma HandleTextBlockShape(line: String, lineIndex: nat, linkKey: nat -> String)
    ensures var b := HandleTextBlock(line, lineIndex, linkKey);
            var h := HeadingMatch(line);
            b.key == BlockKey(lineIndex) && b.children != []
            && (h.Some? ==> b.style == Heading(h.value.0) && 1 <= h.value.0 <= 4 && !b.bullet
                            && b.children == InlineSpans(h.value.1, linkKey))
            && (h.None? && StartsWith(line, "* ") ==>
                  b.style == Normal && b.bullet && b.children == InlineSpans(BulletText(line).value, linkKey))
            && (h.None? && !StartsWith(line, "* ") ==>
                  b.style == Normal && !b.bullet && b.children == InlineSpans(line, linkKey))
            && (b.markDefs.Some? <==> exists j :: 0 <= j < |b.children| && b.children[j].href.Some?)
  {
    var b := HandleTextBlock(line, lineIndex, linkKey);
    MakeBlockMarkDefs(lineIndex, b.style, b.bullet, b.children);
  }
}
