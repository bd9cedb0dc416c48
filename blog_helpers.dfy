/**
 * The second set of markdown helpers, src/lib/generateBlog.helpers.ts:
 * `normalizeLanguage` with its own table, the inline tokenizer
 * `parseInlineMarkdown` (bold text that may hold code runs, and code runs)
 * with `parseBoldWithCode`, `makeCodeBlock`, the heading and bullet
 * patterns anchored at both ends, the code-fence step `handleCodeBlock`
 * (`processCodeBlockStart`, `processCodeBlockEnd`) and `handleTextBlock`.
 */
module BlogHelpers {
  import opened Text
  import opened Spans

  /** The language of a fence that names none. */
  const TextLanguage: String := "text"

  /* ---------------------------------------------------------------------- */
  /* normalizeLanguage                                                       */
  /* ---------------------------------------------------------------------- */

  /** The alias table of `normalizeLanguage`. */
  const LanguageMap: map<String, String> := map[
    "js" := "javascript", "ts" := "typescript", "py" := "python", "rb" := "ruby",
    "sh" := "bash", "yml" := "yaml", "md" := "markdown"]

  /** Lower-cased, and an alias replaced by its language; nothing is
      trimmed and there is no default, so only the empty name gives the
      empty name. */
  function NormalizeLanguage(lang: String): (r: String)
    ensures ToLower(lang) in LanguageMap ==> r == LanguageMap[ToLower(lang)]
    ensures ToLower(lang) !in LanguageMap ==> r == ToLower(lang)
    ensures r == [] <==> lang == []
    ensures ToLower(r) == r
  {
    var langLower := ToLower(lang);
    LanguageNames();
    ToLowerIdempotent(lang);
    if langLower in LanguageMap then LanguageMap[langLower] else langLower
  }

  /** A lower-case word: what the table maps to. */
  predicate LowerWord(v: String) {
    v != [] && forall i :: 0 <= i < |v| ==> 'a' <= v[i] <= 'z'
  }

  lemma LowerWordFixed(v: String)
    requires LowerWord(v)
    ensures ToLower(v) == v
  {
  }

  lemma LanguageNames()
    ensures forall k :: k in LanguageMap ==> LowerWord(LanguageMap[k]) && ToLower(LanguageMap[k]) == LanguageMap[k]
  {
    forall k | k in LanguageMap
      ensures LowerWord(LanguageMap[k]) && ToLower(LanguageMap[k]) == LanguageMap[k]
    {
      LowerWordFixed(LanguageMap[k]);
    }
  }

  /** No language the table maps to is itself an alias. */
  lemma NamesAreNotAliases()
    ensures forall k :: k in LanguageMap ==> LanguageMap[k] !in LanguageMap
  {
  }

  /** Normalizing twice is normalizing once. */
  lemma NormalizeLanguageIdempotent(lang: String)
    ensures NormalizeLanguage(NormalizeLanguage(lang)) == NormalizeLanguage(lang)
  {
    var r := NormalizeLanguage(lang);
    NamesAreNotAliases();
    ToLowerIdempotent(lang);
    assert ToLower(r) == r;
  }

  /** Names that differ only in the case of their letters normalize alike. */
  lemma NormalizeLanguageCaseBlind(a: String, b: String)
    requires ToLower(a) == ToLower(b)
    ensures NormalizeLanguage(a) == NormalizeLanguage(b)
  {
  }

  /** Unlike the table of generateBlogHelpers.ts, this one keeps whitespace
      and has no default language. */
  lemma NormalizeLanguageKeepsSpaces()
    ensures NormalizeLanguage(" JS") == " js"
    ensures NormalizeLanguage("RB") == "ruby"
  {
    assert ToLower(" JS") == " js";
    assert ToLower("RB") == "rb";
  }

  /* ---------------------------------------------------------------------- */
  /* The pattern of parseInlineMarkdown                                      */
  /* ---------------------------------------------------------------------- */

  /** The first star at or after `k`, or `|s|`: where `[^*]*` stops. */
  function StarFrom(s: String, k: nat): (r: nat)
    requires k <= |s|
    ensures k <= r <= |s|
    ensures r < |s| ==> s[r] == '*'
    ensures forall q :: k <= q < r ==> s[q] != '*'
    decreases |s| - k
  {
    if k == |s| || s[k] == '*' then k else StarFrom(s, k + 1)
  }

  /** Two stars end at `r`. */
  predicate ClosesAt(s: String, r: nat) {
    2 <= r <= |s| && s[r - 2] == '*' && s[r - 1] == '*'
  }

  /** ``(?:`[^`]+`[^*]*)*\*\*`` from `q`, as the backtracking matcher runs
      it: another iteration first (a code run, then the star-free text
      after it, longest first), and only when no iteration leads to a
      match the closing `**`. */
  function Groups(s: String, q: nat): (r: Option<nat>)
    requires q <= |s|
    ensures r.Some? ==> q + 2 <= r.value && ClosesAt(s, r.value)
    decreases |s| - q, 0, 0
  {
    var iteration :=
      if q < |s| && s[q] == '`' then
        var t := TickFrom(s, q + 1);
        if q + 1 < t < |s| then Tail(s, t + 1, StarFrom(s, t + 1)) else None
      else None;
    if iteration.Some? then iteration
    else if q + 2 <= |s| && s[q] == '*' && s[q + 1] == '*' then Some(q + 2)
    else None
  }

  /** A run of star-free text that may stop anywhere from `k` down to `lo`,
      followed by `Groups`: the greedy run gives back one character at a
      time. */
  function Tail(s: String, lo: nat, k: nat): (r: Option<nat>)
    requires lo <= k <= |s|
    ensures r.Some? ==> lo + 2 <= r.value && ClosesAt(s, r.value)
    decreases |s| - lo, 1, k - lo
  {
    var g := Groups(s, k);
    if g.Some? then g
    else if k > lo then Tail(s, lo, k - 1)
    else None
  }

  /** The first alternative, ``\*\*[^*]+(?:`[^`]+`[^*]*)*\*\*``, at `p`. */
  function BoldAt(s: String, p: nat): (r: Option<nat>)
    ensures r.Some? ==> p + 5 <= r.value && ClosesAt(s, r.value) && s[p] == '*' && s[p + 1] == '*'
  {
    if p + 2 <= |s| && s[p] == '*' && s[p + 1] == '*' then
      var k := StarFrom(s, p + 2);
      if k > p + 2 then Tail(s, p + 3, k) else None
    else None
  }

  /** The whole pattern at `p`: bold text first, else a code run. */
  function MatchAt(s: String, p: nat): (r: Option<nat>)
    ensures r.Some? ==> p + 3 <= r.value <= |s|
  {
    var b := BoldAt(s, p);
    if b.Some? then b else CodeRunAt(s, p)
  }

  /** The leftmost match at or after `from`, as (start, end). */
  function NextMatch(s: String, from: nat): (r: Option<(nat, nat)>)
    ensures r.Some? ==> from <= r.value.0 && MatchAt(s, r.value.0) == Some(r.value.1)
    decreases |s| - from
  {
    if from >= |s| then None
    else if MatchAt(s, from).Some? then Some((from, MatchAt(s, from).value))
    else NextMatch(s, from + 1)
  }

  lemma {:induction false} NextMatchLeftmost(s: String, from: nat)
    ensures NextMatch(s, from).Some? ==>
              forall q :: from <= q < NextMatch(s, from).value.0 ==> MatchAt(s, q).None?
    ensures NextMatch(s, from).None? ==> forall q :: from <= q ==> MatchAt(s, q).None?
    decreases |s| - from
  {
    if from < |s| && MatchAt(s, from).None? {
      NextMatchLeftmost(s, from + 1);
    }
  }

  /** Bold source text: two stars, non-empty content, two stars. */
  predicate BoldText(t: String) {
    |t| >= 5 && StartsWith(t, "**") && EndsWith(t, "**")
  }

  /** A code run's source text: non-empty content without backticks
      between two backticks. */
  predicate CodeText(t: String) {
    |t| >= 3 && t[0] == '`' && t[|t| - 1] == '`' && '`' !in t[1..|t| - 1]
  }

  /** Every match is bold text or a code run, never both. */
  lemma MatchText(s: String, p: nat)
    requires MatchAt(s, p).Some?
    ensures var t := s[p..MatchAt(s, p).value];
            (BoldText(t) && !CodeText(t)) || (CodeText(t) && !StartsWith(t, "**"))
  {
    var e := MatchAt(s, p).value;
    var t := s[p..e];
    if BoldAt(s, p).Some? {
      assert t[..2] == "**" && t[|t| - 2..] == "**";
    } else {
      CodeRunContent(s, p);
      assert t[1..|t| - 1] == s[p + 1..e - 1];
    }
  }

  /* ---------------------------------------------------------------------- */
  /* parseBoldWithCode, processMarkdownMatch, parseInlineMarkdown            */
  /* ---------------------------------------------------------------------- */

  /** What `parseBoldWithCode` returns: the code runs marked `strong` and
      `code`, the text around them `strong`; the whole text as one `strong`
      span when that split is empty. */
  function BoldParts(text: String): (r: seq<Span>)
    ensures r != []
  {
    var parts := CodeSpansFrom(text, 0, [], [StrongMark]);
    if parts != [] then parts else [Span(text, [StrongMark], None)]
  }

  /** JavaScript's `slice(n, -n)`. */
  function Inner(t: String, n: nat): String {
    if |t| >= 2 * n then t[n..|t| - n] else []
  }

  /** What `processMarkdownMatch` pushes for the matched source text. */
  function MatchSpans(t: String): seq<Span> {
    if StartsWith(t, "**") && EndsWith(t, "**") then BoldParts(Inner(t, 2))
    else if StartsWith(t, "`") && EndsWith(t, "`") then [Span(Inner(t, 1), [CodeMark], None)]
    else []
  }

  /** The line as the exec loop sees it: text between matches, and the
      matched source texts. */
  datatype Piece = Gap(text: String) | Matched(text: String)

  function Unparse(pieces: seq<Piece>): String {
    if pieces == [] then [] else Unparse(pieces[..|pieces| - 1]) + pieces[|pieces| - 1].text
  }

  /** The pieces of `line[from..]` after `acc`. */
  function PiecesFrom(line: String, from: nat, acc: seq<Piece>): seq<Piece>
    requires from <= |line|
    decreases |line| - from
  {
    var m := NextMatch(line, from);
    if m.None? then
      if from < |line| then acc + [Gap(line[from..])] else acc
    else
      var withGap := if m.value.0 > from then acc + [Gap(line[from..m.value.0])] else acc;
      PiecesFrom(line, m.value.1, withGap + [Matched(line[m.value.0..m.value.1])])
  }

  function Pieces(line: String): seq<Piece> {
    PiecesFrom(line, 0, [])
  }

  function PieceSpans(x: Piece): seq<Span> {
    match x
    case Gap(t) => [Plain(t)]
    case Matched(t) => MatchSpans(t)
  }

  function SpansOf(pieces: seq<Piece>): seq<Span> {
    if pieces == [] then [] else SpansOf(pieces[..|pieces| - 1]) + PieceSpans(pieces[|pieces| - 1])
  }

  lemma SpansOfSnoc(pieces: seq<Piece>, x: Piece)
    ensures SpansOf(pieces + [x]) == SpansOf(pieces) + PieceSpans(x)
  {
    assert (pieces + [x])[..|pieces|] == pieces;
  }

  /** What `parseInlineMarkdown` returns: the spans of the pieces, or the
      whole text as one span when there are none. */
  function InlineSpans(line: String): (r: seq<Span>)
    ensures r != []
  {
    var spans := SpansOf(Pieces(line));
    if spans == [] then [Plain(line)] else spans
  }

  method ParseBoldWithCode(text: String) returns (parts: seq<Span>)
    ensures parts == BoldParts(text)
  {
    parts := [];
    var lastIndex: nat := 0;
    while true
      invariant lastIndex <= |text|
      invariant CodeSpansFrom(text, lastIndex, parts, [StrongMark]) == CodeSpansFrom(text, 0, [], [StrongMark])
      decreases |text| - lastIndex
    {
      var m := NextCodeRun(text, lastIndex);
      if m.None? {
        break;
      }
      var a := m.value.0;
      var e := m.value.1;
      CodeSpansFromAt(text, lastIndex, parts, [StrongMark], a, e);
      if a > lastIndex {
        parts := parts + [GapSpan([StrongMark], text[lastIndex..a])];
      }
      parts := parts + [CodeSpan([StrongMark], text[a + 1..e - 1])];
      lastIndex := e;
    }
    if lastIndex < |text| {
      parts := parts + [GapSpan([StrongMark], text[lastIndex..])];
    }
    if parts == [] {
      parts := [Span(text, [StrongMark], None)];
    }
  }

  method ProcessMarkdownMatch(matchText: String) returns (pushed: seq<Span>)
    ensures pushed == MatchSpans(matchText)
  {
    if StartsWith(matchText, "**") && EndsWith(matchText, "**") {
      pushed := ParseBoldWithCode(Inner(matchText, 2));
    } else if StartsWith(matchText, "`") && EndsWith(matchText, "`") {
      pushed := [Span(Inner(matchText, 1), [CodeMark], None)];
    } else {
      pushed := [];
    }
  }

  /** The exec loop of `parseInlineMarkdown`, with `addTextBefore` and
      `addRemainingText` written out in place. */
  method ParseInlineMarkdown(text: String) returns (children: seq<Span>)
    ensures children == InlineSpans(text)
  {
    children := [];
    var lastIndex: nat := 0;
    ghost var pieces: seq<Piece> := [];
    while true
      invariant lastIndex <= |text|
      invariant PiecesFrom(text, lastIndex, pieces) == Pieces(text)
      invariant children == SpansOf(pieces)
      decreases |text| - lastIndex
    {
      var found := NextMatch(text, lastIndex);
      if found.None? {
        break;
      }
      var a := found.value.0;
      var e := found.value.1;
      if a > lastIndex {
        SpansOfSnoc(pieces, Gap(text[lastIndex..a]));
        children := children + [Plain(text[lastIndex..a])];
        pieces := pieces + [Gap(text[lastIndex..a])];
      }
      var pushed := ProcessMarkdownMatch(text[a..e]);
      SpansOfSnoc(pieces, Matched(text[a..e]));
      children := children + pushed;
      pieces := pieces + [Matched(text[a..e])];
      lastIndex := e;
    }
    if lastIndex < |text| {
      SpansOfSnoc(pieces, Gap(text[lastIndex..]));
      children := children + [Plain(text[lastIndex..])];
      pieces := pieces + [Gap(text[lastIndex..])];
    }
    if children == [] {
      children := [Plain(text)];
    }
  }

  /* ---------------------------------------------------------------------- */
  /* Properties of the tokenizer                                             */
  /* ---------------------------------------------------------------------- */

  /** The parts of bold text: never none; `strong` parts and non-empty
      `strong` `code` parts without backticks; their texts are the bold
      text with the backticks of each run removed, and putting the runs
      back in backticks gives the bold text again. */
  lemma BoldPartsFacts(c: String)
    ensures forall j :: 0 <= j < |BoldParts(c)| ==> CodeMarked([StrongMark], BoldParts(c)[j])
    ensures Texts(BoldParts(c)) == Unticked(c, 0)
    ensures RenderCode([StrongMark], BoldParts(c)) == c
  {
    CodeSpansFromMarks(c, 0, [], [StrongMark]);
    CodeSpansFromTexts(c, 0, [], [StrongMark]);
    RenderCodeSpansFrom(c, 0, [], [StrongMark]);
    if c != [] {
      CodeSpansFromNonEmpty(c, 0, [], [StrongMark]);
    } else {
      assert Texts([Span(c, [StrongMark], None)]) == c;
      assert [StrongMark] != [StrongMark] + [CodeMark];
    }
  }

  lemma UnparseSnoc(pieces: seq<Piece>, x: Piece)
    ensures Unparse(pieces + [x]) == Unparse(pieces) + x.text
  {
    assert (pieces + [x])[..|pieces|] == pieces;
  }

  /** What one match adds to the source text: the gap, then the match. */
  lemma UnparsePush(acc: seq<Piece>, gap: String, t: String)
    ensures Unparse((if gap != [] then acc + [Gap(gap)] else acc) + [Matched(t)])
            == Unparse(acc) + gap + t
  {
    var withGap := if gap != [] then acc + [Gap(gap)] else acc;
    UnparseSnoc(withGap, Matched(t));
    if gap != [] {
      UnparseSnoc(acc, Gap(gap));
    } else {
      assert Unparse(acc) + gap == Unparse(acc);
    }
  }

  lemma {:induction false} UnparsePiecesFrom(line: String, from: nat, acc: seq<Piece>)
    requires from <= |line|
    ensures Unparse(PiecesFrom(line, from, acc)) == Unparse(acc) + line[from..]
    decreases |line| - from
  {
    var m := NextMatch(line, from);
    if m.Some? {
      var a := m.value.0;
      var e := m.value.1;
      var gap := line[from..a];
      var t := line[a..e];
      var next := (if gap != [] then acc + [Gap(gap)] else acc) + [Matched(t)];
      var done := Unparse(acc);
      calc {
        Unparse(PiecesFrom(line, from, acc));
        Unparse(PiecesFrom(line, e, next));
        { UnparsePiecesFrom(line, e, next); }
        Unparse(next) + line[e..];
        { UnparsePush(acc, gap, t); }
        (done + gap + t) + line[e..];
        { AppendAssoc(done + gap, t, line[e..]);
          AppendAssoc(done, gap, t + line[e..]); }
        done + (gap + (t + line[e..]));
        { AppendAssoc(gap, t, line[e..]);
          assert line[from..] == gap + t + line[e..]; }
        done + line[from..];
      }
    } else if from < |line| {
      UnparseSnoc(acc, Gap(line[from..]));
    }
  }

  /** The tokenizer loses nothing: the text between matches, verbatim, and
      the matched texts make up the line again, in order. */
  lemma InlineRoundTrip(line: String)
    ensures Unparse(Pieces(line)) == line
  {
    UnparsePiecesFrom(line, 0, []);
  }

  /** Every matched piece is bold text or a code run. */
  predicate PiecesOf(pieces: seq<Piece>) {
    forall j :: 0 <= j < |pieces| && pieces[j].Matched? ==>
      BoldText(pieces[j].text) || CodeText(pieces[j].text)
  }

  lemma {:induction false} PiecesFromOf(line: String, from: nat, acc: seq<Piece>)
    requires from <= |line| && PiecesOf(acc)
    ensures PiecesOf(PiecesFrom(line, from, acc))
    decreases |line| - from
  {
    var m := NextMatch(line, from);
    if m.Some? {
      MatchText(line, m.value.0);
      var withGap := if m.value.0 > from then acc + [Gap(line[from..m.value.0])] else acc;
      PiecesFromOf(line, m.value.1, withGap + [Matched(line[m.value.0..m.value.1])]);
    }
  }

  /** The spans of the tokenizer: unmarked text, the parts of bold text,
      or a non-empty code run without backticks marked `code`; never a
      link. */
  predicate InlineShaped(sp: Span) {
    || (sp.href.None? && sp.marks == [])
    || CodeMarked([StrongMark], sp)
    || (sp.href.None? && sp.marks == [CodeMark] && sp.text != [] && '`' !in sp.text)
  }

  /** A match always pushes something: bold text its parts, a code run its
      content as one `code` span. */
  lemma MatchSpansShaped(t: String)
    requires BoldText(t) || CodeText(t)
    ensures MatchSpans(t) != []
    ensures forall j :: 0 <= j < |MatchSpans(t)| ==> InlineShaped(MatchSpans(t)[j])
    ensures CodeText(t) ==> MatchSpans(t) == [Span(t[1..|t| - 1], [CodeMark], None)]
  {
    if StartsWith(t, "**") && EndsWith(t, "**") {
      BoldPartsFacts(Inner(t, 2));
    } else if CodeText(t) {
      assert t[..1] == "`" && t[|t| - 1..] == "`";
    }
  }

  lemma {:induction false} SpansOfShaped(pieces: seq<Piece>)
    requires PiecesOf(pieces)
    ensures forall j :: 0 <= j < |SpansOf(pieces)| ==> InlineShaped(SpansOf(pieces)[j])
  {
    if pieces != [] {
      var init := pieces[..|pieces| - 1];
      var x := pieces[|pieces| - 1];
      assert PiecesOf(init) by {
        forall j | 0 <= j < |init| && init[j].Matched?
          ensures BoldText(init[j].text) || CodeText(init[j].text)
        {
          assert init[j] == pieces[j];
        }
      }
      SpansOfShaped(init);
      if x.Matched? {
        MatchSpansShaped(x.text);
      }
    }
  }

  /** Every span of `parseInlineMarkdown` has one of the tokenizer's shapes. */
  lemma InlineSpansShaped(line: String)
    ensures forall j :: 0 <= j < |InlineSpans(line)| ==> InlineShaped(InlineSpans(line)[j])
  {
    PiecesFromOf(line, 0, []);
    SpansOfShaped(Pieces(line));
  }

  /** Text with no star and no backtick holds no match and comes back as
      one unmarked span. */
  lemma NoMarkupPlain(line: String)
    requires '*' !in line && '`' !in line
    ensures InlineSpans(line) == [Plain(line)]
  {
    NoMatchFrom(line, 0);
    if line != [] {
      assert Pieces(line) == [Gap(line[0..])];
      SpansOfSnoc([], Gap(line[0..]));
      assert line[0..] == line;
    }
  }

  lemma {:induction false} NoMatchFrom(line: String, from: nat)
    requires '*' !in line && '`' !in line
    ensures NextMatch(line, from).None?
    decreases |line| - from
  {
    if from < |line| {
      assert line[from] != '*' && line[from] != '`';
      assert MatchAt(line, from).None?;
      NoMatchFrom(line, from + 1);
    }
  }

  /** A code run on its own is one `code` span of its content. */
  lemma CodeRunAlone(c: String)
    requires c != [] && '`' !in c && '*' !in c
    ensures InlineSpans("`" + c + "`") == [Span(c, [CodeMark], None)]
  {
    var line := "`" + c + "`";
    assert forall q :: 1 <= q < |line| - 1 ==> line[q] == c[q - 1] && line[q] != '`';
    assert line[0] == '`' && line[|line| - 1] == '`' && line[1] != '*';
    TickFromFirst(line, 1);
    assert TickFrom(line, 1) == |line| - 1;
    assert BoldAt(line, 0).None?;
    assert NextMatch(line, 0) == Some((0, |line|));
    assert line[0..|line|] == line;
    var none: seq<Piece> := [];
    assert none + [Matched(line[0..|line|])] == [Matched(line)];
    assert Pieces(line) == PiecesFrom(line, |line|, [Matched(line)]);
    assert Pieces(line) == [Matched(line)];
    assert CodeText(line) by {
      assert line[1..|line| - 1] == c;
    }
    MatchSpansShaped(line);
    assert line[1..|line| - 1] == c;
    SpansOfSnoc([], Matched(line));
  }

  /* ---------------------------------------------------------------------- */
  /* Blocks                                                                  */
  /* ---------------------------------------------------------------------- */

  /** A block's key: `<kind>-<line>-<clock>` for the text blocks, drawn
      from the clock and a random number for a code block. */
  datatype BlockKey = Stamped(kind: String, line: nat, now: nat) | Drawn(value: String)

  /** A child of a block: a span, or `{ _type: 'code', _key, language, code }`. */
  datatype Child = TextChild(span: Span) | CodeChild(key: String, language: String, code: String)

  /** `{ _type: 'block', _key, style, listItem?, children }`; `bullet`
      stands for `listItem: 'bullet'`. */
  datatype Block = Block(key: BlockKey, style: Style, bullet: bool, children: seq<Child>)

  function TextChildren(spans: seq<Span>): (r: seq<Child>)
    ensures |r| == |spans| && forall i :: 0 <= i < |r| ==> r[i] == TextChild(spans[i])
  {
    seq(|spans|, i requires 0 <= i < |spans| => TextChild(spans[i]))
  }

  /** `makeCodeBlock`: the keys, which the source draws from the clock and
      a random number, are given. */
  function MakeCodeBlock(language: String, code: String, blockKey: String, childKey: String): Block {
    Block(Drawn(blockKey), Normal, false, [CodeChild(childKey, NormalizeLanguage(language), Trim(code))])
  }

  /** A code block is a `normal` block with exactly one child, a code child
      whose language is normalized and whose code is the given code
      trimmed: no whitespace at either end, and what was cut is whitespace. */
  lemma MakeCodeBlockShape(language: String, code: String, blockKey: String, childKey: String)
    ensures var b := MakeCodeBlock(language, code, blockKey, childKey);
            b.style == Normal && !b.bullet && |b.children| == 1 && b.children[0].CodeChild?
            && b.children[0].language == NormalizeLanguage(language)
            && b.children[0].code == Trim(code)
            && (b.children[0].code == [] || (!IsSpace(b.children[0].code[0])
                                             && !IsSpace(b.children[0].code[|b.children[0].code| - 1])))
            && (language == [] ==> b.children[0].language == [])
  {
    TrimEnds(code);
  }

  function MakeNormalBlock(text: String, lineIndex: nat, now: nat): Block {
    Block(Stamped("block", lineIndex, now), Normal, false, TextChildren(InlineSpans(text)))
  }

  /** From `k` to the end there is no line terminator, and at least one
      character: what `(.+)$` matches. */
  predicate RestOnLine(s: String, k: nat) {
    k < |s| && forall q :: k <= q < |s| ==> !IsLineTerminator(s[q])
  }

  /** Where `(.+)$` starts after `\s+` has taken the whitespace up to `k`:
      the greedy run gives back one character at a time, down to `lo`. */
  function TextStart(s: String, lo: nat, k: nat): (r: Option<nat>)
    requires lo <= k
    ensures r.Some? ==> lo <= r.value <= k && RestOnLine(s, r.value)
    decreases k
  {
    if RestOnLine(s, k) then Some(k)
    else if k > lo then TextStart(s, lo, k - 1)
    else None
  }

  /** `\s+(.+)$` at `h`: the captured text. */
  function SpacedRest(s: String, h: nat): (r: Option<String>)
    ensures r.Some? ==> h < |s| && IsSpace(s[h]) && r.value != []
  {
    if h < |s| && IsSpace(s[h]) then
      var j := SkipSpaces(s, h);
      var k := TextStart(s, h + 1, j);
      if k.Some? then Some(s[k.value..]) else None
    else None
  }

  lemma {:induction false} TextStartFinds(s: String, lo: nat, k: nat, k0: nat)
    requires lo <= k0 <= k && RestOnLine(s, k0)
    ensures TextStart(s, lo, k).Some? && k0 <= TextStart(s, lo, k).value
    decreases k
  {
    if !RestOnLine(s, k) {
      TextStartFinds(s, lo, k - 1, k0);
    }
  }

  /** Where a heading's text can start: after `n` and only whitespace. */
  predicate TextAfterSpaces(line: String, n: nat, k: nat) {
    n < k && RestOnLine(line, k) && forall q :: n <= q < k ==> IsSpace(line[q])
  }

  /** What `\s+(.+)$` captures: a non-empty end of the line, without line
      terminators, after at least one whitespace character and nothing
      but whitespace; and it matches whenever there is such an end. When
      a character other than whitespace follows the whitespace, the text
      starts there. */
  lemma SpacedRestIff(s: String, h: nat)
    ensures var r := SpacedRest(s, h);
            r.Some? ==> s[|s| - |r.value|..] == r.value && TextAfterSpaces(s, h, |s| - |r.value|)
    ensures (exists k: nat :: TextAfterSpaces(s, h, k)) ==> SpacedRest(s, h).Some?
    ensures var j := SkipSpaces(s, h);
            SpacedRest(s, h).Some? && j < |s| ==> SpacedRest(s, h).value == s[j..]
  {
    var j := SkipSpaces(s, h);
    if exists k: nat :: TextAfterSpaces(s, h, k) {
      var k: nat :| TextAfterSpaces(s, h, k);
      assert k <= j;
      TextStartFinds(s, h + 1, j, k);
    }
    if SpacedRest(s, h).Some? && j < |s| {
      var k := TextStart(s, h + 1, j).value;
      assert RestOnLine(s, j);
    }
  }

  /** `/^(#{1,4})\s+(.+)$/`: the level and the captured text. The `#` run
      has to end before the whitespace, so backtracking into `#{1,4}`
      never helps. */
  function HeadingMatch(line: String): Option<(nat, String)> {
    var h := HashEnd(line, 0);
    if 1 <= h <= 4 then
      var t := SpacedRest(line, h);
      if t.Some? then Some((h, t.value)) else None
    else None
  }

  /** The style chosen for a level; the last branch is never taken, since
      the pattern allows one to four `#`. */
  function HeadingStyle(level: nat): Style {
    if level == 1 then Heading(1)
    else if level == 2 then Heading(2)
    else if level == 3 then Heading(3)
    else if level == 4 then Heading(4)
    else Normal
  }

  /** `#` up to `n` and whitespace at `n`: the `#` run ends at `n`. */
  lemma HashRun(line: String, n: nat)
    requires n < |line| && (forall i :: 0 <= i < n ==> line[i] == '#') && IsSpace(line[n])
    ensures HashEnd(line, 0) == n
  {
    assert line[n] != '#';
  }

  /** A heading needs one to four `#`, whitespace, and a further
      character before the end without a line terminator in between; its
      style is `h<level>`. */
  lemma HeadingIff(line: String, n: nat)
    requires 1 <= n <= 4
    ensures (n < |line| && (forall i :: 0 <= i < n ==> line[i] == '#') && exists k: nat :: TextAfterSpaces(line, n, k))
            <==> (HeadingMatch(line).Some? && HeadingMatch(line).value.0 == n)
    ensures HeadingMatch(line).Some? ==> HeadingStyle(HeadingMatch(line).value.0) == Heading(HeadingMatch(line).value.0)
  {
    if n < |line| && (forall i :: 0 <= i < n ==> line[i] == '#') && exists k: nat :: TextAfterSpaces(line, n, k) {
      var k: nat :| TextAfterSpaces(line, n, k);
      HeadingFromText(line, n, k);
    }
    var m := HeadingMatch(line);
    if m.Some? && m.value.0 == n {
      HeadingHasText(line, n);
    }
  }

  /** The "if" half of `HeadingIff`. */
  lemma HeadingFromText(line: String, n: nat, k: nat)
    requires 1 <= n <= 4 && n < |line| && (forall i :: 0 <= i < n ==> line[i] == '#')
    requires TextAfterSpaces(line, n, k)
    ensures HeadingMatch(line).Some? && HeadingMatch(line).value.0 == n
  {
    SpacedRestIff(line, n);
    HashRun(line, n);
  }

  /** The "only if" half of `HeadingIff`. */
  lemma HeadingHasText(line: String, n: nat)
    requires HeadingMatch(line).Some? && HeadingMatch(line).value.0 == n
    ensures n < |line| && (forall i :: 0 <= i < n ==> line[i] == '#')
    ensures TextAfterSpaces(line, n, |line| - |HeadingMatch(line).value.1|)
  {
    SpacedRestIff(line, n);
  }

  /** Whitespace alone after the `#` still makes a heading when there are
      two or more characters of it: `\s+` gives the last one back to
      `(.+)`. */
  lemma HeadingOfSpaces()
    ensures HeadingMatch("#  ") == Some((1, " "))
    ensures HeadingMatch("# ").None?
  {
    var s := "#  ";
    assert HashEnd(s, 0) == 1;
    assert SkipSpaces(s, 1) == 3;
    assert !RestOnLine(s, 3) && RestOnLine(s, 2);
    assert s[2..] == " ";
    var u := "# ";
    assert HashEnd(u, 0) == 1;
    assert SkipSpaces(u, 1) == 2;
    assert !RestOnLine(u, 2);
  }

  function GetHeadingBlock(line: String, lineIndex: nat, now: nat): Option<Block> {
    var m := HeadingMatch(line);
    if m.None? then None
    else Some(Block(Stamped("heading", lineIndex, now), HeadingStyle(m.value.0), false,
                    TextChildren(InlineSpans(m.value.1))))
  }

  /** `/^\*\s+(.+)$/`: the captured text. */
  function BulletMatch(line: String): Option<String> {
    if |line| >= 1 && line[0] == '*' then SpacedRest(line, 1) else None
  }

  /** A bullet starts with `*` and whitespace, and keeps everything after
      the whitespace. */
  lemma BulletKeepsText(c: char, rest: String)
    requires !IsSpace(c) && forall q :: 0 <= q < |rest| ==> !IsLineTerminator(rest[q])
    ensures BulletMatch("* " + [c] + rest) == Some([c] + rest)
  {
    var line := "* " + [c] + rest;
    assert line[2] == c;
    assert SkipSpaces(line, 1) == 2;
    assert line[2..] == [c] + rest;
    assert RestOnLine(line, 2) by {
      forall q | 2 <= q < |line|
        ensures !IsLineTerminator(line[q])
      {
        if q > 2 {
          assert line[q] == rest[q - 3];
        }
      }
    }
  }

  function GetBulletBlock(line: String, lineIndex: nat, now: nat): Option<Block> {
    var t := BulletMatch(line);
    if t.None? then None
    else Some(Block(Stamped("bullet", lineIndex, now), Normal, true, TextChildren(InlineSpans(t.value))))
  }

  /** Heading, else bullet, else normal text: a block is always returned. */
  function HandleTextBlock(line: String, lineIndex: nat, now: nat): Block {
    var heading := GetHeadingBlock(line, lineIndex, now);
    if heading.Some? then heading.value
    else
      var bullet := GetBulletBlock(line, lineIndex, now);
      if bullet.Some? then bullet.value
      else MakeNormalBlock(line, lineIndex, now)
  }

  /** The block of a text line: a heading exactly when the heading
      pattern matches, else a bullet exactly when the bullet pattern does,
      else a normal paragraph of the whole line; never without children,
      every child a span. */
  lemma HandleTextBlockShape(line: String, lineIndex: nat, now: nat)
    ensures var b := HandleTextBlock(line, lineIndex, now);
            var h := HeadingMatch(line);
            var t := BulletMatch(line);
            b.children != [] && (forall i :: 0 <= i < |b.children| ==> b.children[i].TextChild?)
            && (h.Some? ==> b.key == Stamped("heading", lineIndex, now) && b.style == Heading(h.value.0)
                            && !b.bullet && b.children == TextChildren(InlineSpans(h.value.1)))
            && (h.None? && t.Some? ==> b.key == Stamped("bullet", lineIndex, now) && b.style == Normal
                                       && b.bullet && b.children == TextChildren(InlineSpans(t.value)))
            && (h.None? && t.None? ==> b.key == Stamped("block", lineIndex, now) && b.style == Normal
                                       && !b.bullet && b.children == TextChildren(InlineSpans(line)))
  {
    var h := HeadingMatch(line);
    if h.Some? {
      HeadingIff(line, h.value.0);
    }
  }

  /* ---------------------------------------------------------------------- */
  /* handleCodeBlock                                                         */
  /* ---------------------------------------------------------------------- */

  /** What `handleCodeBlock` returns, `codeLines` given by its contents;
      -1 stands for "no next index". */
  datatype CodeResult = CodeResult(handled: bool, inCodeBlock: bool, codeLanguage: String,
                                   codeLines: seq<String>, nextLineIndex: int, block: Option<Block>)

  /** `/^[a-zA-Z]+$/`. */
  predicate IsLetters(t: String) {
    t != [] && forall i :: 0 <= i < |t| ==> ('a' <= t[i] <= 'z') || ('A' <= t[i] <= 'Z')
  }

  /** The next line, trimmed, when it is a bare word of letters; empty
      otherwise. */
  function NextLineLanguage(lines: seq<String>, lineIndex: nat): String {
    if lineIndex + 1 < |lines| then
      var nextLine := Trim(lines[lineIndex + 1]);
      if nextLine != [] && !StartsWith(nextLine, Fence) && IsLetters(nextLine) then nextLine else []
    else []
  }

  /** `processCodeBlockStart`: the fence is looked for on the line as it
      is, not trimmed, and only outside a block. */
  function ProcessCodeBlockStart(line: String, lines: seq<String>, lineIndex: nat, inCodeBlock: bool): Option<CodeResult> {
    var startMatch := FenceWord(line);
    if startMatch.None? || inCodeBlock then None
    else
      var language := if startMatch.value != [] then startMatch.value else TextLanguage;
      var nextLanguage := NextLineLanguage(lines, lineIndex);
      if language == [] && nextLanguage != [] then
        Some(CodeResult(true, true, nextLanguage, [], lineIndex + 2, None))
      else
        Some(CodeResult(true, true, language, [], lineIndex + 1, None))
  }

  /** `processCodeBlockEnd`; the code block's keys are given. */
  function ProcessCodeBlockEnd(line: String, inCodeBlock: bool, codeLanguage: String, codeLines: seq<String>,
                               blockKey: String, childKey: String): CodeResult {
    if inCodeBlock then
      if Trim(line) == Fence then
        CodeResult(true, false, [], [], -1, Some(MakeCodeBlock(codeLanguage, Join(codeLines, "\n"), blockKey, childKey)))
      else
        CodeResult(true, inCodeBlock, codeLanguage, codeLines + [line], -1, None)
    else
      CodeResult(false, false, [], [], -1, None)
  }

  function HandleCode(line: String, lines: seq<String>, lineIndex: nat, inCodeBlock: bool, codeLanguage: String,
                      codeLines: seq<String>, blockKey: String, childKey: String): CodeResult {
    var result := ProcessCodeBlockStart(line, lines, lineIndex, inCodeBlock);
    if result.Some? then result.value
    else ProcessCodeBlockEnd(line, inCodeBlock, codeLanguage, codeLines, blockKey, childKey)
  }

  /** `handleCodeBlock`: a line inside a block is pushed onto the caller's
      buffer in place, and that buffer is returned; the other cases return
      a new one. */
  method HandleCodeBlock(line: String, lines: seq<String>, lineIndex: nat, inCodeBlock: bool,
                         codeLanguage: String, codeLines: LineBuffer, blockKey: String, childKey: String)
    returns (handled: bool, inCode: bool, language: String, resultLines: LineBuffer,
             nextLineIndex: int, block: Option<Block>)
    modifies codeLines
    ensures CodeResult(handled, inCode, language, resultLines.lines, nextLineIndex, block)
            == HandleCode(line, lines, lineIndex, inCodeBlock, codeLanguage, old(codeLines.lines), blockKey, childKey)
    ensures codeLines.lines == if inCodeBlock && Trim(line) != Fence then old(codeLines.lines) + [line]
                               else old(codeLines.lines)
    ensures if inCodeBlock && Trim(line) != Fence then resultLines == codeLines else fresh(resultLines)
  {
    var start := ProcessCodeBlockStart(line, lines, lineIndex, inCodeBlock);
    if start.Some? {
      var r := start.value;
      resultLines := new LineBuffer(r.codeLines);
      handled, inCode, language, nextLineIndex, block := r.handled, r.inCodeBlock, r.codeLanguage, r.nextLineIndex, r.block;
    } else if inCodeBlock {
      if Trim(line) == Fence {
        var b := MakeCodeBlock(codeLanguage, Join(codeLines.lines, "\n"), blockKey, childKey);
        resultLines := new LineBuffer([]);
        handled, inCode, language, nextLineIndex, block := true, false, [], -1, Some(b);
      } else {
        codeLines.Push(line);
        handled, inCode, language, resultLines, nextLineIndex, block := true, inCodeBlock, codeLanguage, codeLines, -1, None;
      }
    } else {
      resultLines := new LineBuffer([]);
      handled, inCode, language, nextLineIndex, block := false, false, [], -1, None;
    }
  }

  /** An opening fence is one at the very start of the line, outside a
      block; its language is the word after it, or "text". The branch
      that would read the language from the next line is never taken, so
      the step always moves on by one line. */
  lemma OpenFence(line: String, lines: seq<String>, i: nat, language: String, codeLines: seq<String>,
                  blockKey: String, childKey: String)
    requires StartsWith(line, Fence)
    ensures var r := HandleCode(line, lines, i, false, language, codeLines, blockKey, childKey);
            r.handled && r.inCodeBlock && r.codeLines == [] && r.nextLineIndex == i + 1 && r.block.None?
            && r.codeLanguage != []
            && (StartsWith(line, Fence + r.codeLanguage) || r.codeLanguage == TextLanguage)
            && (|line| == 3 || !IsWordChar(line[3]) ==> r.codeLanguage == TextLanguage)
  {
    var w := FenceWord(line);
    if |line| > 3 && IsWordChar(line[3]) {
      assert w.value != [];
    }
  }

  /** The start step never looks at the next line. */
  lemma NextLineNeverRead(line: String, lines: seq<String>, i: nat, inCodeBlock: bool)
    ensures var r := ProcessCodeBlockStart(line, lines, i, inCodeBlock);
            r.Some? ==> r.value.nextLineIndex == i + 1
    ensures ProcessCodeBlockStart(line, lines, i, inCodeBlock)
            == ProcessCodeBlockStart(line, [], i, inCodeBlock)
  {
  }

  /** An indented fence outside a block is not an opening fence: the line
      is not handled, and the state comes back reset. */
  lemma IndentedFence(line: String, lines: seq<String>, i: nat, language: String, codeLines: seq<String>,
                      blockKey: String, childKey: String)
    requires !StartsWith(line, Fence)
    ensures HandleCode(line, lines, i, false, language, codeLines, blockKey, childKey)
            == CodeResult(false, false, [], [], -1, None)
  {
  }

  /** Inside a block every line but a bare "```" (after trimming) is
      kept verbatim, fence-like or not. */
  lemma InsideBlock(line: String, lines: seq<String>, i: nat, language: String, codeLines: seq<String>,
                    blockKey: String, childKey: String)
    requires Trim(line) != Fence
    ensures HandleCode(line, lines, i, true, language, codeLines, blockKey, childKey)
            == CodeResult(true, true, language, codeLines + [line], -1, None)
  {
  }

  /** The closing line emits the one code block, with the lines joined by
      newlines and trimmed and the language normalized, and resets the
      state. */
  lemma CloseFence(line: String, lines: seq<String>, i: nat, language: String, codeLines: seq<String>,
                   blockKey: String, childKey: String)
    requires Trim(line) == Fence
    ensures var r := HandleCode(line, lines, i, true, language, codeLines, blockKey, childKey);
            r == CodeResult(true, false, [], [], -1,
                            Some(MakeCodeBlock(language, Join(codeLines, "\n"), blockKey, childKey)))
            && r.block.value.children[0].code == Trim(Join(codeLines, "\n"))
            && r.block.value.children[0].language == NormalizeLanguage(language)
  {
  }

  /** Exactly the lines inside a block and the opening fences are handled;
      only a closing line emits a block, and then the state is reset. */
  lemma HandleCodeCases(line: String, lines: seq<String>, i: nat, inCode: bool, language: String,
                        codeLines: seq<String>, blockKey: String, childKey: String)
    ensures var r := HandleCode(line, lines, i, inCode, language, codeLines, blockKey, childKey);
            (r.handled <==> inCode || StartsWith(line, Fence))
            && (r.block.Some? <==> inCode && Trim(line) == Fence)
            && (!r.inCodeBlock ==> r.codeLanguage == [] && r.codeLines == [])
  {
  }
}
