/**
 * `markdownToBlocks` of src/lib/generateBlog.ts: a one-pass conversion of
 * markdown lines into Portable Text blocks, with the states "normal" and
 * "in a code block"; `parseInlineCode`, which splits a line at backtick
 * runs; and the clean-up of the model's answer before it is parsed, which
 * deletes every "```json" and "```" (each with one following newline) and
 * trims.
 */
module GenerateBlog {
  import opened Text
  import opened Spans

  const DefaultLanguage: String := "javascript"

  datatype Block =
    | Code(key: Key, language: String, code: String)
    | TextBlock(key: Key, style: Style, children: seq<Span>)

  /** `inCodeBlock`, `codeLanguage` and `codeLines`. */
  datatype State = State(inCode: bool, language: String, codeLines: seq<String>)

  const Initial := State(false, [], [])

  /* ---------------------------------------------------------------------- */
  /* parseInlineCode                                                         */
  /* ---------------------------------------------------------------------- */

  /** What `parseInlineCode` returns: the split of the line at code runs,
      or the whole line as one span when nothing was pushed (the empty
      line). */
  function InlineCodeSpans(line: String): seq<Span> {
    var spans := CodeSpansFrom(line, 0, [], []);
    if spans == [] then [Plain(line)] else spans
  }

  method ParseInlineCode(line: String) returns (textWithMarks: seq<Span>)
    ensures textWithMarks == InlineCodeSpans(line)
  {
    textWithMarks := [];
    var lastIndex: nat := 0;
    while true
      invariant lastIndex <= |line|
      invariant CodeSpansFrom(line, lastIndex, textWithMarks, []) == CodeSpansFrom(line, 0, [], [])
      decreases |line| - lastIndex
    {
      var m := NextCodeRun(line, lastIndex);
      if m.None? {
        break;
      }
      var a := m.value.0;
      var e := m.value.1;
      if a > lastIndex {
        textWithMarks := textWithMarks + [GapSpan([], line[lastIndex..a])];
      }
      textWithMarks := textWithMarks + [CodeSpan([], line[a + 1..e - 1])];
      lastIndex := e;
    }
    if lastIndex < |line| {
      textWithMarks := textWithMarks + [GapSpan([], line[lastIndex..])];
    }
    if textWithMarks == [] {
      textWithMarks := [Plain(line)];
    }
  }

  /** The split is lossless: putting the code spans back in backticks gives
      the line again, so the text between code runs is kept verbatim and in
      order. */
  lemma InlineCodeRoundTrip(line: String)
    ensures RenderCode([], InlineCodeSpans(line)) == line
  {
    RenderCodeSpansFrom(line, 0, [], []);
  }

  /** The span texts concatenate to the line with the backticks of each
      matched code run removed. */
  lemma InlineCodeTexts(line: String)
    ensures Texts(InlineCodeSpans(line)) == Unticked(line, 0)
  {
    CodeSpansFromTexts(line, 0, [], []);
  }

  /** `parseInlineCode` never returns an empty list; every span is plain,
      or marked exactly `code` and holds a non-empty run without backticks. */
  lemma InlineCodeShape(line: String)
    ensures |InlineCodeSpans(line)| >= 1
    ensures forall k :: 0 <= k < |InlineCodeSpans(line)| ==> CodeMarked([], InlineCodeSpans(line)[k])
  {
    CodeSpansFromMarks(line, 0, [], []);
  }

  /* ---------------------------------------------------------------------- */
  /* markdownToBlocks                                                        */
  /* ---------------------------------------------------------------------- */

  /** The language of an opening fence line: the trimmed rest of the line,
      or "javascript". */
  function OpenLanguage(line: String): (r: String)
    requires StartsWith(line, Fence)
    ensures r != []
    ensures Trim(line[3..]) != [] ==> r == Trim(line[3..])
  {
    var l := Trim(line[3..]);
    if l == [] then DefaultLanguage else l
  }

  /** How one line of the loop of `markdownToBlocks` changes the state: a
      fence line toggles it (a new fence starts with no lines), a line
      inside a fence is appended, any other line leaves it alone. */
  function NextState(st: State, line: String): State {
    if StartsWith(line, Fence) then
      if st.inCode then State(false, st.language, []) else State(true, OpenLanguage(line), [])
    else if st.inCode then st.(codeLines := st.codeLines + [line])
    else st
  }

  /** The block line `i` pushes, if any. */
  function Emitted(st: State, line: String, i: nat): Option<Block> {
    if StartsWith(line, Fence) then
      if st.inCode then Some(Code(CodeKey(i), st.language, Join(st.codeLines, "\n"))) else None
    else if st.inCode then None
    else if StartsWith(line, "## ") then Some(TextBlock(BlockKey(i), Heading(2), [Plain(line[3..])]))
    else if StartsWith(line, "### ") then Some(TextBlock(BlockKey(i), Heading(3), [Plain(line[4..])]))
    else if AllSpace(line) then None
    else Some(TextBlock(BlockKey(i), Normal, InlineCodeSpans(line)))
  }

  /** The state before line `i`. */
  function StateAt(lines: seq<String>, i: nat): State
    requires i <= |lines|
  {
    if i == 0 then Initial else NextState(StateAt(lines, i - 1), lines[i - 1])
  }

  /** The blocks line `line`, numbered `i`, pushes in state `st`. */
  function Pushed(st: State, line: String, i: nat): seq<Block> {
    var b := Emitted(st, line, i);
    if b.Some? then [b.value] else []
  }

  function EmittedAt(lines: seq<String>, i: nat): seq<Block>
    requires i < |lines|
  {
    Pushed(StateAt(lines, i), lines[i], i)
  }

  /** The blocks each line pushes, in line order. */
  function PerLine(lines: seq<String>): (r: seq<seq<Block>>)
    ensures |r| == |lines|
    ensures forall k :: 0 <= k < |lines| ==> r[k] == EmittedAt(lines, k)
  {
    seq(|lines|, k requires 0 <= k < |lines| => EmittedAt(lines, k))
  }

  function Flatten(parts: seq<seq<Block>>): seq<Block> {
    if parts == [] then [] else Flatten(parts[..|parts| - 1]) + parts[|parts| - 1]
  }

  function Lines(markdown: String): seq<String> {
    Split(markdown, '\n')
  }

  /** The result of `markdownToBlocks`. */
  function Blocks(markdown: String): seq<Block> {
    Flatten(PerLine(Lines(markdown)))
  }

  /** The loop of `markdownToBlocks` from line `i` on, in state `st` with
      `blocks` pushed so far. */
  function Convert(lines: seq<String>, i: nat, st: State, blocks: seq<Block>): seq<Block>
    requires i <= |lines|
    decreases |lines| - i
  {
    if i == |lines| then blocks
    else Convert(lines, i + 1, NextState(st, lines[i]), blocks + Pushed(st, lines[i], i))
  }

  /** What line `i` adds: the state after it, and the blocks so far. */
  lemma LineStep(lines: seq<String>, i: nat)
    requires i < |lines|
    ensures StateAt(lines, i + 1) == NextState(StateAt(lines, i), lines[i])
    ensures Flatten(PerLine(lines)[..i + 1]) == Flatten(PerLine(lines)[..i]) + EmittedAt(lines, i)
  {
    assert PerLine(lines)[..i + 1] == PerLine(lines)[..i] + [EmittedAt(lines, i)];
    FlattenSnoc(PerLine(lines)[..i], EmittedAt(lines, i));
  }

  /** The fold and the line-by-line description agree. */
  lemma {:induction false} ConvertIsFlatten(lines: seq<String>, i: nat)
    requires i <= |lines|
    ensures Convert(lines, i, StateAt(lines, i), Flatten(PerLine(lines)[..i]))
            == Flatten(PerLine(lines))
    decreases |lines| - i
  {
    if i == |lines| {
      assert PerLine(lines)[..i] == PerLine(lines);
    } else {
      LineStep(lines, i);
      ConvertIsFlatten(lines, i + 1);
    }
  }

  /** The body of the loop of `markdownToBlocks` for line `lineIndex`: the
      new fence state and the blocks the line pushes. */
  method HandleLine(inCodeBlock: bool, codeLanguage: String, codeLines: seq<String>, line: String, lineIndex: nat)
    returns (inCode': bool, language': String, codeLines': seq<String>, pushed: seq<Block>)
    ensures State(inCode', language', codeLines') == NextState(State(inCodeBlock, codeLanguage, codeLines), line)
    ensures pushed == Pushed(State(inCodeBlock, codeLanguage, codeLines), line, lineIndex)
  {
    inCode', language', codeLines', pushed := inCodeBlock, codeLanguage, codeLines, [];
    if StartsWith(line, Fence) {
      if inCodeBlock {
        inCode' := false;
        pushed := [Code(CodeKey(lineIndex), codeLanguage, Join(codeLines, "\n"))];
        codeLines' := [];
      } else {
        inCode' := true;
        language' := OpenLanguage(line);
        codeLines' := [];
      }
    } else if inCodeBlock {
      codeLines' := codeLines + [line];
    } else if StartsWith(line, "## ") {
      pushed := [TextBlock(BlockKey(lineIndex), Heading(2), [Plain(line[3..])])];
    } else if StartsWith(line, "### ") {
      pushed := [TextBlock(BlockKey(lineIndex), Heading(3), [Plain(line[4..])])];
    } else {
      TrimEmptyIffAllSpace(line);
      if Trim(line) != [] {
        var textWithMarks := ParseInlineCode(line);
        pushed := [TextBlock(BlockKey(lineIndex), Normal, textWithMarks)];
      }
    }
  }

  method MarkdownToBlocks(markdown: String) returns (blocks: seq<Block>)
    ensures blocks == Blocks(markdown)
  {
    blocks := [];
    var lines := Split(markdown, '\n');
    var inCodeBlock := false;
    var codeLanguage: String := [];
    var codeLines: seq<String> := [];
    var lineIndex := 0;
    ghost var result := Convert(lines, 0, Initial, []);
    while lineIndex < |lines|
      invariant lineIndex <= |lines|
      invariant Convert(lines, lineIndex, State(inCodeBlock, codeLanguage, codeLines), blocks) == result
    {
      var pushed;
      inCodeBlock, codeLanguage, codeLines, pushed := HandleLine(inCodeBlock, codeLanguage, codeLines, lines[lineIndex], lineIndex);
      blocks := blocks + pushed;
      lineIndex := lineIndex + 1;
    }
    ConvertIsFlatten(lines, 0);
  }

  /* ---------------------------------------------------------------------- */
  /* Properties of the conversion                                            */
  /* ---------------------------------------------------------------------- */

  /** Where a block can come from: a code block from a fence line that
      closes an open fence; a text block from a non-blank line outside any
      fence, `h2`/`h3` exactly for lines starting "## "/"### ". */
  ghost predicate BlockOrigin(lines: seq<String>, b: Block)
  {
    b.key.line < |lines| &&
    var line := lines[b.key.line];
    var st := StateAt(lines, b.key.line);
    match b
    case Code(key, language, code) =>
      key.CodeKey? && StartsWith(line, Fence) && st.inCode
      && language == st.language && code == Join(st.codeLines, "\n")
    case TextBlock(key, style, children) =>
      key.BlockKey? && !StartsWith(line, Fence) && !st.inCode && !AllSpace(line)
      && (style == Heading(2) <==> StartsWith(line, "## "))
      && (style == Heading(3) <==> StartsWith(line, "### "))
      && (style == Heading(2) || style == Heading(3) || (style == Normal && children == InlineCodeSpans(line)))
  }

  lemma FlattenSnoc(parts: seq<seq<Block>>, x: seq<Block>)
    ensures Flatten(parts + [x]) == Flatten(parts) + x
  {
    assert (parts + [x])[..|parts|] == parts;
  }

  /** Parts holding at most one block each, keyed by the part's index. */
  ghost predicate KeyedParts(parts: seq<seq<Block>>) {
    forall k :: 0 <= k < |parts| ==> |parts[k]| <= 1 && forall x :: x in parts[k] ==> x.key.line == k
  }

  lemma {:induction false} FlattenKeyed(parts: seq<seq<Block>>)
    requires KeyedParts(parts)
    ensures |Flatten(parts)| <= |parts|
    ensures forall j :: 0 <= j < |Flatten(parts)| ==> Flatten(parts)[j].key.line < |parts|
    ensures forall j, k :: 0 <= j < k < |Flatten(parts)| ==>
              Flatten(parts)[j].key.line < Flatten(parts)[k].key.line
  {
    if parts != [] {
      var init := parts[..|parts| - 1];
      var last := parts[|parts| - 1];
      assert KeyedParts(init);
      FlattenKeyed(init);
      assert forall x :: x in last ==> x.key.line == |parts| - 1;
      var f := Flatten(parts);
      assert f == Flatten(init) + last;
      assert forall j :: |Flatten(init)| <= j < |f| ==> f[j] in last;
    }
  }

  lemma {:induction false} FlattenMembers(parts: seq<seq<Block>>)
    ensures forall k, x :: 0 <= k < |parts| && x in parts[k] ==> x in Flatten(parts)
    ensures forall x :: x in Flatten(parts) ==> exists k :: 0 <= k < |parts| && x in parts[k]
  {
    if parts != [] {
      var init := parts[..|parts| - 1];
      FlattenMembers(init);
      assert forall k :: 0 <= k < |init| ==> parts[k] == init[k];
    }
  }

  lemma {:induction false} FlattenEmptyTail(parts: seq<seq<Block>>, a: nat)
    requires a <= |parts|
    requires forall k :: a <= k < |parts| ==> parts[k] == []
    ensures Flatten(parts) == Flatten(parts[..a])
    decreases |parts|
  {
    if |parts| > a {
      FlattenEmptyTail(parts[..|parts| - 1], a);
      assert parts[..|parts| - 1][..a] == parts[..a];
    } else {
      assert parts[..a] == parts;
    }
  }

  lemma EmittedOrigin(lines: seq<String>, i: nat)
    requires i < |lines|
    ensures |EmittedAt(lines, i)| <= 1
    ensures forall x :: x in EmittedAt(lines, i) ==> x.key.line == i && BlockOrigin(lines, x)
  {
    var st := StateAt(lines, i);
    var line := lines[i];
    var r := Emitted(st, line, i);
    if r.Some? {
      var b := r.value;
      assert EmittedAt(lines, i) == [b];
      if !StartsWith(line, Fence) && !st.inCode {
        if StartsWith(line, "## ") {
          assert line[0] == '#' && line[2] == ' ';
          assert !StartsWith(line, "### ");
        } else if StartsWith(line, "### ") {
          assert line[0] == '#';
        }
      }
      assert BlockOrigin(lines, b);
    }
  }

  lemma PerLineOrigin(lines: seq<String>)
    ensures KeyedParts(PerLine(lines))
    ensures forall k, x :: 0 <= k < |lines| && x in PerLine(lines)[k] ==> BlockOrigin(lines, x)
  {
    forall k | 0 <= k < |lines| {
      EmittedOrigin(lines, k);
    }
  }

  /** Each line pushes at most one block; blocks come in line order with
      distinct keys, and each has a legitimate origin. */
  lemma BlocksShape(markdown: String)
    ensures |Blocks(markdown)| <= |Lines(markdown)|
    ensures forall j, k :: 0 <= j < k < |Blocks(markdown)| ==>
              Blocks(markdown)[j].key.line < Blocks(markdown)[k].key.line
    ensures forall x :: x in Blocks(markdown) ==> BlockOrigin(Lines(markdown), x)
  {
    var lines := Lines(markdown);
    PerLineOrigin(lines);
    FlattenKeyed(PerLine(lines));
    FlattenMembers(PerLine(lines));
  }

  /** Inside a fence opened on line `a`, the state holds the fence's
      language and the lines since the fence, verbatim. */
  lemma {:induction false} StateInFence(lines: seq<String>, a: nat, k: nat)
    requires a < k <= |lines|
    requires !StateAt(lines, a).inCode && StartsWith(lines[a], Fence)
    requires forall j :: a < j < k ==> !StartsWith(lines[j], Fence)
    ensures StateAt(lines, k) == State(true, OpenLanguage(lines[a]), lines[a + 1..k])
  {
    if k == a + 1 {
      FenceOpenStep(lines, a);
      assert lines[a + 1..k] == [];
    } else {
      StateInFence(lines, a, k - 1);
      assert !StartsWith(lines[k - 1], Fence);
      InFenceStep(lines, k, OpenLanguage(lines[a]), lines[a + 1..k - 1]);
      LinesSnoc(lines, a + 1, k);
    }
  }

  /** A run of lines is the run one shorter followed by its last line. */
  lemma LinesSnoc(lines: seq<String>, i: nat, j: nat)
    requires i < j <= |lines|
    ensures lines[i..j] == lines[i..j - 1] + [lines[j - 1]]
  {
  }

  /** A fence outside a code block opens one, with no code yet. */
  lemma FenceOpenStep(lines: seq<String>, a: nat)
    requires a < |lines| && !StateAt(lines, a).inCode && StartsWith(lines[a], Fence)
    ensures StateAt(lines, a + 1) == State(true, OpenLanguage(lines[a]), [])
  {
  }

  /** Inside a fence, a line that is not a fence is added to the code. */
  lemma InFenceStep(lines: seq<String>, k: nat, language: String, code: seq<String>)
    requires 0 < k <= |lines| && !StartsWith(lines[k - 1], Fence)
    requires StateAt(lines, k - 1) == State(true, language, code)
    ensures StateAt(lines, k) == State(true, language, code + [lines[k - 1]])
  {
  }

  /** A fence opened on line `a` and closed on line `b` gives one code block
      keyed by `b`, whose code is the lines in between joined by newlines. */
  lemma FencedCodeVerbatim(markdown: String, a: nat, b: nat)
    requires a < b < |Lines(markdown)|
    requires !StateAt(Lines(markdown), a).inCode && StartsWith(Lines(markdown)[a], Fence)
    requires forall j :: a < j < b ==> !StartsWith(Lines(markdown)[j], Fence)
    requires StartsWith(Lines(markdown)[b], Fence)
    ensures Code(CodeKey(b), OpenLanguage(Lines(markdown)[a]), Join(Lines(markdown)[a + 1..b], "\n"))
            in Blocks(markdown)
  {
    var lines := Lines(markdown);
    StateInFence(lines, a, b);
    var blk := Code(CodeKey(b), OpenLanguage(lines[a]), Join(lines[a + 1..b], "\n"));
    assert EmittedAt(lines, b) == [blk];
    assert blk in PerLine(lines)[b];
    FlattenMembers(PerLine(lines));
  }

  /** A fence that is never closed drops its lines: no block comes from the
      fence line or any line after it. */
  lemma FenceTailEmpty(lines: seq<String>, a: nat)
    requires a < |lines|
    requires !StateAt(lines, a).inCode && StartsWith(lines[a], Fence)
    requires forall j :: a < j < |lines| ==> !StartsWith(lines[j], Fence)
    ensures forall k :: a <= k < |lines| ==> PerLine(lines)[k] == []
  {
    forall k | a <= k < |lines|
      ensures PerLine(lines)[k] == []
    {
      if k > a {
        StateInFence(lines, a, k);
      }
    }
  }

  lemma UnterminatedFenceDropped(markdown: String, a: nat)
    requires a < |Lines(markdown)|
    requires !StateAt(Lines(markdown), a).inCode && StartsWith(Lines(markdown)[a], Fence)
    requires forall j :: a < j < |Lines(markdown)| ==> !StartsWith(Lines(markdown)[j], Fence)
    ensures forall j :: 0 <= j < |Blocks(markdown)| ==> Blocks(markdown)[j].key.line < a
  {
    var lines := Lines(markdown);
    var parts := PerLine(lines);
    FenceTailEmpty(lines, a);
    FlattenEmptyTail(parts, a);
    PerLineOrigin(lines);
    assert KeyedParts(parts[..a]);
    FlattenKeyed(parts[..a]);
  }

  /* ---------------------------------------------------------------------- */
  /* Clean-up of the answer: .replace(/```json\n?/g, '')                     */
  /*                        .replace(/```\n?/g, '').trim()                   */
  /* ---------------------------------------------------------------------- */

  /** `s[i..]` with every occurrence of `pat`, and the newline right after
      it if there is one, deleted from left to right. */
  function RemoveAllFrom(s: String, pat: String, i: nat): String
    requires pat != []
    decreases |s| - i
  {
    if i >= |s| then []
    else if OccursAt(s, pat, i) then
      var j := i + |pat|;
      RemoveAllFrom(s, pat, if j < |s| && s[j] == '\n' then j + 1 else j)
    else [s[i]] + RemoveAllFrom(s, pat, i + 1)
  }

  function CleanResponse(text: String): String {
    Trim(RemoveAllFrom(RemoveAllFrom(text, "```json", 0), Fence, 0))
  }

  /** After deleting every "```" nothing can put three backticks together
      again: a kept backtick is never followed by two more. */
  lemma {:induction false} NoFenceAfterRemoval(s: String, i: nat)
    ensures forall q: nat :: !OccursAt(RemoveAllFrom(s, Fence, i), Fence, q)
    decreases |s| - i
  {
    if i >= |s| {
    } else if OccursAt(s, Fence, i) {
      var j := i + 3;
      NoFenceAfterRemoval(s, if j < |s| && s[j] == '\n' then j + 1 else j);
    } else {
      var rest := RemoveAllFrom(s, Fence, i + 1);
      NoFenceAfterRemoval(s, i + 1);
      var r := [s[i]] + rest;
      forall q: nat ensures !OccursAt(r, Fence, q) {
        if q == 0 {
          TickTickTick(s, i);
        } else if q + 3 <= |r| {
          assert r[q..q + 3] == rest[q - 1..q + 2];
          assert !OccursAt(rest, Fence, q - 1);
        }
      }
    }
  }

  /** Three backticks at `k`, character by character. */
  lemma FenceAt(s: String, k: nat)
    ensures OccursAt(s, Fence, k) <==> (k + 3 <= |s| && s[k] == '`' && s[k + 1] == '`' && s[k + 2] == '`')
  {
    if k + 3 <= |s| && s[k] == '`' && s[k + 1] == '`' && s[k + 2] == '`' {
      assert s[k..k + 3] == Fence;
    }
  }

  /** A backtick kept at `i` is not followed by two kept backticks. */
  lemma TickTickTick(s: String, i: nat)
    requires i < |s| && !OccursAt(s, Fence, i)
    ensures !OccursAt([s[i]] + RemoveAllFrom(s, Fence, i + 1), Fence, 0)
  {
    var rest := RemoveAllFrom(s, Fence, i + 1);
    var r := [s[i]] + rest;
    FenceAt(r, 0);
    FenceAt(s, i);
    FenceAt(s, i + 1);
    if s[i] == '`' && i + 1 < |s| {
      if s[i + 1] == '`' {
        RemovalHead(s, i + 1);
        if i + 2 < |s| {
          FenceAt(s, i + 2);
          RemovalHead(s, i + 2);
          assert r[2] == s[i + 2];
        }
      } else {
        RemovalHead(s, i + 1);
        assert r[1] == s[i + 1];
      }
    }
  }

  /** A removal result that starts with a backtick, from a position with no
      fence, starts with that position's character. */
  lemma RemovalHead(s: String, k: nat)
    requires k < |s| && !OccursAt(s, Fence, k)
    ensures RemoveAllFrom(s, Fence, k) == [s[k]] + RemoveAllFrom(s, Fence, k + 1)
  {
  }

  /** The clean-up leaves no "```" anywhere (so no "```json" either). */
  lemma CleanResponseHasNoFence(text: String)
    ensures forall q: nat :: !OccursAt(CleanResponse(text), Fence, q)
  {
    var mid := RemoveAllFrom(RemoveAllFrom(text, "```json", 0), Fence, 0);
    NoFenceAfterRemoval(RemoveAllFrom(text, "```json", 0), 0);
    var r := CleanResponse(text);
    var k := LeadingSpaces(mid);
    forall q: nat ensures !OccursAt(r, Fence, q) {
      if q + 3 <= |r| {
        assert r[q..q + 3] == mid[k + q..k + q + 3];
        assert !OccursAt(mid, Fence, k + q);
      }
    }
  }

  lemma {:induction false} RemoveAllWithoutTicks(s: String, pat: String, i: nat)
    requires pat != [] && pat[0] == '`' && '`' !in s
    requires i <= |s|
    ensures RemoveAllFrom(s, pat, i) == s[i..]
    decreases |s| - i
  {
    if i < |s| {
      assert !OccursAt(s, pat, i) by { assert s[i] != '`'; }
      RemoveAllWithoutTicks(s, pat, i + 1);
    }
  }

  /** An answer without backticks is only trimmed. */
  lemma CleanResponseWithoutTicks(text: String)
    requires '`' !in text
    ensures CleanResponse(text) == Trim(text)
  {
    RemoveAllWithoutTicks(text, "```json", 0);
    RemoveAllWithoutTicks(text, Fence, 0);
  }
}
