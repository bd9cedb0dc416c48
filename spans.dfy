/**
 * What the three markdown converters share: the Portable Text span (a run
 * of text with its marks and, for a link, the `href` of its mark
 * definition) and the inline-code pattern `` `([^`]+)` `` that every one of
 * them runs as a global regular expression.
 */
module Spans {
  import opened Text

  const StrongMark: String := "strong"
  const CodeMark: String := "code"
  const Fence: String := "```"

  /** Block keys built from the line index: `block-<line>` and `code-<line>`. */
  datatype Key = BlockKey(line: nat) | CodeKey(line: nat)

  /** The block styles "normal" and "h<level>". */
  datatype Style = Normal | Heading(level: nat)

  /** `{ _type: 'span', text, marks?, markDef? }`; `marks == []` stands for
      an absent `marks` property, `href` for the link mark definition. */
  datatype Span = Span(text: String, marks: seq<String>, href: Option<String>)

  function Plain(text: String): Span {
    Span(text, [], None)
  }

  /** The concatenation of the spans' texts. */
  function Texts(spans: seq<Span>): String {
    if spans == [] then [] else spans[0].text + Texts(spans[1..])
  }

  lemma {:induction false} TextsAppend(a: seq<Span>, b: seq<Span>)
    ensures Texts(a + b) == Texts(a) + Texts(b)
  {
    if a == [] {
      assert a + b == b;
    } else {
      assert (a + b)[1..] == a[1..] + b;
      TextsAppend(a[1..], b);
    }
  }

  /** The first backtick at or after `k`, or `|s|`. */
  function TickFrom(s: String, k: nat): (r: nat)
    requires k <= |s|
    ensures k <= r <= |s|
    ensures r < |s| ==> s[r] == '`'
    decreases |s| - k
  {
    if k == |s| || s[k] == '`' then k else TickFrom(s, k + 1)
  }

  lemma {:induction false} TickFromFirst(s: String, k: nat)
    requires k <= |s|
    ensures forall q :: k <= q < TickFrom(s, k) ==> s[q] != '`'
    decreases |s| - k
  {
    if k < |s| && s[k] != '`' {
      TickFromFirst(s, k + 1);
    }
  }

  /** `` `([^`]+)` `` matched at `p`: the end of the match. */
  function CodeRunAt(s: String, p: nat): (r: Option<nat>)
    ensures r.Some? ==> p + 2 < r.value <= |s| && s[p] == '`' && s[r.value - 1] == '`'
  {
    if p < |s| && s[p] == '`' then
      var k := TickFrom(s, p + 1);
      if p + 1 < k < |s| then Some(k + 1) else None
    else None
  }

  /** The content of a code run holds no backtick. */
  lemma CodeRunContent(s: String, p: nat)
    requires CodeRunAt(s, p).Some?
    ensures '`' !in s[p + 1..CodeRunAt(s, p).value - 1]
  {
    TickFromFirst(s, p + 1);
  }

  /** The leftmost code run at or after `from`, as (start, end). */
  function NextCodeRun(s: String, from: nat): (r: Option<(nat, nat)>)
    ensures r.Some? ==> from <= r.value.0 && CodeRunAt(s, r.value.0) == Some(r.value.1)
    decreases |s| - from
  {
    if from >= |s| then None
    else if CodeRunAt(s, from).Some? then Some((from, CodeRunAt(s, from).value))
    else NextCodeRun(s, from + 1)
  }

  /** The run found is the leftmost one. */
  lemma {:induction false} NextCodeRunLeftmost(s: String, from: nat)
    ensures NextCodeRun(s, from).Some? ==>
              forall q :: from <= q < NextCodeRun(s, from).value.0 ==> CodeRunAt(s, q).None?
    ensures NextCodeRun(s, from).None? ==> forall q :: from <= q ==> CodeRunAt(s, q).None?
    decreases |s| - from
  {
    if from < |s| && CodeRunAt(s, from).None? {
      NextCodeRunLeftmost(s, from + 1);
    }
  }

  /** `s[from..]` with the two backticks of every matched code run removed. */
  function Unticked(s: String, from: nat): String
    requires from <= |s|
    decreases |s| - from
  {
    var m := NextCodeRun(s, from);
    if m.None? then s[from..]
    else s[from..m.value.0] + s[m.value.0 + 1..m.value.1 - 1] + Unticked(s, m.value.1)
  }

  /** One step of `Unticked` at the match `s[a..e]`. */
  lemma UntickedAt(s: String, from: nat, a: nat, e: nat)
    requires from <= |s| && NextCodeRun(s, from).Some?
    requires NextCodeRun(s, from).value.0 == a && NextCodeRun(s, from).value.1 == e
    ensures a + 2 < e <= |s|
    ensures Unticked(s, from) == s[from..a] + s[a + 1..e - 1] + Unticked(s, e)
  {
  }

  /** A string without backticks has no code run and is its own untick. */
  lemma {:induction false} NoTicksUnticked(s: String, from: nat)
    requires from <= |s| && '`' !in s
    ensures NextCodeRun(s, from).None? && Unticked(s, from) == s[from..]
  {
  }

  /* ---------------------------------------------------------------------- */
  /* Splitting text at code runs                                             */
  /* ---------------------------------------------------------------------- */

  /** Text between code runs, carrying the marks `outer` (none for a plain
      line, `strong` inside bold text). */
  function GapSpan(outer: seq<String>, text: String): Span {
    Span(text, outer, None)
  }

  /** The content of a code run: the marks `outer` followed by `code`. */
  function CodeSpan(outer: seq<String>, text: String): Span {
    Span(text, outer + [CodeMark], None)
  }

  /** The spans the `` `([^`]+)` `` exec loop has pushed once it has scanned
      `line[..from]` with `pushed` pushed so far: at each match, the text
      before it (when there is any) and the match's content; after the last
      match, the rest of the line (when there is any). */
  function CodeSpansFrom(line: String, from: nat, pushed: seq<Span>, outer: seq<String>): seq<Span>
    requires from <= |line|
    decreases |line| - from
  {
    var m := NextCodeRun(line, from);
    if m.None? then
      if from < |line| then pushed + [GapSpan(outer, line[from..])] else pushed
    else
      var a := m.value.0;
      var e := m.value.1;
      var withGap := if a > from then pushed + [GapSpan(outer, line[from..a])] else pushed;
      CodeSpansFrom(line, e, withGap + [CodeSpan(outer, line[a + 1..e - 1])], outer)
  }

  /** One step of `CodeSpansFrom` at a match. */
  lemma CodeSpansFromMatch(line: String, from: nat, pushed: seq<Span>, outer: seq<String>)
    requires from <= |line| && NextCodeRun(line, from).Some?
    ensures var a := NextCodeRun(line, from).value.0;
            var e := NextCodeRun(line, from).value.1;
            var gap := line[from..a];
            CodeSpansFrom(line, from, pushed, outer)
            == CodeSpansFrom(line, e, (if gap != [] then pushed + [GapSpan(outer, gap)] else pushed)
                                      + [CodeSpan(outer, line[a + 1..e - 1])], outer)
  {
  }

  /** One step of `CodeSpansFrom` at the match `line[a..e]`, the gap
      tested as the exec loop tests it. */
  lemma CodeSpansFromAt(line: String, from: nat, pushed: seq<Span>, outer: seq<String>, a: nat, e: nat)
    requires from <= |line| && NextCodeRun(line, from).Some?
    requires NextCodeRun(line, from).value.0 == a && NextCodeRun(line, from).value.1 == e
    ensures a + 2 < e <= |line|
    ensures CodeSpansFrom(line, e, (if a > from then pushed + [GapSpan(outer, line[from..a])] else pushed)
                                   + [CodeSpan(outer, line[a + 1..e - 1])], outer)
            == CodeSpansFrom(line, from, pushed, outer)
  {
    CodeSpansFromMatch(line, from, pushed, outer);
    assert line[from..a] != [] <==> a > from;
  }

  /** Text with the code spans put back in backticks. */
  function RenderCode(outer: seq<String>, spans: seq<Span>): String {
    if spans == [] then []
    else (if spans[0].marks == outer + [CodeMark] then "`" + spans[0].text + "`" else spans[0].text)
         + RenderCode(outer, spans[1..])
  }

  lemma {:induction false} RenderCodeAppend(outer: seq<String>, a: seq<Span>, b: seq<Span>)
    ensures RenderCode(outer, a + b) == RenderCode(outer, a) + RenderCode(outer, b)
  {
    if a == [] {
      assert a + b == b;
    } else {
      assert (a + b)[1..] == a[1..] + b;
      RenderCodeAppend(outer, a[1..], b);
    }
  }

  /** A code run is its content between two backticks. */
  lemma CodeRunSlice(line: String, a: nat)
    requires CodeRunAt(line, a).Some?
    ensures line[a..CodeRunAt(line, a).value]
            == "`" + line[a + 1..CodeRunAt(line, a).value - 1] + "`"
  {
    var e := CodeRunAt(line, a).value;
    var r := "`" + line[a + 1..e - 1] + "`";
    assert |r| == e - a;
    forall k | 0 <= k < e - a
      ensures line[a..e][k] == r[k]
    {
    }
  }

  /** The slices a match cuts `line[from..]` into. */
  lemma MatchSlices(line: String, from: nat, a: nat, e: nat)
    requires from <= a && CodeRunAt(line, a) == Some(e)
    ensures line[from..] == line[from..a] + ("`" + line[a + 1..e - 1] + "`") + line[e..]
  {
    CodeRunSlice(line, a);
    assert line[from..] == line[from..a] + line[a..e] + line[e..];
  }

  /** Rendering what one match pushes: the gap verbatim, the content in
      backticks. */
  lemma RenderPush(outer: seq<String>, pushed: seq<Span>, gap: String, content: String)
    ensures RenderCode(outer, (if gap != [] then pushed + [GapSpan(outer, gap)] else pushed)
                              + [CodeSpan(outer, content)])
            == RenderCode(outer, pushed) + gap + ("`" + content + "`")
  {
    var withGap := if gap != [] then pushed + [GapSpan(outer, gap)] else pushed;
    RenderCodeAppend(outer, withGap, [CodeSpan(outer, content)]);
    if gap != [] {
      RenderCodeAppend(outer, pushed, [GapSpan(outer, gap)]);
      assert outer != outer + [CodeMark];
    } else {
      assert RenderCode(outer, pushed) + gap == RenderCode(outer, pushed);
    }
  }

  /** The split is lossless: putting the code spans back in backticks gives
      back the scanned text. */
  lemma {:induction false} RenderCodeSpansFrom(line: String, from: nat, pushed: seq<Span>, outer: seq<String>)
    requires from <= |line|
    ensures RenderCode(outer, CodeSpansFrom(line, from, pushed, outer))
            == RenderCode(outer, pushed) + line[from..]
    decreases |line| - from
  {
    var m := NextCodeRun(line, from);
    if m.Some? {
      var a := m.value.0;
      var e := m.value.1;
      var gap := line[from..a];
      var withGap := if gap != [] then pushed + [GapSpan(outer, gap)] else pushed;
      var content := line[a + 1..e - 1];
      var next := withGap + [CodeSpan(outer, content)];
      var tick := "`" + content + "`";
      var done := RenderCode(outer, pushed);
      calc {
        RenderCode(outer, CodeSpansFrom(line, from, pushed, outer));
        { CodeSpansFromAt(line, from, pushed, outer, a, e);
          assert withGap == if a > from then pushed + [GapSpan(outer, gap)] else pushed; }
        RenderCode(outer, CodeSpansFrom(line, e, next, outer));
        { RenderCodeSpansFrom(line, e, next, outer); }
        RenderCode(outer, next) + line[e..];
        { RenderPush(outer, pushed, gap, content); }
        (done + gap + tick) + line[e..];
        { AppendAssoc(done + gap, tick, line[e..]);
          AppendAssoc(done, gap, tick + line[e..]); }
        done + (gap + (tick + line[e..]));
        { AppendAssoc(gap, tick, line[e..]); }
        done + (gap + tick + line[e..]);
        { MatchSlices(line, from, a, e); }
        done + line[from..];
      }
    } else if from < |line| {
      RenderCodeAppend(outer, pushed, [GapSpan(outer, line[from..])]);
      assert outer != outer + [CodeMark];
    }
  }

  /** The texts of what one match pushes: the gap, then the content. */
  lemma TextsPush(outer: seq<String>, pushed: seq<Span>, gap: String, content: String)
    ensures Texts((if gap != [] then pushed + [GapSpan(outer, gap)] else pushed) + [CodeSpan(outer, content)])
            == Texts(pushed) + gap + content
  {
    var withGap := if gap != [] then pushed + [GapSpan(outer, gap)] else pushed;
    TextsAppend(withGap, [CodeSpan(outer, content)]);
    if gap != [] {
      TextsAppend(pushed, [GapSpan(outer, gap)]);
    } else {
      assert Texts(pushed) + gap == Texts(pushed);
    }
  }

  /** The texts concatenate to the scanned text with the two backticks of
      every code run removed. */
  lemma {:induction false} CodeSpansFromTexts(line: String, from: nat, pushed: seq<Span>, outer: seq<String>)
    requires from <= |line|
    ensures Texts(CodeSpansFrom(line, from, pushed, outer)) == Texts(pushed) + Unticked(line, from)
    decreases |line| - from
  {
    var m := NextCodeRun(line, from);
    if m.Some? {
      var a := m.value.0;
      var e := m.value.1;
      var gap := line[from..a];
      var withGap := if gap != [] then pushed + [GapSpan(outer, gap)] else pushed;
      var content := line[a + 1..e - 1];
      var next := withGap + [CodeSpan(outer, content)];
      var done := Texts(pushed);
      var rest := Unticked(line, e);
      calc {
        Texts(CodeSpansFrom(line, from, pushed, outer));
        { CodeSpansFromAt(line, from, pushed, outer, a, e);
          assert withGap == if a > from then pushed + [GapSpan(outer, gap)] else pushed; }
        Texts(CodeSpansFrom(line, e, next, outer));
        { CodeSpansFromTexts(line, e, next, outer); }
        Texts(next) + rest;
        { TextsPush(outer, pushed, gap, content); }
        (done + gap + content) + rest;
        { AppendAssoc(done + gap, content, rest);
          AppendAssoc(done, gap, content + rest); }
        done + (gap + (content + rest));
        { AppendAssoc(gap, content, rest); }
        done + (gap + content + rest);
        { UntickedAt(line, from, a, e); }
        done + Unticked(line, from);
      }
    } else if from < |line| {
      TextsAppend(pushed, [GapSpan(outer, line[from..])]);
    }
  }

  /** A span of the split: the marks `outer` alone, or `outer` and `code` on
      a non-empty text without backticks; never a link. */
  predicate CodeMarked(outer: seq<String>, sp: Span) {
    sp.href.None?
    && (sp.marks == outer || (sp.marks == outer + [CodeMark] && sp.text != [] && '`' !in sp.text))
  }

  lemma {:induction false} CodeSpansFromMarks(line: String, from: nat, pushed: seq<Span>, outer: seq<String>)
    requires from <= |line|
    requires forall k :: 0 <= k < |pushed| ==> CodeMarked(outer, pushed[k])
    ensures forall k :: 0 <= k < |CodeSpansFrom(line, from, pushed, outer)| ==>
              CodeMarked(outer, CodeSpansFrom(line, from, pushed, outer)[k])
    decreases |line| - from
  {
    var m := NextCodeRun(line, from);
    if m.Some? {
      var a := m.value.0;
      var e := m.value.1;
      CodeRunContent(line, a);
      var withGap := if a > from then pushed + [GapSpan(outer, line[from..a])] else pushed;
      CodeSpansFromAt(line, from, pushed, outer, a, e);
      CodeSpansFromMarks(line, e, withGap + [CodeSpan(outer, line[a + 1..e - 1])], outer);
    }
  }

  /** The split of a non-empty text is never empty. */
  lemma {:induction false} CodeSpansFromNonEmpty(line: String, from: nat, pushed: seq<Span>, outer: seq<String>)
    requires from <= |line| && (from < |line| || pushed != [])
    ensures CodeSpansFrom(line, from, pushed, outer) != []
    decreases |line| - from
  {
    var m := NextCodeRun(line, from);
    if m.Some? {
      var a := m.value.0;
      var e := m.value.1;
      var withGap := if a > from then pushed + [GapSpan(outer, line[from..a])] else pushed;
      CodeSpansFromAt(line, from, pushed, outer, a, e);
      CodeSpansFromNonEmpty(line, e, withGap + [CodeSpan(outer, line[a + 1..e - 1])], outer);
    }
  }

  /* ---------------------------------------------------------------------- */
  /* Fences and headings                                                     */
  /* ---------------------------------------------------------------------- */

  /** The end of the run of `\w` characters from `k`. */
  function WordEnd(s: String, k: nat): (r: nat)
    requires k <= |s|
    ensures k <= r <= |s|
    ensures forall q :: k <= q < r ==> IsWordChar(s[q])
    ensures r < |s| ==> !IsWordChar(s[r])
    decreases |s| - k
  {
    if k < |s| && IsWordChar(s[k]) then WordEnd(s, k + 1) else k
  }

  /** `` /^```(\w*)/ ``: the captured word when the text opens a fence. */
  function FenceWord(t: String): (r: Option<String>)
    ensures r.Some? <==> StartsWith(t, Fence)
    ensures r.Some? ==> StartsWith(t, Fence + r.value) && (|t| == 3 + |r.value| || !IsWordChar(t[3 + |r.value|]))
    ensures r.Some? ==> forall i :: 0 <= i < |r.value| ==> IsWordChar(r.value[i])
  {
    if StartsWith(t, Fence) then
      var e := WordEnd(t, 3);
      assert t[..e] == Fence + t[3..e];
      Some(t[3..e])
    else None
  }

  /** The end of the run of `#` from `k`. */
  function HashEnd(s: String, k: nat): (r: nat)
    requires k <= |s|
    ensures k <= r <= |s|
    ensures forall q :: k <= q < r ==> s[q] == '#'
    ensures r < |s| ==> s[r] != '#'
    decreases |s| - k
  {
    if k < |s| && s[k] == '#' then HashEnd(s, k + 1) else k
  }

  /** The caller's `codeLines` array, which a line inside a block is pushed
      onto in place. */
  class LineBuffer {
    var lines: seq<String>

    constructor (lines: seq<String>)
      ensures this.lines == lines
    {
      this.lines := lines;
    }

    method Push(line: String)
      modifies this
      ensures lines == old(lines) + [line]
    {
      lines := lines + [line];
    }
  }
}
