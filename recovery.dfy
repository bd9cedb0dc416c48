/**
 * The recovery parser for the language model's answer: unwrap a markdown
 * fence, isolate the outermost `{ ... }`, accept the text if it parses as
 * JSON, and otherwise rebuild `{title, summary, body, tags}` from fields
 * located by pattern matching.  The end of the body string is found by a
 * scan with an escape flag, an approximation of the string escaping of
 * section 7 of RFC 8259.
 *
 * `JSON.parse` is the parameter `parses`; `JSON.stringify` of the rebuilt
 * record is the record `CleanJson` itself.
 */
module Recovery {
  import opened Text

  const Fence: String := "```"
  const JsonFence: String := "```json"
  const TitleKey: String := "\"title\""
  const SummaryKey: String := "\"summary\""
  const BodyKey: String := "\"body\""
  const TagsKey: String := "\"tags\""
  const DefaultTag: String := "web development"

  predicate IsTrimmed(s: String) {
    s == [] || (!IsSpace(s[0]) && !IsSpace(s[|s| - 1]))
  }

  /* ---------------------------------------------------------------------- */
  /* removeMarkdownWrapper                                                   */
  /* ---------------------------------------------------------------------- */

  /** Trims, drops one leading "```json" (tried first) or "```", drops one
      trailing "```", and trims again. */
  function RemoveMarkdownWrapper(text: String): (r: String)
    ensures IsTrimmed(r)
    ensures |r| <= |text|
  {
    var t := Trim(text);
    var afterOpen := if StartsWith(t, JsonFence) then t[|JsonFence|..]
                  else if StartsWith(t, Fence) then t[|Fence|..]
                  else t;
    var closed := if EndsWith(afterOpen, Fence) then afterOpen[..|afterOpen| - |Fence|] else afterOpen;
    TrimEnds(closed);
    Trim(closed)
  }

  /** How the model usually wraps its answer. */
  function JsonFenced(j: String): String {
    JsonFence + "\n" + j + "\n" + Fence
  }

  /** Unwrapping a "```json" fence gives back the trimmed content. */
  lemma UnwrapJsonFenced(j: String)
    requires IsTrimmed(j)
    ensures RemoveMarkdownWrapper(JsonFenced(j)) == j
  {
    var text := JsonFenced(j);
    assert IsTrimmed(text) by { assert text[0] == '`' && text[|text| - 1] == '`'; }
    TrimOfTrimmed(text);
    assert StartsWith(text, JsonFence);
    var afterOpen := text[|JsonFence|..];
    assert afterOpen == "\n" + j + "\n" + Fence;
    assert EndsWith(afterOpen, Fence);
    var closed := afterOpen[..|afterOpen| - |Fence|];
    assert closed == "\n" + j + "\n";
    TrimAround(j);
  }

  /** Unwrapping a bare "```" fence gives back the trimmed content. */
  lemma UnwrapBareFenced(j: String)
    requires IsTrimmed(j)
    ensures RemoveMarkdownWrapper(Fence + "\n" + j + "\n" + Fence) == j
  {
    var text := Fence + "\n" + j + "\n" + Fence;
    assert IsTrimmed(text) by { assert text[0] == '`' && text[|text| - 1] == '`'; }
    TrimOfTrimmed(text);
    assert !StartsWith(text, JsonFence) by { assert text[3] == '\n'; }
    assert StartsWith(text, Fence);
    var afterOpen := text[|Fence|..];
    assert afterOpen == "\n" + j + "\n" + Fence;
    var closed := afterOpen[..|afterOpen| - |Fence|];
    assert closed == "\n" + j + "\n";
    TrimAround(j);
  }

  lemma TrimAround(j: String)
    requires IsTrimmed(j)
    ensures Trim("\n" + j + "\n") == j
  {
    var s := "\n" + j + "\n";
    if j == [] {
      assert LeadingSpaces(s) == 2 by {
        assert s[1..][1..] == [];
      }
    } else {
      assert LeadingSpaces(s[1..]) == 0;
      assert LeadingSpaces(s) == 1;
      var t := s[1..];
      assert t == j + "\n";
      assert t[..|t| - 1] == j;
      assert TrailingSpaces(t[..|t| - 1]) == 0;
      assert TrailingSpaces(t) == 1;
    }
  }

  /** Only one fence is removed on each side: a doubly fenced answer keeps
      its inner fence. */
  lemma UnwrapRemovesOneFence(j: String)
    requires IsTrimmed(j)
    ensures RemoveMarkdownWrapper(JsonFenced(JsonFenced(j))) == JsonFenced(j)
  {
    var inner := JsonFenced(j);
    assert IsTrimmed(inner) by { assert inner[0] == '`'; assert inner[|inner| - 1] == '`'; }
    UnwrapJsonFenced(inner);
  }

  /** Text without a fence at either end is only trimmed. */
  lemma UnwrapUnfenced(text: String)
    requires !StartsWith(Trim(text), Fence) && !EndsWith(Trim(text), Fence)
    ensures RemoveMarkdownWrapper(text) == Trim(text)
  {
    var t := Trim(text);
    assert JsonFence == Fence + "json";
    StartsWithLonger(t, Fence, "json");
    TrimIdempotent(text);
  }

  /* ---------------------------------------------------------------------- */
  /* extractJSONObject                                                       */
  /* ---------------------------------------------------------------------- */

  /** From the first `{` to the last `}` inclusive, when the first `{` comes
      before the last `}`; otherwise the input unchanged. */
  function ExtractJSONObject(text: String): (r: String)
    ensures r == text || (|r| >= 2 && r[0] == '{' && r[|r| - 1] == '}')
    ensures (forall i, j :: 0 <= i < j < |text| && text[i] == '{' ==> text[j] != '}') ==> r == text
  {
    var jsonStart := IndexOfChar(text, '{');
    var jsonEnd := LastIndexOfChar(text, '}', |text| - 1);
    if jsonStart != -1 && jsonEnd != -1 && jsonEnd > jsonStart then text[jsonStart..jsonEnd + 1]
    else text
  }

  /** The last `}` of a text is the last one before a brace-free suffix. */
  lemma LastBraceBefore(front: String, post: String)
    requires '}' !in post && front != [] && front[|front| - 1] == '}'
    ensures LastIndexOfChar(front + post, '}', |front + post| - 1) == |front| - 1
  {
    var text := front + post;
    assert text[|front| - 1] == '}';
    assert forall i :: |front| <= i < |text| ==> text[i] == post[i - |front|];
  }

  /** Prose before and after the object is cut away exactly. */
  lemma ExtractJSONObjectIsolates(pre: String, obj: String, post: String)
    requires '{' !in pre && '}' !in post
    requires |obj| >= 2 && obj[0] == '{' && obj[|obj| - 1] == '}'
    ensures ExtractJSONObject(pre + obj + post) == obj
  {
    AppendAssoc(pre, obj, post);
    IndexOfCharAfter(pre, obj + post, '{');
    LastBraceBefore(pre + obj, post);
    assert (pre + obj + post)[|pre|..|pre| + |obj|] == obj;
  }

  /* ---------------------------------------------------------------------- */
  /* findBodyEnd                                                             */
  /* ---------------------------------------------------------------------- */

  /** The scan's `isEscaped` flag on reaching position `i`. */
  function EscapedAt(text: String, start: nat, i: nat): bool
    requires start <= i <= |text|
    decreases i - start
  {
    if i == start then false
    else if EscapedAt(text, start, i - 1) then false
    else text[i - 1] == '\\'
  }

  /** Number of consecutive backslashes just before `i`, not counting any before `start`. */
  function BackslashRun(text: String, start: nat, i: nat): nat
    requires start <= i <= |text|
    decreases i - start
  {
    if i == start || text[i - 1] != '\\' then 0 else 1 + BackslashRun(text, start, i - 1)
  }

  /** The flag means "preceded by an odd number of backslashes", the escape
      rule of JSON strings. */
  lemma {:induction false} EscapedIffOddRun(text: String, start: nat, i: nat)
    requires start <= i <= |text|
    ensures EscapedAt(text, start, i) <==> BackslashRun(text, start, i) % 2 == 1
    decreases i - start
  {
    if i > start {
      EscapedIffOddRun(text, start, i - 1);
    }
  }

  /** An unescaped quote immediately followed by a comma. */
  predicate IsTerminator(text: String, start: nat, i: nat) {
    start <= i && i + 1 < |text| && !EscapedAt(text, start, i) && text[i] == '"' && text[i + 1] == ','
  }

  /** The first terminator at or after `i`, or -1. */
  function FirstTerminator(text: String, start: nat, i: nat): (r: int)
    requires start <= i <= |text|
    ensures r == -1 || (i <= r && IsTerminator(text, start, r))
    ensures r == -1 ==> forall j :: i <= j < |text| ==> !IsTerminator(text, start, j)
    ensures r != -1 ==> forall j :: i <= j < r ==> !IsTerminator(text, start, j)
    decreases |text| - i
  {
    if i == |text| then -1
    else if IsTerminator(text, start, i) then i
    else FirstTerminator(text, start, i + 1)
  }

  /** The fallback: the last quote strictly before the first `"tags"` key,
      if both lie after `start`. */
  function QuoteBeforeTags(text: String, start: nat): (r: int)
    ensures r == -1 || (start < r < |text| && text[r] == '"')
  {
    var tagsIndex := IndexOf(text, TagsKey);
    if tagsIndex > start then
      var lastQuote := LastIndexOfChar(text, '"', tagsIndex - 1);
      if lastQuote > start then lastQuote else -1
    else -1
  }

  /** What `findBodyEnd` returns: -1, or the index of a quote at or after `start`. */
  function BodyEnd(text: String, start: nat): (r: int)
    ensures r == -1 || (start <= r < |text| && text[r] == '"')
  {
    var scanned := if start <= |text| then FirstTerminator(text, start, start) else -1;
    if scanned != -1 then scanned else QuoteBeforeTags(text, start)
  }

  /** The scan loop with its escape flag, then the fallback. */
  method FindBodyEnd(jsonText: String, bodyStart: nat) returns (r: int)
    ensures r == BodyEnd(jsonText, bodyStart)
  {
    var isEscaped := false;
    var i := bodyStart;
    while i < |jsonText|
      invariant bodyStart <= i
      invariant bodyStart <= |jsonText| ==> i <= |jsonText|
      invariant i <= |jsonText| ==> isEscaped == EscapedAt(jsonText, bodyStart, i)
      invariant i <= |jsonText| ==> FirstTerminator(jsonText, bodyStart, bodyStart) == FirstTerminator(jsonText, bodyStart, i)
    {
      var c := jsonText[i];
      if isEscaped {
        isEscaped := false;
      } else if c == '\\' {
        isEscaped := true;
      } else if c == '"' && i + 1 < |jsonText| && jsonText[i + 1] == ',' {
        return i;
      }
      i := i + 1;
    }
    var tagsIndex := IndexOf(jsonText, TagsKey);
    if tagsIndex > bodyStart {
      var lastQuote := LastIndexOfChar(jsonText, '"', tagsIndex - 1);
      if lastQuote > bodyStart {
        return lastQuote;
      }
    }
    return -1;
  }

  /** The scan returns the FIRST unescaped quote followed by a comma. */
  lemma BodyEndIsFirstTerminator(text: String, start: nat, i: nat)
    requires IsTerminator(text, start, i)
    requires forall j :: start <= j < i ==> !IsTerminator(text, start, j)
    ensures BodyEnd(text, start) == i
  {
    var f := FirstTerminator(text, start, start);
    assert f != -1 && f <= i;
  }

  /** A quote that the scan returns is preceded by an even number of
      backslashes (none of them escaping it). */
  lemma ScannedQuoteNotEscaped(text: String, start: nat)
    requires start <= |text| && FirstTerminator(text, start, start) != -1
    ensures var r := BodyEnd(text, start);
      start <= r < |text| && BackslashRun(text, start, r) % 2 == 0
  {
    var r := BodyEnd(text, start);
    EscapedIffOddRun(text, start, r);
  }

  /** With no terminator, the result is the last quote before the first
      `"tags"` key when that quote lies after `start`, and -1 otherwise. */
  lemma BodyEndFallback(text: String, start: nat)
    requires forall j :: start <= j < |text| ==> !IsTerminator(text, start, j)
    ensures var r := BodyEnd(text, start); var t := IndexOf(text, TagsKey);
      && (r != -1 ==> start < r < t && text[r] == '"' && forall k :: r < k < t ==> text[k] != '"')
      && (r == -1 ==> forall k :: start < k < t ==> text[k] != '"')
  {
    if start <= |text| {
      assert FirstTerminator(text, start, start) == -1;
    }
  }

  /* ---------------------------------------------------------------------- */
  /* Field patterns                                                          */
  /* ---------------------------------------------------------------------- */

  /** `"key"\s*:\s*"` matched at `p`: the index just after the opening quote of the value. */
  function ValueStartAt(s: String, key: String, p: nat): (r: Option<nat>)
    ensures r.Some? ==> p + |key| < r.value <= |s| && s[r.value - 1] == '"' && OccursAt(s, key, p)
  {
    if !OccursAt(s, key, p) then None
    else
      var a := SkipSpaces(s, p + |key|);
      if a < |s| && s[a] == ':' then
        var b := SkipSpaces(s, a + 1);
        if b < |s| && s[b] == '"' then Some(b + 1) else None
      else None
  }

  /** The leftmost match of `"key"\s*:\s*"` at or after `p`. */
  function FindValueStart(s: String, key: String, p: nat): (r: Option<nat>)
    ensures r.Some? ==> exists q :: p <= q && ValueStartAt(s, key, q) == r
                                    && forall q' :: p <= q' < q ==> ValueStartAt(s, key, q').None?
    ensures r.None? ==> forall q :: p <= q ==> ValueStartAt(s, key, q).None?
    decreases |s| - p
  {
    if p >= |s| then
      assert forall q :: p <= q ==> !OccursAt(s, key, q) || key == [];
      if key == [] && p == |s| then ValueStartAt(s, key, p) else None
    else if ValueStartAt(s, key, p).Some? then ValueStartAt(s, key, p)
    else
      var r := FindValueStart(s, key, p + 1);
      assert r.Some? ==> exists q :: p <= q && ValueStartAt(s, key, q) == r
                                     && forall q' :: p <= q' < q ==> ValueStartAt(s, key, q').None?;
      r
  }

  /** `"key"\s*:\s*"([^"]*)"` tried at `p`: the text from the value's
      opening quote up to the next quote, when there is one. */
  function FieldAt(s: String, key: String, p: nat): (r: Option<String>)
    ensures r.Some? <==> ValueStartAt(s, key, p).Some? && IndexOfCharFrom(s, '"', ValueStartAt(s, key, p).value) != -1
    ensures r.Some? ==> var v := ValueStartAt(s, key, p).value;
                        v + |r.value| < |s| && r.value == s[v..v + |r.value|] && s[v + |r.value|] == '"'
                        && '"' !in r.value
  {
    var v := ValueStartAt(s, key, p);
    if v.Some? && IndexOfCharFrom(s, '"', v.value) != -1 then
      Some(s[v.value..IndexOfCharFrom(s, '"', v.value)])
    else None
  }

  /** A quoted field `"key"\s*:\s*"(...)"`: the captured value runs from the
      opening quote to the next quote, so a backslash does not protect a quote. */
  function QuotedField(s: String, key: String): (r: Option<String>)
    ensures r.None? <==> forall q :: FieldAt(s, key, q).None?
    ensures r.Some? ==> '"' !in r.value
  {
    QuotedFieldFrom(s, key, 0)
  }

  /** The capture of the leftmost position at or after `p` where the whole
      pattern matches. */
  function QuotedFieldFrom(s: String, key: String, p: nat): (r: Option<String>)
    ensures r.None? <==> forall q :: p <= q ==> FieldAt(s, key, q).None?
    ensures r.Some? ==> '"' !in r.value
    decreases |s| - p
  {
    if p > |s| then
      assert forall q :: p <= q ==> ValueStartAt(s, key, q).None?;
      None
    else if FieldAt(s, key, p).Some? then FieldAt(s, key, p)
    else QuotedFieldFrom(s, key, p + 1)
  }

  /** The capture is the one at the leftmost position where the pattern
      matches. */
  lemma {:induction false} QuotedFieldLeftmost(s: String, key: String, p: nat, q: nat)
    requires p <= q && FieldAt(s, key, q).Some?
    requires forall q' :: p <= q' < q ==> FieldAt(s, key, q').None?
    ensures QuotedFieldFrom(s, key, p) == FieldAt(s, key, q)
    decreases q - p
  {
    assert OccursAt(s, key, q);
    if p < q {
      QuotedFieldSkip(s, key, p);
      QuotedFieldLeftmost(s, key, p + 1, q);
    } else {
      QuotedFieldHere(s, key, p);
    }
  }

  lemma QuotedFieldHere(s: String, key: String, p: nat)
    requires p <= |s| && FieldAt(s, key, p).Some?
    ensures QuotedFieldFrom(s, key, p) == FieldAt(s, key, p)
  {
  }

  lemma QuotedFieldSkip(s: String, key: String, p: nat)
    requires p <= |s| && FieldAt(s, key, p).None?
    ensures QuotedFieldFrom(s, key, p) == QuotedFieldFrom(s, key, p + 1)
  {
  }


  /** A title written with an escaped quote is cut at that quote. */
  lemma QuotedFieldStopsAtEscapedQuote(before: String, after: String)
    requires '"' !in before
    ensures QuotedField(TitleKey + ": \"" + before + "\\\"" + after, TitleKey) == Some(before + "\\")
  {
    var s := TitleKey + ": \"" + before + "\\\"" + after;
    assert OccursAt(s, TitleKey, 0);
    assert SkipSpaces(s, 7) == 7;
    assert SkipSpaces(s, 8) == 9;
    assert ValueStartAt(s, TitleKey, 0) == Some(10);
    var close := 10 + |before| + 1;
    assert s[close] == '"';
    assert forall k :: 10 <= k < close ==> s[k] != '"';
    assert IndexOfCharFrom(s, '"', 10) == close;
    assert s[10..close] == before + "\\";
  }

  /* ---------------------------------------------------------------------- */
  /* extractTags                                                             */
  /* ---------------------------------------------------------------------- */

  /** `"tags"\s*:\s*\[([\s\S]*?)\]` at `p`: the span of the array's content
      (lazy, so up to the first `]`). */
  function TagsContentAt(s: String, p: nat): (r: Option<(nat, nat)>)
    ensures r.Some? ==>
      (r.value.0 <= r.value.1 < |s| && s[r.value.1] == ']' && ']' !in s[r.value.0..r.value.1])
  {
    if !OccursAt(s, TagsKey, p) then None
    else
      var a := SkipSpaces(s, p + |TagsKey|);
      if a < |s| && s[a] == ':' then
        var b := SkipSpaces(s, a + 1);
        if b < |s| && s[b] == '[' then
          var c := IndexOfCharFrom(s, ']', b + 1);
          if c != -1 then Some((b + 1, c as nat)) else None
        else None
      else None
  }

  /** The content of the leftmost tags array at or after `p`; none exactly
      when no position matches. */
  function FindTagsContent(s: String, p: nat): (r: Option<(nat, nat)>)
    ensures r.Some? ==> r.value.0 <= r.value.1 < |s| && ']' !in s[r.value.0..r.value.1]
    ensures r.None? <==> forall q :: p <= q ==> TagsContentAt(s, q).None?
    decreases |s| - p
  {
    if p >= |s| then
      assert forall q :: p <= q ==> !OccursAt(s, TagsKey, q);
      None
    else if TagsContentAt(s, p).Some? then TagsContentAt(s, p)
    else FindTagsContent(s, p + 1)
  }

  /** The content found is that of the leftmost match. */
  lemma {:induction false} FindTagsContentLeftmost(s: String, p: nat, q: nat)
    requires p <= q && TagsContentAt(s, q).Some?
    requires forall q' :: p <= q' < q ==> TagsContentAt(s, q').None?
    ensures FindTagsContent(s, p) == TagsContentAt(s, q)
    decreases q - p
  {
    assert q < |s|;
    if p < q {
      FindTagsContentSkip(s, p);
      FindTagsContentLeftmost(s, p + 1, q);
    } else {
      FindTagsContentHere(s, p);
    }
  }

  lemma FindTagsContentHere(s: String, p: nat)
    requires p < |s| && TagsContentAt(s, p).Some?
    ensures FindTagsContent(s, p) == TagsContentAt(s, p)
  {
  }

  lemma FindTagsContentSkip(s: String, p: nat)
    requires p < |s| && TagsContentAt(s, p).None?
    ensures FindTagsContent(s, p) == FindTagsContent(s, p + 1)
  {
  }

  /** `tag.trim().replace(/^"(.*)"$/u, '$1')`: `.` does not cross a line end. */
  /** The trimmed tag, with one pair of surrounding quotes removed when it
      has them; a trimmed tag without a quote at each end is kept whole. */
  function CleanTag(tag: String): (r: String)
    ensures |r| <= |tag|
    ensures r == Trim(tag) || Trim(tag) == "\"" + r + "\""
    ensures !(|Trim(tag)| >= 2 && Trim(tag)[0] == '"' && Trim(tag)[|Trim(tag)| - 1] == '"') ==> r == Trim(tag)
    ensures var t := Trim(tag);
            |t| >= 2 && t[0] == '"' && t[|t| - 1] == '"' && (forall k :: 1 <= k < |t| - 1 ==> !IsLineTerminator(t[k]))
            ==> r == t[1..|t| - 1]
    ensures var t := Trim(tag);
            (exists k :: 1 <= k < |t| - 1 && IsLineTerminator(t[k])) ==> r == t
  {
    var t := Trim(tag);
    if |t| >= 2 && t[0] == '"' && t[|t| - 1] == '"'
       && (forall k :: 1 <= k < |t| - 1 ==> !IsLineTerminator(t[k]))
    then
      assert t == "\"" + t[1..|t| - 1] + "\"";
      t[1..|t| - 1]
    else t
  }

  /** Quoting a text that holds no line terminator and cleaning it gives the
      text back, whatever spaces it holds. */
  lemma CleanTagOfQuoted(w: String)
    requires forall k :: 0 <= k < |w| ==> !IsLineTerminator(w[k])
    ensures CleanTag("\"" + w + "\"") == w
  {
    var q := "\"" + w + "\"";
    TrimOfTrimmed(q);
    assert q[1..|q| - 1] == w;
    assert forall k :: 1 <= k < |q| - 1 ==> q[k] == w[k - 1];
  }

  /** A tag that is already trimmed and does not start with a quote is kept
      as it is. */
  lemma CleanTagOfPlain(w: String)
    requires w == [] || (!IsSpace(w[0]) && !IsSpace(w[|w| - 1]) && w[0] != '"')
    ensures CleanTag(w) == w
  {
    TrimOfTrimmed(w);
  }

  /** Cleans every piece and keeps the non-empty ones, in order
      (`CleanTagsOne` and `CleanTagsAppend`). */
  function CleanTags(pieces: seq<String>): (r: seq<String>)
    ensures |r| <= |pieces|
    ensures forall k :: 0 <= k < |r| ==> |r[k]| > 0
  {
    if pieces == [] then []
    else
      var t := CleanTag(pieces[0]);
      (if |t| > 0 then [t] else []) + CleanTags(pieces[1..])
  }

  /** A single piece gives its cleaned text when that is not empty, and no
      tag otherwise. */
  lemma CleanTagsOne(piece: String)
    ensures |CleanTag(piece)| > 0 ==> CleanTags([piece]) == [CleanTag(piece)]
    ensures |CleanTag(piece)| == 0 ==> CleanTags([piece]) == []
  {
    assert [piece][1..] == [];
  }

  /** Cleaning keeps the order of the pieces: the tags of two runs of
      pieces are the tags of the first followed by those of the second. */
  lemma {:induction false} CleanTagsAppend(p: seq<String>, q: seq<String>)
    ensures CleanTags(p + q) == CleanTags(p) + CleanTags(q)
    decreases |p|
  {
    if p != [] {
      assert (p + q)[0] == p[0] && (p + q)[1..] == p[1..] + q;
      CleanTagsAppend(p[1..], q);
      var t := CleanTag(p[0]);
      var head := if |t| > 0 then [t] else [];
      AppendAssoc(head, CleanTags(p[1..]), CleanTags(q));
    } else {
      assert p + q == q;
    }
  }

  /** Never fails: the default tag when there is no tags array, otherwise the
      cleaned non-empty comma-separated entries (possibly none). */
  function ExtractTags(jsonText: String): (r: seq<String>)
    ensures (forall q :: TagsContentAt(jsonText, q).None?) ==> r == [DefaultTag]
    ensures FindTagsContent(jsonText, 0).None? ==> r == [DefaultTag]
    ensures FindTagsContent(jsonText, 0).Some? ==> forall k :: 0 <= k < |r| ==> |r[k]| > 0 && ',' !in r[k]
  {
    match FindTagsContent(jsonText, 0)
    case None => [DefaultTag]
    case Some((a, b)) =>
      var pieces := Split(jsonText[a..b], ',');
      CleanTagsNoComma(pieces);
      CleanTags(pieces)
  }

  /** An array holding only whitespace, `[]` included, gives no tags (not
      the default tag). */
  lemma BlankTagsArray(jsonText: String)
    requires FindTagsContent(jsonText, 0).Some?
    requires AllSpace(jsonText[FindTagsContent(jsonText, 0).value.0..FindTagsContent(jsonText, 0).value.1])
    ensures ExtractTags(jsonText) == []
  {
    var (a, b) := FindTagsContent(jsonText, 0).value;
    var content := jsonText[a..b];
    AllSpaceNoComma(content);
    assert Split(content, ',') == [content];
    TrimEmptyIffAllSpace(content);
  }

  lemma {:induction false} AllSpaceNoComma(s: String)
    requires AllSpace(s)
    ensures IndexOfChar(s, ',') == -1
  {
    if s != [] {
      AllSpaceNoComma(s[1..]);
    }
  }

  /** The tags of an array are the cleaned entries between its commas,
      in order. */
  lemma TagsOfEntries(jsonText: String, entries: seq<String>)
    requires FindTagsContent(jsonText, 0).Some? && entries != []
    requires forall k :: 0 <= k < |entries| ==> ',' !in entries[k]
    requires jsonText[FindTagsContent(jsonText, 0).value.0..FindTagsContent(jsonText, 0).value.1] == Join(entries, ",")
    ensures ExtractTags(jsonText) == CleanTags(entries)
  {
    SplitJoin(entries, ',');
  }

  /** Each entry is trimmed before its quotes are removed, so spaces inside
      the quotes stay: `["a", " b "]` gives "a" and " b ". */
  lemma QuotedTagKeepsInnerSpaces()
    ensures CleanTags(["\"a\"", " \" b \""]) == ["a", " b "]
  {
    var q, p := "\"a\"", " \" b \"";
    QuotedTagA();
    QuotedTagSpaced();
    CleanTagsOne(q);
    CleanTagsOne(p);
    CleanTagsAppend([q], [p]);
    assert [q] + [p] == ["\"a\"", " \" b \""];
  }

  lemma QuotedTagA()
    ensures CleanTag("\"a\"") == "a"
  {
    var q := "\"a\"";
    assert LeadingSpaces(q) == 0 && TrailingSpaces(q) == 0;
    assert Trim(q) == q;
  }

  lemma QuotedTagSpaced()
    ensures CleanTag(" \" b \"") == " b "
  {
    var p := " \" b \"";
    assert LeadingSpaces(p) == 1 && TrailingSpaces(p) == 0;
    assert Trim(p) == "\" b \"";
  }

  lemma {:induction false} CleanTagsNoComma(pieces: seq<String>)
    requires forall k :: 0 <= k < |pieces| ==> ',' !in pieces[k]
    ensures forall k :: 0 <= k < |CleanTags(pieces)| ==> ',' !in CleanTags(pieces)[k]
  {
    if pieces != [] {
      CleanTagsNoComma(pieces[1..]);
      var t := CleanTag(pieces[0]);
      var tt := Trim(pieces[0]);
      assert forall c :: c in tt ==> c in pieces[0] by {
        forall c | c in tt ensures c in pieces[0] {
          var k :| 0 <= k < |tt| && tt[k] == c;
          assert pieces[0][LeadingSpaces(pieces[0]) + k] == c;
        }
      }
      assert forall c :: c in t ==> c in tt;
    }
  }

  /* ---------------------------------------------------------------------- */
  /* reconstructJSON and extractAndFixJSON                                    */
  /* ---------------------------------------------------------------------- */

  /** The record that `JSON.stringify` serialises. */
  datatype CleanJson = CleanJson(title: String, summary: String, body: String, tags: seq<String>)

  datatype ReconstructError =
    | MissingFields    // 'Could not extract required JSON fields'
    | BodyEndNotFound  // 'Could not find end of body string'

  /** Fails when the title, summary or body start is missing, or when the
      body end cannot be found; otherwise the body is exactly the text from
      just after `"body": "` up to the quote `BodyEnd` finds. */
  function ReconstructJSON(jsonText: String): (r: Result<CleanJson, ReconstructError>)
    ensures (QuotedField(jsonText, TitleKey).None? || QuotedField(jsonText, SummaryKey).None?
             || FindValueStart(jsonText, BodyKey, 0).None?) <==> r == Err(MissingFields)
    ensures r.Ok? ==>
      && FindValueStart(jsonText, BodyKey, 0).Some?
      && var bodyStart := FindValueStart(jsonText, BodyKey, 0).value;
      && var bodyEnd := BodyEnd(jsonText, bodyStart);
      && bodyStart <= bodyEnd < |jsonText| && jsonText[bodyEnd] == '"'
      && r.value.body == jsonText[bodyStart..bodyEnd]
      && Some(r.value.title) == QuotedField(jsonText, TitleKey)
      && Some(r.value.summary) == QuotedField(jsonText, SummaryKey)
      && r.value.tags == ExtractTags(jsonText)
    ensures r == Err(BodyEndNotFound) <==>
      (r != Err(MissingFields) && BodyEnd(jsonText, FindValueStart(jsonText, BodyKey, 0).value) == -1)
  {
    var titleMatch := QuotedField(jsonText, TitleKey);
    var summaryMatch := QuotedField(jsonText, SummaryKey);
    var bodyStartMatch := FindValueStart(jsonText, BodyKey, 0);
    if bodyStartMatch.None? || titleMatch.None? || summaryMatch.None? then Err(MissingFields)
    else
      var bodyStart := bodyStartMatch.value;
      var bodyEnd := BodyEnd(jsonText, bodyStart);
      if bodyEnd == -1 then Err(BodyEndNotFound)
      else Ok(CleanJson(titleMatch.value, summaryMatch.value, jsonText[bodyStart..bodyEnd], ExtractTags(jsonText)))
  }

  /** What `extractAndFixJSON` hands back: the isolated text when it parses,
      or the rebuilt record. */
  datatype Fixed = AsIs(json: String) | Rebuilt(record: CleanJson)

  /** The isolated candidate: unwrapped, then cut to the outermost braces. */
  function Isolate(text: String): String {
    ExtractJSONObject(RemoveMarkdownWrapper(text))
  }

  /** Returns the isolated text unchanged when it parses; reconstructs only
      when it does not; a failed reconstruction is an error (with its cause),
      never a partial record. */
  function ExtractAndFixJSON(text: String, parses: String -> bool): (r: Result<Fixed, ReconstructError>)
    ensures parses(Isolate(text)) ==> r == Ok(AsIs(Isolate(text)))
    ensures !parses(Isolate(text)) ==> r.Err? || r.value.Rebuilt?
    ensures !parses(Isolate(text)) ==>
      (r.Err? <==> ReconstructJSON(Isolate(text)).Err?)
      && (r.Err? ==> r.error == ReconstructJSON(Isolate(text)).error)
      && (r.Ok? ==> Ok(r.value.record) == ReconstructJSON(Isolate(text)))
  {
    var jsonText := Isolate(text);
    if parses(jsonText) then Ok(AsIs(jsonText))
    else
      match ReconstructJSON(jsonText)
      case Ok(record) => Ok(Rebuilt(record))
      case Err(cause) => Err(cause)
  }

  /** A well-formed object wrapped in a "```json" fence comes back exactly. */
  lemma FencedObjectAccepted(j: String, parses: String -> bool)
    requires |j| >= 2 && j[0] == '{' && j[|j| - 1] == '}'
    requires parses(j)
    ensures ExtractAndFixJSON(JsonFenced(j), parses) == Ok(AsIs(j))
  {
    UnwrapJsonFenced(j);
    ExtractJSONObjectIsolates([], j, []);
    assert [] + j + [] == j;
  }
}
