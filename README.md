# A verified model of the blog pipeline of zoms

This project models, in Dafny, the logic behind the personal site's blog: how
a post is generated from an AI model's answer, how the answer is turned into
Portable Text blocks for the CMS, and how the blog API guards and pages its
answers. The model covers these parts:

- **Recovery** (`recovery.dfy`): the recovery of a malformed AI answer. It
  strips the code fence around the answer and isolates the outermost `{…}`. If
  the text does not parse, it rebuilds the post from the `"title"`,
  `"summary"`, `"body"` and `"tags"` fields. The end of the body is found by a
  scan that tracks backslash escapes, with a fallback to the last quote before
  `"tags"`.
- **HelperBlocks** (`helper_blocks.dfy`): the markdown to Portable Text
  helpers of `generateBlogHelpers.ts`. These are the code-fence state machine,
  the language aliases and the inline parser for code, bold, bold with code,
  and links. They also build the heading, bullet and normal blocks.
- **BlogHelpers** (`blog_helpers.dfy`): the second, older copy of those
  helpers in `generateBlog.helpers.ts`. It has its own regexes, block keys and
  code-block rules.
- **GenerateBlog** (`generate_blog.dfy`): the line-by-line converter
  `markdownToBlocks` of `generateBlog.ts`, its `parseInlineCode`, and the
  removal of code fences from the AI answer before it is parsed.
- **Spans** (`spans.dfy`): what these converters share. This is the span and
  key types, the inline-code matcher, the fence word, the run of `#`, and the
  growing buffer of code lines.
- **GenerateRoute** (`generate_route.dfy`): the guards of
  `POST /api/blog/generate`, the slug derived from a title, and the document
  written to the CMS.
- **RateLimit** (`rate_limit.dfy`): the sliding-window in-memory rate
  limiter, its periodic clean-up, the registry of limiters, and the client
  identifier. It also covers the middleware's 429 answer.
- **ErrorHandler** and **ErrorMessages** (`error_handler.dfy`,
  `error_messages.dfy`): the mapping of thrown values to status, code, message
  and details, and the tables of user-facing messages.
- **Schemas** and **BlogRoute** (`schemas.dfy`, `blog_route.dfy`): the
  request schemas, and `GET /api/blog` with its defaults, validation,
  pagination and `hasMore`.
- **ParseMarkdown** (`parse_markdown.dfy`): the front-matter parser used for
  the experience entries.
- **Text** (`text.dfy`): the JavaScript string primitives these rely on. These
  are `trim`, `toLowerCase`, `startsWith`, `indexOf`, `split` and `join`.

Regular expressions are written out as matcher functions that follow
JavaScript's leftmost, backtracking order. Each global `exec` loop becomes a
method whose loop is proved equal to a recursive specification function. That
function is then related to an independent description: a round trip back to
the input, leftmost matches, or the shape of every span. Clocks, random keys,
`JSON.parse` and the network are parameters of the model.

The code is followed exactly, including its quirks. Each quirk below is stated
and proved:

- The bullet test of `generateBlogHelpers.ts:490-491` compares with `"* "`
  twice and always cuts four characters (`BulletDropsTwo`).
- The plain-bold branch of `processMarkdownMatch` can never run
  (`PlainBoldBranchDead`).
- The next-line language branch of `processCodeBlockStart` never reads the
  next line (`NextLineNeverRead`).
- A code block whose fence is never closed is dropped by `markdownToBlocks`
  (`UnterminatedFenceDropped`).
- The title and summary patterns stop at the first quote, even when that quote
  is escaped (`QuotedFieldStopsAtEscapedQuote`).
- A forwarded-for header that starts with a comma identifies the client as
  the empty string (`BlankFirstHop`).
- `"#  "` (a hash and two spaces) is a level-1 heading whose text is a space
  in `generateBlog.helpers.ts` (`HeadingOfSpaces`).

The following behaviours of the code are also stated and proved:

- Only `* ` starts a bullet in `generateBlogHelpers.ts`, so a line starting
  with `- ` is not a bullet (`BulletText`). Four characters are always cut
  (`BulletDropsTwo`).
- The title and summary patterns ignore backslash escapes
  (`QuotedFieldStopsAtEscapedQuote`).
- Every run of characters other than letters and digits in a title becomes one
  dash in the slug. So "Next.js 15: What's New?" gives
  `next-js-15-what-s-new` (`WordsJoined`).
- `GET /api/blog` refuses `limit=200` with a 400 rather than clamping it
  (`LimitTwoHundred`).
- The alternative fence of `generateBlogHelpers.ts` (a bare language word on
  its own line) only needs the trimmed next line to start with
  ```` ``` ````. Its step resumes three lines after the word, not two, so a
  caller that follows the returned index never reads the first line after
  the fence (`AlternativeFence`).
- `markdownToBlocks` in `generateBlog.ts` emits only `h2`, `h3`, `normal` and
  code blocks. It does not recognise bullets, and keeps the fence's language
  word as written (`OpenLanguage`).
- When the isolated text parses, `extractAndFixJSON` returns it as it is. It
  does not truncate the title or summary, compute a reading time, or check
  required fields (`ExtractAndFixJSON`).

## Model

| member | source | states |
|---|---|---|
| Recovery.RemoveMarkdownWrapper | src/lib/generateBlogHelpers.ts:4-20 | the unwrapped answer is trimmed and never longer than the raw answer |
| Recovery.UnwrapJsonFenced | src/lib/generateBlogHelpers.ts:4-20 | a trimmed text wrapped in a "```json" fence on lines of its own comes back exactly |
| Recovery.UnwrapBareFenced | src/lib/generateBlogHelpers.ts:4-20 | the same for a bare "```" fence |
| Recovery.UnwrapRemovesOneFence | src/lib/generateBlogHelpers.ts:4-20 | only one fence is removed at each end: a doubly fenced text keeps its inner fence |
| Recovery.UnwrapUnfenced | src/lib/generateBlogHelpers.ts:4-20 | a text that neither starts nor ends with a fence once trimmed is only trimmed |
| Recovery.ExtractJSONObject | src/lib/generateBlogHelpers.ts:25-34 | the result is the input, or a text from a `{` to a `}`; with no `{` before a `}` the input is kept |
| Recovery.ExtractJSONObjectIsolates | src/lib/generateBlogHelpers.ts:25-34 | prose without braces before and after an object is cut away, leaving exactly the object |
| Recovery.LastBraceBefore | src/lib/generateBlogHelpers.ts:27 | the last `}` of a text whose tail has none is the one ending its front part |
| Recovery.EscapedIffOddRun | src/lib/generateBlogHelpers.ts:126-145 | the scan's escape flag is set at a position exactly when an odd run of backslashes precedes it |
| Recovery.FirstTerminator | src/lib/generateBlogHelpers.ts:126-145 | the scan returns the first unescaped quote immediately followed by a comma, or -1 when there is none |
| Recovery.QuoteBeforeTags | src/lib/generateBlogHelpers.ts:147-156 | the fallback returns -1 or a quote strictly after the start of the body |
| Recovery.BodyEnd | src/lib/generateBlogHelpers.ts:123-157 | the end of the body is -1 or the index of a quote at or after its start |
| Recovery.FindBodyEnd | src/lib/generateBlogHelpers.ts:123-157 | the scanning loop computes exactly the end described by BodyEnd |
| Recovery.BodyEndIsFirstTerminator | src/lib/generateBlogHelpers.ts:126-145 | when a terminator exists, the body ends at the first one |
| Recovery.ScannedQuoteNotEscaped | src/lib/generateBlogHelpers.ts:129-144 | a quote found by the scan is preceded by an even run of backslashes |
| Recovery.BodyEndFallback | src/lib/generateBlogHelpers.ts:147-156 | without a terminator the body ends at the last quote before `"tags"`, with no quote between; -1 when there is no such quote |
| Recovery.ValueStartAt | src/lib/generateBlogHelpers.ts:62-64 | a `"key"\s*:\s*"` match at a position ends just after the opening quote of the value |
| Recovery.FindValueStart | src/lib/generateBlogHelpers.ts:62-64 | the match of the key pattern at the first position where it matches, with no match before it; none exactly when no position matches |
| Recovery.FieldAt | src/lib/generateBlogHelpers.ts:62-63 | a capture at a position exists exactly when the key pattern matches there and a closing quote follows the value's start; it is the text from the value's start up to that next quote |
| Recovery.QuotedField | src/lib/generateBlogHelpers.ts:62-63 | no title or summary exactly when no match of the key is followed by a closing quote; an extracted one never contains a quote |
| Recovery.QuotedFieldFrom | src/lib/generateBlogHelpers.ts:62-63 | none exactly when no match at or after the position has a closing quote; the value captured never contains a quote |
| Recovery.QuotedFieldLeftmost | src/lib/generateBlogHelpers.ts:62-63 | the value captured is that of the leftmost match that has a closing quote |
| Recovery.QuotedFieldStopsAtEscapedQuote | src/lib/generateBlogHelpers.ts:62 | a title holding `\"` is cut at that quote, keeping the backslash: escapes are not respected |
| Recovery.TagsContentAt | src/lib/generateBlogHelpers.ts:40 | the content of a `"tags": [ … ]` match ends at the first `]` |
| Recovery.FindTagsContent | src/lib/generateBlogHelpers.ts:40 | the content found contains no `]`; none exactly when no position starts a tags array |
| Recovery.FindTagsContentLeftmost | src/lib/generateBlogHelpers.ts:40 | the content found is that of the leftmost position that starts a tags array |
| Recovery.CleanTag | src/lib/generateBlogHelpers.ts:51 | the trimmed tag, with its surrounding pair of quotes removed exactly when it is quoted at both ends and holds no line terminator between them (what `.` matches); otherwise the trimmed tag whole; never longer than the piece |
| Recovery.CleanTagOfQuoted | src/lib/generateBlogHelpers.ts:51 | quoting any text without a line terminator and cleaning it gives the text back, inner spaces included |
| Recovery.CleanTagOfPlain | src/lib/generateBlogHelpers.ts:51 | a trimmed tag that does not start with a quote is kept as it is |
| Recovery.CleanTags | src/lib/generateBlogHelpers.ts:49-52 | the cleaned tags are at most as many as the pieces, and none is empty |
| Recovery.CleanTagsOne | src/lib/generateBlogHelpers.ts:49-52 | one piece gives its cleaned text when that is not empty, and no tag otherwise |
| Recovery.CleanTagsAppend | src/lib/generateBlogHelpers.ts:49-52 | the tags of two runs of pieces are the tags of the first followed by those of the second, so the order of the entries is kept |
| Recovery.ExtractTags | src/lib/generateBlogHelpers.ts:39-56 | when no position starts a tags array the tags are the default tag; otherwise each tag is non-empty and holds no comma |
| Recovery.BlankTagsArray | src/lib/generateBlogHelpers.ts:47-52 | an array holding only whitespace, `[]` included, gives no tags rather than the default tag |
| Recovery.TagsOfEntries | src/lib/generateBlogHelpers.ts:47-52 | the tags of an array are its comma-separated entries, each cleaned, empty ones dropped, in order |
| Recovery.QuotedTagKeepsInnerSpaces | src/lib/generateBlogHelpers.ts:51 | each entry is trimmed before its quotes are removed, so `"a"` and ` " b "` give "a" and " b " |
| Recovery.CleanTagsNoComma | src/lib/generateBlogHelpers.ts:49-52 | cleaning pieces that hold no comma yields tags that hold no comma |
| Recovery.ReconstructJSON | src/lib/generateBlogHelpers.ts:61-93 | fails with the missing-fields error exactly when title, summary or body start is missing, and with the body-end error exactly when no end is found; otherwise the body is the text between its start and end, and title, summary and tags are the extracted ones |
| Recovery.ExtractAndFixJSON | src/lib/generateBlogHelpers.ts:98-118 | text that parses once isolated is returned as is; otherwise the result is the reconstruction, with its error when it fails |
| Recovery.FencedObjectAccepted | src/lib/generateBlogHelpers.ts:98-118 | a well-formed object in a json fence is returned unchanged |
| HelperBlocks.NormalizeLanguage | src/lib/generateBlogHelpers.ts:266-284 | the trimmed lower-case name is mapped through the alias table, kept when not an alias, and "javascript" when empty; never empty |
| HelperBlocks.LanguageNames | src/lib/generateBlogHelpers.ts:268-281 | every canonical name and the default are lower-case words |
| HelperBlocks.NamesAreNotAliases | src/lib/generateBlogHelpers.ts:268-281 | no canonical name is itself an alias |
| HelperBlocks.NormalizeLanguageIdempotent | src/lib/generateBlogHelpers.ts:266-284 | normalising a normalised language changes nothing |
| HelperBlocks.HandleCodeBlock | src/lib/generateBlogHelpers.ts:163-238 | the code-block step computes the transition HandleCode; the caller's buffer receives the line only inside a block, and a new buffer is used on open and close |
| HelperBlocks.OpenFence | src/lib/generateBlogHelpers.ts:185-191 | a fence opens a block with no lines and advances one line; the language is the word after the fence, or "javascript" when none follows |
| HelperBlocks.AlternativeFence | src/lib/generateBlogHelpers.ts:193-196 | a bare word followed by a line that starts with a fence opens a block in that language, and the next line index is three past the word: the word, the fence and the first line after the fence are all passed over |
| HelperBlocks.InsideBlock | src/lib/generateBlogHelpers.ts:203-207 | inside a block every non-fence line is appended as it is |
| HelperBlocks.CloseFence | src/lib/generateBlogHelpers.ts:198-201 | a closing fence emits one code block with the normalised language and the lines joined by newlines, which split back to those lines |
| HelperBlocks.NotCode | src/lib/generateBlogHelpers.ts:209-210 | any other line outside a block is not handled and changes nothing |
| HelperBlocks.HandleCodeProgress | src/lib/generateBlogHelpers.ts:163-211 | a handled line always advances the line index; a block is emitted exactly at a closing fence, which leaves the block state empty |
| HelperBlocks.BoldBody | src/lib/generateBlogHelpers.ts:300 | the body of a bold match ends with `**` |
| HelperBlocks.BoldAt | src/lib/generateBlogHelpers.ts:300 | a bold match starts and ends with `**` and spans at least five characters |
| HelperBlocks.PlainBoldAt | src/lib/generateBlogHelpers.ts:300 | the plain-bold alternative also starts and ends with `**` |
| HelperBlocks.LinkAt | src/lib/generateBlogHelpers.ts:300 | a link match is `[`, text, `](`, URL, `)` |
| HelperBlocks.MatchAt | src/lib/generateBlogHelpers.ts:300 | a match found at a position starts there and spans at least three characters |
| HelperBlocks.MatchMarkup | src/lib/generateBlogHelpers.ts:300 | the matched text is exactly the markup of its token |
| HelperBlocks.PlainBoldBranchDead | src/lib/generateBlogHelpers.ts:365-368 | the plain-bold alternative never wins, since the first alternative already takes every bold run |
| HelperBlocks.NextMatch | src/lib/generateBlogHelpers.ts:306 | the next match starts at or after the position and is the match there |
| HelperBlocks.NextMatchLeftmost | src/lib/generateBlogHelpers.ts:306 | no match starts between the position and the next match; none at all when there is no next match |
| HelperBlocks.ParseBoldWithCode | src/lib/generateBlogHelpers.ts:414-462 | the loop computes the bold parts BoldParts |
| HelperBlocks.BoldPartsFacts | src/lib/generateBlogHelpers.ts:414-462 | every part is strong, with code marks on the back-ticked runs, and rendering the parts gives back the bold text |
| HelperBlocks.ProcessMarkdownMatch | src/lib/generateBlogHelpers.ts:344-381 | a match is turned into the spans MatchSpans |
| HelperBlocks.ParseInlineMarkdown | src/lib/generateBlogHelpers.ts:289-318 | the exec loop computes InlineSpans |
| HelperBlocks.InlineSpans | src/lib/generateBlogHelpers.ts:386-408 | a parsed line always has at least one span |
| HelperBlocks.SpansOfSnoc | src/lib/generateBlogHelpers.ts:306-317 | the spans of pieces are those of each piece in order |
| HelperBlocks.UnparsePiecesFrom | src/lib/generateBlogHelpers.ts:306-317 | the gaps and matches from a position rebuild the rest of the line |
| HelperBlocks.InlineRoundTrip | src/lib/generateBlogHelpers.ts:289-318 | the gaps and matches of a line, rendered back, give exactly the line |
| HelperBlocks.PiecesFromOf | src/lib/generateBlogHelpers.ts:306-317 | every piece found is a real match of the line |
| HelperBlocks.MatchSpansShaped | src/lib/generateBlogHelpers.ts:344-381 | every span of a match carries only the marks and link its kind allows |
| HelperBlocks.InlineSpansShaped | src/lib/generateBlogHelpers.ts:289-408 | every span of a parsed line is plain, code, strong, strong code, or a link |
| HelperBlocks.NoMarkupPlain | src/lib/generateBlogHelpers.ts:402-405 | a line without `*`, backticks or `[` is one plain span |
| HelperBlocks.MarkDefsEmpty | src/lib/generateBlogHelpers.ts:473-485 | no link definitions are collected exactly when no span carries a link |
| HelperBlocks.MakeBlockMarkDefs | src/lib/generateBlogHelpers.ts:473-485 | a block carries markDefs exactly when one of its children is a link |
| HelperBlocks.LineEnd | src/lib/generateBlogHelpers.ts:466 | `.*` stops at the first line terminator |
| HelperBlocks.HeadingIff | src/lib/generateBlogHelpers.ts:466 | a line is a level-n heading (n from 1 to 4) exactly when it starts with n `#` followed by whitespace |
| HelperBlocks.HeadingText | src/lib/generateBlogHelpers.ts:466-469 | the heading text does not start with a space and holds no line terminator |
| HelperBlocks.BulletDropsTwo | src/lib/generateBlogHelpers.ts:490-491 | a bullet line loses the marker and the two characters after it |
| HelperBlocks.HandleTextBlockShape | src/lib/generateBlogHelpers.ts:243-261 | a heading gives its level with the parsed heading text; a `* ` line a bullet; any other line a normal block; never without children, with markDefs exactly when a child is a link |
| HelperBlocks.HandleTextBlock | src/lib/generateBlogHelpers.ts:243-261 | behaviour: HandleTextBlockShape — a heading block for a heading line, else a bullet block for a `* ` line, else a normal block; a block is always returned |
| HelperBlocks.GetHeadingBlock | src/lib/generateBlogHelpers.ts:465-486 | behaviour: HeadingIff, HeadingText, HandleTextBlockShape — a block exactly for one to four `#` followed by whitespace, styled by that level, with the parsed heading text as children |
| HelperBlocks.GetBulletBlock | src/lib/generateBlogHelpers.ts:489-509 | behaviour: BulletDropsTwo, HandleTextBlockShape — a bullet block exactly for a line starting `* `, whose text is the line without its first four characters |
| HelperBlocks.MakeNormalBlock | src/lib/generateBlogHelpers.ts:512-529 | behaviour: HandleTextBlockShape, MakeBlockMarkDefs — a normal block of the whole parsed line, with markDefs exactly when a child carries a link |
| HelperBlocks.StartCodeBlock | src/lib/generateBlogHelpers.ts:213-221 | behaviour: OpenFence, AlternativeFence — a handled step that opens a block with the language and no lines, moving the line index on by the offset |
| HelperBlocks.EndCodeBlock | src/lib/generateBlogHelpers.ts:223-238 | behaviour: CloseFence — a handled step that closes the block and emits one code block keyed by the line, with the normalised language and the lines joined by newlines |
| HelperBlocks.HandleCode | src/lib/generateBlogHelpers.ts:163-211 | behaviour: OpenFence, AlternativeFence, CloseFence, InsideBlock, NotCode, HandleCodeProgress — the fence cases in the source's order, a line inside a block appended, anything else not handled |
| BlogHelpers.NormalizeLanguage | src/lib/generateBlog.helpers.ts:6-17 | the lower-cased name is mapped through the alias table when it is an alias, and is returned lower-cased otherwise; the result is empty exactly when the input is, and is lower case |
| BlogHelpers.LanguageNames | src/lib/generateBlog.helpers.ts:7-15 | every canonical name is a lower-case word |
| BlogHelpers.NamesAreNotAliases | src/lib/generateBlog.helpers.ts:7-15 | no canonical name is itself an alias |
| BlogHelpers.NormalizeLanguageIdempotent | src/lib/generateBlog.helpers.ts:6-17 | normalising twice is normalising once |
| BlogHelpers.NormalizeLanguageCaseBlind | src/lib/generateBlog.helpers.ts:16 | names that differ only in case normalise alike |
| BlogHelpers.NormalizeLanguageKeepsSpaces | src/lib/generateBlog.helpers.ts:16 | the name is not trimmed: " JS" becomes " js", while "RB" becomes "ruby" |
| BlogHelpers.StarFrom | src/lib/generateBlog.helpers.ts:25 | the first `*` at or after a position |
| BlogHelpers.Groups | src/lib/generateBlog.helpers.ts:25 | a successful repetition of the bold body ends at a closing `**` |
| BlogHelpers.Tail | src/lib/generateBlog.helpers.ts:25 | a successful repetition tail ends at a closing `**` |
| BlogHelpers.BoldAt | src/lib/generateBlog.helpers.ts:25 | a bold match opens with `**` and closes with `**` |
| BlogHelpers.MatchAt | src/lib/generateBlog.helpers.ts:25 | a match at a position spans at least three characters |
| BlogHelpers.NextMatch | src/lib/generateBlog.helpers.ts:29 | the next match starts at or after the position and is the match there |
| BlogHelpers.NextMatchLeftmost | src/lib/generateBlog.helpers.ts:29 | no match starts before the next one; none at all when there is no next one |
| BlogHelpers.MatchText | src/lib/generateBlog.helpers.ts:60-69 | a matched text is either bold (and not a code run) or a code run that does not start with `**` |
| BlogHelpers.BoldParts | src/lib/generateBlog.helpers.ts:88-119 | the parts of a bold text are never empty |
| BlogHelpers.ParseBoldWithCode | src/lib/generateBlog.helpers.ts:88-119 | the loop computes BoldParts |
| BlogHelpers.BoldPartsFacts | src/lib/generateBlog.helpers.ts:88-119 | every part is strong, with code marks on back-ticked runs, and the parts render back to the text |
| BlogHelpers.ProcessMarkdownMatch | src/lib/generateBlog.helpers.ts:56-70 | a matched text is turned into the spans MatchSpans |
| BlogHelpers.ParseInlineMarkdown | src/lib/generateBlog.helpers.ts:21-37 | the exec loop computes InlineSpans |
| BlogHelpers.InlineSpans | src/lib/generateBlog.helpers.ts:21-37 | a parsed line always has at least one span |
| BlogHelpers.SpansOfSnoc | src/lib/generateBlog.helpers.ts:28-34 | the spans of pieces are those of each piece in order |
| BlogHelpers.UnparsePiecesFrom | src/lib/generateBlog.helpers.ts:28-34 | the gaps and matches from a position rebuild the rest of the line |
| BlogHelpers.InlineRoundTrip | src/lib/generateBlog.helpers.ts:21-37 | the gaps and matches of a line give back exactly the line |
| BlogHelpers.PiecesFromOf | src/lib/generateBlog.helpers.ts:28-34 | every matched piece is a bold or a code text |
| BlogHelpers.MatchSpansShaped | src/lib/generateBlog.helpers.ts:56-70 | a match yields at least one span, each plain, code, strong or strong code; a code run is one code span of its content |
| BlogHelpers.InlineSpansShaped | src/lib/generateBlog.helpers.ts:21-83 | every span of a parsed line is plain, code, strong or strong code |
| BlogHelpers.NoMarkupPlain | src/lib/generateBlog.helpers.ts:75-83 | a line without `*` or backticks is one plain span |
| BlogHelpers.NoMatchFrom | src/lib/generateBlog.helpers.ts:25 | without `*` and backticks there is no match |
| BlogHelpers.CodeRunAlone | src/lib/generateBlog.helpers.ts:60-69 | a line that is one code run is one code span of its content |
| BlogHelpers.TextChildren | src/lib/generateBlog.helpers.ts:163-170 | the block children are the spans, in order |
| BlogHelpers.MakeCodeBlockShape | src/lib/generateBlog.helpers.ts:144-158 | a code block is a normal block with one code child, holding the normalised language and the trimmed code |
| BlogHelpers.TextStart | src/lib/generateBlog.helpers.ts:179 | the start found for `(.+)$` has only non-terminators up to the end of the line |
| BlogHelpers.SpacedRest | src/lib/generateBlog.helpers.ts:179 | a `\s+(.+)$` match needs a space at the position and a non-empty capture |
| BlogHelpers.TextStartFinds | src/lib/generateBlog.helpers.ts:179 | the backtracking finds a start whenever one exists |
| BlogHelpers.SpacedRestIff | src/lib/generateBlog.helpers.ts:179 | the capture is the tail of the line after spaces, it exists exactly when some split of spaces and text does, and it is the text after all the spaces when some text follows them |
| BlogHelpers.HashRun | src/lib/generateBlog.helpers.ts:179 | the run of `#` ends at the first other character |
| BlogHelpers.HeadingIff | src/lib/generateBlog.helpers.ts:178-199 | a line is a level-n heading exactly when n `#` are followed by spaces and text, and its style is that level |
| BlogHelpers.HeadingOfSpaces | src/lib/generateBlog.helpers.ts:179 | "#  " is a level-1 heading whose text is a space, while "# " is not a heading |
| BlogHelpers.BulletKeepsText | src/lib/generateBlog.helpers.ts:205 | a `* ` bullet keeps all of its text |
| BlogHelpers.HandleTextBlockShape | src/lib/generateBlog.helpers.ts:322-330 | a heading, then a bullet, then a normal block, each keyed by its kind, line and time, with the parsed children |
| BlogHelpers.HandleCodeBlock | src/lib/generateBlog.helpers.ts:234-244 | the code-block step computes HandleCode; the caller's buffer receives the line only inside a block |
| BlogHelpers.OpenFence | src/lib/generateBlog.helpers.ts:249-282 | a line starting with a fence opens a block with no lines, whose language is the word after the fence or "text" |
| BlogHelpers.NextLineNeverRead | src/lib/generateBlog.helpers.ts:258-273 | the start of a block never depends on the next line: the next-line branch is dead |
| BlogHelpers.IndentedFence | src/lib/generateBlog.helpers.ts:255 | outside a block, a line not starting with a fence (an indented one included) is not code |
| BlogHelpers.InsideBlock | src/lib/generateBlog.helpers.ts:300-307 | inside a block every non-fence line is appended |
| BlogHelpers.CloseFence | src/lib/generateBlog.helpers.ts:289-298 | a closing fence emits one code block with the normalised language and the trimmed joined lines |
| BlogHelpers.HandleCodeCases | src/lib/generateBlog.helpers.ts:234-317 | a line is handled exactly inside a block or on a fence; a block is emitted exactly at a closing fence; leaving a block clears its state |
| BlogHelpers.HandleTextBlock | src/lib/generateBlog.helpers.ts:322-330 | behaviour: HandleTextBlockShape — a heading block, else a bullet block, else a normal block of the line |
| BlogHelpers.GetHeadingBlock | src/lib/generateBlog.helpers.ts:178-199 | behaviour: HeadingIff, HeadingOfSpaces — a block exactly when `#` characters are followed by spaces and text, styled by their count |
| BlogHelpers.GetBulletBlock | src/lib/generateBlog.helpers.ts:204-229 | behaviour: BulletKeepsText, HandleTextBlockShape — a bullet block exactly when `*` is followed by spaces and text, whose children are that text parsed |
| BlogHelpers.MakeNormalBlock | src/lib/generateBlog.helpers.ts:163-170 | behaviour: TextChildren, HandleTextBlockShape — a normal block keyed by the line and the time, whose children are the parsed spans in order |
| BlogHelpers.MakeCodeBlock | src/lib/generateBlog.helpers.ts:144-158 | behaviour: MakeCodeBlockShape — a normal block with one code child holding the normalised language and the trimmed code |
| BlogHelpers.ProcessCodeBlockStart | src/lib/generateBlog.helpers.ts:249-282 | behaviour: OpenFence, NextLineNeverRead, IndentedFence — outside a block, a line starting with a fence opens one; otherwise nothing starts |
| BlogHelpers.ProcessCodeBlockEnd | src/lib/generateBlog.helpers.ts:287-317 | behaviour: CloseFence, InsideBlock — inside a block a fence closes it with one code block and any other line is appended; outside a block the line is not handled |
| BlogHelpers.HandleCode | src/lib/generateBlog.helpers.ts:234-317 | behaviour: HandleCodeCases — a start when one applies, else the end step; handled exactly inside a block or on a fence |
| GenerateBlog.ParseInlineCode | src/lib/generateBlog.ts:221-262 | the exec loop computes InlineCodeSpans |
| GenerateBlog.InlineCodeRoundTrip | src/lib/generateBlog.ts:221-262 | rendering the spans back, with backticks around code, gives exactly the line |
| GenerateBlog.InlineCodeTexts | src/lib/generateBlog.ts:221-262 | the texts of the spans are the line without the backticks of its code runs |
| GenerateBlog.InlineCodeShape | src/lib/generateBlog.ts:221-262 | there is at least one span, and each is plain or code |
| GenerateBlog.OpenLanguage | src/lib/generateBlog.ts:154 | the language is the trimmed rest of the fence line, or "javascript" when it is empty |
| GenerateBlog.PerLine | src/lib/generateBlog.ts:136-213 | one entry per line, each the blocks that line emits |
| GenerateBlog.LineStep | src/lib/generateBlog.ts:136-213 | each line moves the state by one step and adds its blocks to the output |
| GenerateBlog.ConvertIsFlatten | src/lib/generateBlog.ts:136-213 | the loop's output is the concatenation of every line's blocks |
| GenerateBlog.HandleLine | src/lib/generateBlog.ts:139-212 | one iteration computes the next state and the blocks that line emits |
| GenerateBlog.MarkdownToBlocks | src/lib/generateBlog.ts:120-216 | the loop computes Blocks |
| GenerateBlog.FlattenKeyed | src/lib/generateBlog.ts:136-213 | at most one block per line, with keys in line order |
| GenerateBlog.FlattenMembers | src/lib/generateBlog.ts:136-213 | a block is in the output exactly when some line emitted it |
| GenerateBlog.EmittedOrigin | src/lib/generateBlog.ts:139-212 | a line emits at most one block, keyed by that line, as a closing fence, a heading or a normal line |
| GenerateBlog.PerLineOrigin | src/lib/generateBlog.ts:139-212 | every block emitted by any line has a justified origin |
| GenerateBlog.BlocksShape | src/lib/generateBlog.ts:120-216 | no more blocks than lines, keys in strictly increasing line order, and each block traceable to its line |
| GenerateBlog.StateInFence | src/lib/generateBlog.ts:140-165 | after an opening fence, the state holds the language and exactly the lines read since |
| GenerateBlog.FencedCodeVerbatim | src/lib/generateBlog.ts:140-165 | a closed fence yields a code block with the lines between the fences, joined verbatim |
| GenerateBlog.FenceTailEmpty | src/lib/generateBlog.ts:161-165 | after an unclosed fence no line emits anything |
| GenerateBlog.UnterminatedFenceDropped | src/lib/generateBlog.ts:161-165 | an unclosed fence drops the code and everything after it |
| GenerateBlog.NoFenceAfterRemoval | src/lib/generateBlog.ts:93 | removing every fence leaves no fence |
| GenerateBlog.CleanResponseHasNoFence | src/lib/generateBlog.ts:91-94 | the cleaned answer contains no "```" |
| GenerateBlog.RemoveAllWithoutTicks | src/lib/generateBlog.ts:92-93 | a text without backticks is not changed by the removals |
| GenerateBlog.CleanResponseWithoutTicks | src/lib/generateBlog.ts:91-94 | an answer without backticks is only trimmed |
| GenerateBlog.Blocks | src/lib/generateBlog.ts:120-216 | behaviour: MarkdownToBlocks, ConvertIsFlatten, BlocksShape — the concatenation of every line's blocks, at most one per line, keyed in line order |
| GenerateBlog.InlineCodeSpans | src/lib/generateBlog.ts:221-262 | behaviour: ParseInlineCode, InlineCodeRoundTrip, InlineCodeTexts, InlineCodeShape — plain and code spans that render back to the line |
| GenerateBlog.NextState | src/lib/generateBlog.ts:139-165 | behaviour: LineStep, StateInFence, FencedCodeVerbatim — a fence toggles the block, a line inside a block is appended, any other line leaves the state as it is |
| GenerateBlog.CleanResponse | src/lib/generateBlog.ts:91-94 | behaviour: CleanResponseHasNoFence, CleanResponseWithoutTicks — the trimmed answer without any "```" |
| Spans.TextsAppend | src/lib/generateBlog.ts:221-262 | the text of spans is the text of its parts in order |
| Spans.TickFrom | src/lib/generateBlog.ts:223 | the first backtick at or after a position |
| Spans.CodeRunAt | src/lib/generateBlog.ts:223 | a code run starts and ends with a backtick and holds at least one character |
| Spans.CodeRunContent | src/lib/generateBlog.ts:223 | the content of a code run holds no backtick |
| Spans.NextCodeRun | src/lib/generateBlog.ts:225-242 | the next code run starts at or after the position and is the run there |
| Spans.NextCodeRunLeftmost | src/lib/generateBlog.ts:225-242 | no code run starts before the next one; none when there is no next one |
| Spans.NoTicksUnticked | src/lib/generateBlog.ts:221-262 | a text without backticks has no code run and loses nothing |
| Spans.RenderCodeSpansFrom | src/lib/generateBlog.ts:227-251 | rendering the spans found from a position gives back the rest of the line |
| Spans.CodeSpansFromTexts | src/lib/generateBlog.ts:227-251 | the texts found are the rest of the line without the backticks of its runs |
| Spans.CodeSpansFromMarks | src/lib/generateBlog.ts:227-251 | every span found is plain or code under the enclosing marks |
| Spans.CodeSpansFromNonEmpty | src/lib/generateBlog.ts:246-259 | a non-empty rest, or anything already pushed, yields spans |
| Spans.WordEnd | src/lib/generateBlogHelpers.ts:188 | a `\w*` run ends at the first non-word character |
| Spans.FenceWord | src/lib/generateBlogHelpers.ts:188 | a word follows the fence exactly when the line starts with a fence, and the word is the whole, possibly empty, `\w*` run after it |
| Spans.HashEnd | src/lib/generateBlogHelpers.ts:466 | the run of `#` ends at the first other character |
| Spans.LineBuffer.constructor | src/lib/generateBlogHelpers.ts:217 | a new code-lines array holds the given lines |
| Spans.LineBuffer.Push | src/lib/generateBlogHelpers.ts:205 | pushing appends exactly one line |
| GenerateRoute.Authorize | src/app/api/blog/generate/route.ts:17-35 | the route proceeds only with a secret and the header "Bearer " plus the secret; refusals are 500 or 401 |
| GenerateRoute.AuthorizeDecision | src/app/api/blog/generate/route.ts:17-35 | without a secret, 500; with one, 401 exactly when the header is wrong; then 500 exactly when part of the write configuration is missing; otherwise proceed |
| GenerateRoute.DropRun | src/app/api/blog/generate/route.ts:59 | skipping a run of non-alphanumerics leaves a suffix that is empty or starts with a letter or digit |
| GenerateRoute.Dashify | src/app/api/blog/generate/route.ts:59 | the result has only `a-z`, `0-9` and `-`, no `--`, starts with `-` exactly when the text starts with something else, and is never longer |
| GenerateRoute.SliceKeepsSlugChars | src/app/api/blog/generate/route.ts:60 | a slice keeps the slug characters and the absence of `--` |
| GenerateRoute.StripEdgesValid | src/app/api/blog/generate/route.ts:60 | stripping a dash at each end leaves a well-formed slug |
| GenerateRoute.SlugValid | src/app/api/blog/generate/route.ts:57-60 | every slug has only `a-z`, `0-9` and `-`, no `--`, and no `-` at either end |
| GenerateRoute.DashifyDashStep | src/app/api/blog/generate/route.ts:59 | a single dash before a letter or digit is kept |
| GenerateRoute.DashifyFixed | src/app/api/blog/generate/route.ts:59 | text already made of slug characters, without `--` and not ending in `-`, is unchanged |
| GenerateRoute.SlugOfSlug | src/app/api/blog/generate/route.ts:57-60 | a well-formed slug is its own slug |
| GenerateRoute.SlugIdempotent | src/app/api/blog/generate/route.ts:57-60 | deriving a slug twice gives the same slug |
| GenerateRoute.DropRunAppend | src/app/api/blog/generate/route.ts:59 | a run that stops inside a text is not affected by what follows |
| GenerateRoute.DropRunKeepsLast | src/app/api/blog/generate/route.ts:59 | a run never swallows a final letter or digit |
| GenerateRoute.DashifyAppend | src/app/api/blog/generate/route.ts:59 | runs are never merged across a letter or digit: the two sides are dashed apart |
| GenerateRoute.PunctuationRun | src/app/api/blog/generate/route.ts:59 | a run of other characters before a letter or digit, or at the end, becomes one `-` |
| GenerateRoute.WordThen | src/app/api/blog/generate/route.ts:59 | a word of letters and digits is kept as it is |
| GenerateRoute.WordThenRun | src/app/api/blog/generate/route.ts:59 | a word followed by a run of punctuation is the word and one `-` |
| GenerateRoute.WordsJoined | src/app/api/blog/generate/route.ts:57-60 | two lower-case words joined by any punctuation (the dot of "next.js", the apostrophe of "what's") give the words joined by one `-`, so the punctuation is never dropped |
| GenerateRoute.NoAlnumDashify | src/app/api/blog/generate/route.ts:59 | a title without letters or digits becomes a single `-` |
| GenerateRoute.NoAlnumDropRun | src/app/api/blog/generate/route.ts:59 | a text without letters or digits is skipped entirely |
| GenerateRoute.PunctuationSlug | src/app/api/blog/generate/route.ts:57-60 | a title without letters or digits has the empty slug |
| GenerateRoute.Slug | src/app/api/blog/generate/route.ts:57-60 | behaviour: SlugValid, SlugIdempotent, SlugOfSlug, WordsJoined, PunctuationSlug — a well-formed slug of the title, stable when derived again |
| GenerateRoute.NewPostShape | src/app/api/blog/generate/route.ts:63-76 | the document is an automated, generated "blogPost" whose slug is well formed and derived from its title, and whose body is the blocks of the markdown |
| GenerateRoute.NewPost | src/app/api/blog/generate/route.ts:63-76 | behaviour: NewPostShape — the "blogPost" document with the title's slug and the markdown's blocks |
| RateLimit.DigitChar | src/lib/rateLimit.ts:208-210 | a digit's character has that digit's value |
| RateLimit.NatToString | src/lib/rateLimit.ts:208-210 | the decimal text of a number is non-empty and made of digits |
| RateLimit.NatToStringValue | src/lib/rateLimit.ts:208-210 | reading the decimal text back gives the number |
| RateLimit.Recent | src/lib/rateLimit.ts:27 | filtering never adds timestamps |
| RateLimit.RecentMembers | src/lib/rateLimit.ts:27 | a timestamp is kept exactly when it is later than the start of the window |
| RateLimit.RecentCompose | src/lib/rateLimit.ts:57 | filtering by an earlier window start and then a later one is filtering by the later one |
| RateLimit.Cleaned | src/lib/rateLimit.ts:53-64 | after clean-up every remaining client was there before and has timestamps left |
| RateLimit.CleanedExceptStep | src/lib/rateLimit.ts:56-63 | cleaning one more client keeps the loop's invariant |
| RateLimit.CleanedExceptDone | src/lib/rateLimit.ts:53-64 | when no client is left to clean, the map is the cleaned map |
| RateLimit.CleanedBound | src/lib/rateLimit.ts:53-64 | clean-up never makes a client's list longer |
| RateLimit.CleanupKeepsDecisions | src/lib/rateLimit.ts:19-64 | a clean-up at one time never changes a later decision about any client |
| RateLimit.InMemoryRateLimiter.constructor | src/lib/rateLimit.ts:11-17 | a new limiter has its limits and no requests |
| RateLimit.InMemoryRateLimiter.Limit | src/lib/rateLimit.ts:19-51 | admits exactly when fewer than the maximum requests fall in the window; a refusal answers 0 and changes nothing; an admission records the time after the recent ones, answers the places left, and runs the clean-up when drawn; all of this is the value Decision of the old requests |
| RateLimit.Decision | src/lib/rateLimit.ts:19-51 | behaviour: InMemoryRateLimiter.Limit, LimiterRegistry.CheckRateLimit — admits exactly when fewer than the maximum requests fall in the window, with the remaining count and the new requests |
| RateLimit.InMemoryRateLimiter.Cleanup | src/lib/rateLimit.ts:53-64 | the requests become the cleaned map, keeping the limiter's invariant |
| RateLimit.ConfigOf | src/lib/rateLimit.ts:68-87 | every configuration has a one-minute window and a positive maximum |
| RateLimit.KeyText | src/lib/rateLimit.ts:98 | the limiter key starts with the configuration's name |
| RateLimit.KeyTextDiffers | src/lib/rateLimit.ts:98 | names that differ give different keys |
| RateLimit.LimiterKeyFormat | src/lib/rateLimit.ts:98 | each registry key is the configuration's name, its limit and its window joined by `_` |
| RateLimit.LimiterKeysDistinct | src/lib/rateLimit.ts:95-107 | two configurations share a limiter exactly when they are the same |
| RateLimit.LimiterKey | src/lib/rateLimit.ts:95-98 | behaviour: LimiterKeyFormat, LimiterKeysDistinct — the configuration's name, limit and window joined by `_`, distinct for distinct configurations |
| RateLimit.LimiterRegistry.constructor | src/lib/rateLimit.ts:93 | the registry starts empty |
| RateLimit.LimiterRegistry.GetInMemoryLimiter | src/lib/rateLimit.ts:95-107 | the limiter for a key is reused when present, otherwise created empty with the configuration's limits and stored |
| RateLimit.LimiterRegistry.LimitClient | src/lib/rateLimit.ts:169-171 | the limiter for the configuration, reused or created empty, gives the answer and the requests Decision gives for the client; the registry gains at most that key, and no other limiter changes |
| RateLimit.LimiterRegistry.CheckRateLimit | src/lib/rateLimit.ts:132-181 | a failure opens the gate with 0 left and changes nothing; otherwise the answer and the chosen limiter's requests are Decision's for the client, the registry gains at most the key, and no other limiter changes |
| RateLimit.FirstField | src/lib/rateLimit.ts:116 | the first comma-separated field is a prefix with no comma, ending at the first comma |
| RateLimit.ClientIdentifier | src/lib/rateLimit.ts:112-127 | the trimmed first forwarded address, else the real IP, else "anonymous" |
| RateLimit.ForwardedIdentifier | src/lib/rateLimit.ts:112-118 | a forwarded identifier holds no comma and has no spaces at its ends |
| RateLimit.BlankFirstHop | src/lib/rateLimit.ts:112-118 | a forwarded header that starts with a comma gives the empty identifier, and the real IP is not consulted |
| RateLimit.RetryAfterSeconds | src/lib/rateLimit.ts:205 | the retry delay is the window rounded up to whole seconds |
| RateLimit.Middleware | src/lib/rateLimit.ts:187-223 | a request is blocked exactly when not admitted, with 429, the configuration's message, the rate-limit code, "0" remaining and a retry delay covering the window |
| RateLimit.RetryAfterMinute | src/lib/rateLimit.ts:201-214 | every configured limiter asks to retry after 60 seconds |
| ErrorHandler.NewApiError | src/lib/errorHandler.ts:17-27 | an ApiError keeps its message and defaults to status 500 |
| ErrorHandler.SanitizeErrorMessage | src/lib/errorHandler.ts:33-53 | in development the raw message; in production an ApiError's own message, "Invalid request data" for a validation error, and the generic text for anything else |
| ErrorHandler.ProductionHidesMessages | src/lib/errorHandler.ts:33-53 | in production two non-ApiErrors of the same validation kind give the same message, whatever they say |
| ErrorHandler.ErrorStatusCode | src/lib/errorHandler.ts:58-68 | an ApiError's status; 400 exactly for validation errors; otherwise 500 |
| ErrorHandler.NameCodeShape | src/lib/errorHandler.ts:80-82 | an error name ending in "ERROR" gains an underscore before it; any other name is only upper-cased |
| ErrorHandler.ApiErrorNameCode | src/lib/errorHandler.ts:73-87 | the name "ApiError" gives the code "API_ERROR" |
| ErrorHandler.PlainErrorNameCode | src/lib/errorHandler.ts:80-82 | the name "Error" gives "_ERROR" |
| ErrorHandler.NameCode | src/lib/errorHandler.ts:80-82 | behaviour: NameCodeShape, ApiErrorNameCode, PlainErrorNameCode — the upper-cased name, with `_` before a trailing "ERROR" |
| ErrorHandler.ErrorCode | src/lib/errorHandler.ts:73-87 | an ApiError's own code or "API_ERROR"; validation errors their fixed code; other errors their name's code; anything else the unknown code |
| ErrorHandler.ErrorDetails | src/lib/errorHandler.ts:92-106 | no details in production; in development a validation error's issues, another Error's stack when it has one, and nothing otherwise |
| ErrorHandler.HandleApiError | src/lib/errorHandler.ts:112-145 | the reply carries the status, code, sanitised message, timestamp and details of the error, and no details in production |
| ErrorHandler.ValidateSchema | src/lib/errorHandler.ts:150-163 | valid data passes; a validation failure becomes a 400 ApiError with the validation code and the issues; anything else is rethrown |
| ErrorHandler.ValidationFailureReply | src/lib/errorHandler.ts:112-163 | a validation failure answers 400 with the validation code, the given message, and at most the stack in development |
| ErrorHandler.SafeValidate | src/lib/errorHandler.ts:168-177 | data is returned exactly when validation succeeds |
| ErrorMessages.GetErrorMessage | src/lib/errorMessages.ts:86-89 | the development or the production wording of the key |
| ErrorMessages.FirstMatching | src/lib/errorMessages.ts:105-121 | a message that matches no pattern is kept |
| ErrorMessages.ClientMessagePriority | src/lib/errorMessages.ts:105-121 | an Error's message goes through the patterns in order; anything else is the unknown message |
| ErrorMessages.GetClientErrorMessage | src/lib/errorMessages.ts:105-121 | behaviour: ClientMessagePriority — an Error's message through the patterns in order, anything else the unknown message |
| Schemas.GeneratedSlugAccepted | src/lib/schemas.ts:9-12 | a generated document's slug passes the slug schema exactly when it is not empty, so a title without letters or digits is refused |
| Schemas.ParseListQuery | src/lib/schemas.ts:53-56 | accepted exactly when the limit is an integer from 1 to 100 and the offset a non-negative integer, with defaults 25 and 0; each refusal names its field |
| Schemas.OutOfRangeRefused | src/lib/schemas.ts:53-56 | limits 200, 0 and 2.5 and offset -1 are refused |
| Schemas.ParseGenerateRequest | src/lib/schemas.ts:58-60 | an object whose aiGenerated, if present, is a boolean is accepted, defaulting to true |
| Schemas.EnvelopesAccepted | src/lib/schemas.ts:93-98 | every error reply, and every bare `{ error }` body, fits the error envelope |
| BlogRoute.QueryDefaults | src/app/api/blog/route.ts:34-37 | a missing limit is the page size and a missing offset is 0 |
| BlogRoute.ListPosts | src/app/api/blog/route.ts:19-75 | blocked exactly when the limiter refuses; once admitted, an invalid query fails and a valid one lists exactly when the fetch succeeds; a listing uses the validated query, returns the fetched posts and total, and has more exactly when offset plus limit is below the total |
| BlogRoute.FetchSuccess | src/app/api/blog/route.ts:33-67 | an admitted request with a limit from 1 to 100, a non-negative offset and a successful fetch lists the fetched page with exactly that pagination |
| BlogRoute.RefusedQuery | src/app/api/blog/route.ts:68-74 | an invalid query answers 400 with the validation code |
| BlogRoute.LimitTwoHundred | src/app/api/blog/route.ts:34-37 | limit=200 is refused, not clamped |
| BlogRoute.FetchFailure | src/app/api/blog/route.ts:68-74 | a failed fetch answers with the error handler's reply |
| ParseMarkdown.FrontMatter | src/utils/parseMarkdown.ts:2-5 | front matter exists exactly when the entry starts with `---` and has another `---`, and is the text up to the first one |
| ParseMarkdown.LetterEnd | src/utils/parseMarkdown.ts:9 | `[a-z]+` stops at the first other character |
| ParseMarkdown.PairAt | src/utils/parseMarkdown.ts:9 | a pair match ends with a quote |
| ParseMarkdown.NextPair | src/utils/parseMarkdown.ts:9 | the next match at or after a position is a position where the pair pattern matches |
| ParseMarkdown.NextPairSkipsNone | src/utils/parseMarkdown.ts:9 | no position before the one found matches; when none is found no position matches |
| ParseMarkdown.NextPairLeftmost | src/utils/parseMarkdown.ts:9 | every position before the one found fails to match |
| ParseMarkdown.NextPairNone | src/utils/parseMarkdown.ts:9 | none is found exactly when no position at or after the start matches |
| ParseMarkdown.PairsFrom | src/utils/parseMarkdown.ts:8-9 | the matches are empty exactly when the search finds no match |
| ParseMarkdown.PairsFromAt | src/utils/parseMarkdown.ts:8-9 | the matches are the leftmost match, which splits into a word key and a value, then the matches after its end |
| ParseMarkdown.PairsFromNone | src/utils/parseMarkdown.ts:8-13 | there are no matches, so the empty result, exactly when no position matches |
| ParseMarkdown.PairsFromFirst | src/utils/parseMarkdown.ts:8-9 | the first match is the one at the leftmost position where the pattern matches |
| ParseMarkdown.PairsFromSplit | src/utils/parseMarkdown.ts:9-16 | every match splits on `:` and spaces into a lower-case word key and at least one more piece |
| ParseMarkdown.SepFrom | src/utils/parseMarkdown.ts:16-23 | the first separator at or after a position; none before it |
| ParseMarkdown.SplitSep | src/utils/parseMarkdown.ts:16-23 | a split has at least one piece, and no piece holds a separator |
| ParseMarkdown.SeparatorsCount | src/utils/parseMarkdown.ts:16-23 | there is one piece more than separators |
| ParseMarkdown.SplitSepRebuild | src/utils/parseMarkdown.ts:16-23 | the pieces interleaved with the separators give back the text |
| ParseMarkdown.SeparatorShape | src/utils/parseMarkdown.ts:16-23 | every separator is the character followed by at least one space |
| ParseMarkdown.PairSplits | src/utils/parseMarkdown.ts:9-16 | splitting a pair match gives at least two pieces, the first being its key |
| ParseMarkdown.Collect | src/utils/parseMarkdown.ts:15-21 | every key of the result was in the start map or is the key of some match |
| ParseMarkdown.CollectUntouched | src/utils/parseMarkdown.ts:15-21 | a key no match names keeps its entry |
| ParseMarkdown.LastMatchWins | src/utils/parseMarkdown.ts:15-21 | when a key repeats, the last match's quote-less value wins |
| ParseMarkdown.Pairs | src/utils/parseMarkdown.ts:5-9 | every match splits and has a lower-case word as its key |
| ParseMarkdown.ParseElement | src/utils/parseMarkdown.ts:4-29 | an entry without pairs gives the empty result; otherwise the fields are exactly what the reduce over the matches collects, without `duties` (keys lower-case words), and duties are the pieces of the whole entry split at `-` and spaces, after the first |
| ParseMarkdown.RecordFieldIsLastMatch | src/utils/parseMarkdown.ts:15-28 | in the collected record, a key other than `duties` holds the quote-less value of its last match |
| ParseMarkdown.ElementFieldIsLastMatch | src/utils/parseMarkdown.ts:15-28 | an entry's field for a key other than `duties` is the value of the last match of that key |
| ParseMarkdown.ElementFieldAbsent | src/utils/parseMarkdown.ts:15-28 | a key that no match names is not a field of the entry |
| ParseMarkdown.NoFrontMatter | src/utils/parseMarkdown.ts:5-13 | an entry without front matter gives the empty result |
| ParseMarkdown.ParseMarkdownList | src/utils/parseMarkdown.ts:1-32 | one result per entry, in order |

## Left out

- The calls to Gemini and to the Sanity CMS, the network, logging, and the
  dynamic imports of the modules are not modelled. The generate route is
  modelled through its guards and the document it builds.
- `JSON.parse` is a parameter `parses`, and the rebuilt JSON text is the
  record it would contain, rather than the string `JSON.stringify` writes.
- `Date.now()`, `Math.random()` and the random block keys are parameters:
  the time, whether the clean-up is drawn, and the key functions.
- The Upstash (Redis) branch of `checkRateLimit` is not modelled, since it
  calls a remote service. The model follows the in-memory branch. A throw from
  the limiter is a `failure` flag, which gives the fail-open answer.
- RateLimit.InMemoryRateLimiter.Cleanup visits the clients in an order
  the model does not fix, while JavaScript visits a `Map` in insertion order.
  The result does not depend on the order.
- Numbers are unbounded integers. JavaScript numbers are doubles, and
  timestamps and counts stay far below the point where this differs.
- zod's coercion of query strings to numbers is not modelled. The list query
  is checked over real numbers, and a validation issue is only its path,
  without zod's wording.
- The response schema that `GET /api/blog` applies to the posts it lists is
  not modelled, since it checks the CMS's data rather than the route's logic.
  BlogRoute.ListPosts passes the posts through unchanged.
- `BLOG_POSTS_PAGE_SIZE` is a parameter, because its constants file is not
  part of this model.
- `withErrorHandling` and `NextResponse` are not modelled. HandleApiError
  returns the status and the body of the reply.
- Case mapping covers ASCII letters only, and the language tables ignore
  keys inherited from JavaScript's object prototype.
- ErrorMessages.GetClientErrorMessage has no contract of its own. Its
  behaviour is stated by ErrorMessages.ClientMessagePriority.
- ErrorMessages.GetErrorMessage returns the table's wording. It does not state
  that the development and production wordings differ.
- ParseMarkdown.ParseElement returns the fields as a map beside the duties,
  so it does not keep the order in which the object's keys are inserted
  (the fields in the order they appear, then `duties`).
- Strings are sequences of Unicode scalar values, while JavaScript strings
  are sequences of UTF-16 code units. The two differ on characters outside
  the Basic Multilingual Plane, which count as two units in JavaScript and
  as one here. So `line.slice(4)` (src/lib/generateBlogHelpers.ts:490), the
  indices of every match and slice, and `.` in a regular expression without
  the `/u` flag can split such a character in the source but not in the
  model.
- The registry keys of RateLimit.LimiterKey are written out as constants.
  RateLimit.LimiterKeyFormat proves each equal to the key that the source's
  template builds from the configuration.
