/**
 * String primitives of the JavaScript runtime that the blog code relies on:
 * trim, startsWith/endsWith, indexOf/lastIndexOf, includes, split, join,
 * toLowerCase, and the character classes `\s` and `\w` of regular expressions.
 * Strings are sequences of characters; case mapping is ASCII only.
 */
module Text {

  type String = seq<char>

  datatype Option<+T> = None | Some(value: T)

  datatype Result<+T, +E> = Ok(value: T) | Err(error: E)

  /** An environment variable or a header with a value: a test for
      truthiness treats a missing value and the empty string alike. */
  predicate Present(v: Option<String>) {
    v.Some? && v.value != []
  }

  /** Regrouping a concatenation; stated over any element type so that the
      solver need not look inside the elements. */
  lemma AppendAssoc<T>(x: seq<T>, y: seq<T>, z: seq<T>)
    ensures (x + y) + z == x + (y + z)
  {
  }

  /** The characters JavaScript's `trim` removes and `\s` matches
      (ECMAScript WhiteSpace and LineTerminator). */
  predicate IsSpace(c: char) {
    || c == ' ' || c == '\t' || c == '\n' || c == '\r'
    || c == '\U{000B}' || c == '\U{000C}' || c == '\U{00A0}' || c == '\U{1680}'
    || ('\U{2000}' <= c <= '\U{200A}')
    || c == '\U{2028}' || c == '\U{2029}' || c == '\U{202F}' || c == '\U{205F}'
    || c == '\U{3000}' || c == '\U{FEFF}'
  }

  /** The characters the `.` of a regular expression does not match. */
  predicate IsLineTerminator(c: char) {
    c == '\n' || c == '\r' || c == '\U{2028}' || c == '\U{2029}'
  }

  /** `\w`: ASCII letters, digits and underscore. */
  predicate IsWordChar(c: char) {
    ('a' <= c <= 'z') || ('A' <= c <= 'Z') || ('0' <= c <= '9') || c == '_'
  }

  predicate IsLowerAlnum(c: char) {
    ('a' <= c <= 'z') || ('0' <= c <= '9')
  }

  function LowerChar(c: char): (r: char)
    ensures 'A' <= c <= 'Z' ==> 'a' <= r <= 'z'
    ensures !('A' <= c <= 'Z') ==> r == c
  {
    if 'A' <= c <= 'Z' then (c as int - 'A' as int + 'a' as int) as char else c
  }

  /** `toLowerCase`, on ASCII letters. */
  function ToLower(s: String): (r: String)
    ensures |r| == |s|
    ensures forall i :: 0 <= i < |s| ==> r[i] == LowerChar(s[i])
  {
    seq(|s|, i requires 0 <= i < |s| => LowerChar(s[i]))
  }

  function UpperChar(c: char): (r: char)
    ensures 'a' <= c <= 'z' ==> 'A' <= r <= 'Z' && LowerChar(r) == c
    ensures !('a' <= c <= 'z') ==> r == c
  {
    if 'a' <= c <= 'z' then (c as int - 'a' as int + 'A' as int) as char else c
  }

  /** `toUpperCase`, on ASCII letters. */
  function ToUpper(s: String): (r: String)
    ensures |r| == |s|
    ensures forall i :: 0 <= i < |s| ==> r[i] == UpperChar(s[i])
  {
    seq(|s|, i requires 0 <= i < |s| => UpperChar(s[i]))
  }

  lemma ToLowerIdempotent(s: String)
    ensures ToLower(ToLower(s)) == ToLower(s)
  {
  }

  predicate StartsWith(s: String, prefix: String) {
    |prefix| <= |s| && s[..|prefix|] == prefix
  }

  lemma StartsWithLonger(s: String, p: String, q: String)
    ensures StartsWith(s, p + q) ==> StartsWith(s, p)
  {
    if StartsWith(s, p + q) {
      assert s[..|p|] == (p + q)[..|p|];
    }
  }

  predicate EndsWith(s: String, suffix: String) {
    |suffix| <= |s| && s[|s| - |suffix|..] == suffix
  }

  /** Number of leading characters `trimStart` removes. */
  function LeadingSpaces(s: String): (n: nat)
    ensures n <= |s|
  {
    if s == [] || !IsSpace(s[0]) then 0 else 1 + LeadingSpaces(s[1..])
  }

  lemma {:induction false} LeadingSpacesFacts(s: String)
    ensures forall i :: 0 <= i < LeadingSpaces(s) ==> IsSpace(s[i])
    ensures LeadingSpaces(s) < |s| ==> !IsSpace(s[LeadingSpaces(s)])
  {
    if s != [] && IsSpace(s[0]) {
      LeadingSpacesFacts(s[1..]);
    }
  }

  /** Number of trailing characters `trimEnd` removes. */
  function TrailingSpaces(s: String): (n: nat)
    ensures n <= |s|
  {
    if s == [] || !IsSpace(s[|s| - 1]) then 0 else 1 + TrailingSpaces(s[..|s| - 1])
  }

  lemma {:induction false} TrailingSpacesFacts(s: String)
    ensures forall i :: |s| - TrailingSpaces(s) <= i < |s| ==> IsSpace(s[i])
    ensures TrailingSpaces(s) < |s| ==> !IsSpace(s[|s| - TrailingSpaces(s) - 1])
  {
    if s != [] && IsSpace(s[|s| - 1]) {
      TrailingSpacesFacts(s[..|s| - 1]);
    }
  }

  function TrimStart(s: String): String {
    s[LeadingSpaces(s)..]
  }

  function TrimEnd(s: String): String {
    s[..|s| - TrailingSpaces(s)]
  }

  /** `trim`: the result is a slice of the input that neither starts nor ends
      with whitespace, and everything cut away is whitespace. */
  function Trim(s: String): (r: String)
    ensures |r| <= |s|
    ensures LeadingSpaces(s) + |r| <= |s| && r == s[LeadingSpaces(s)..LeadingSpaces(s) + |r|]
  {
    var t := TrimStart(s);
    var k := LeadingSpaces(s);
    var r := TrimEnd(t);
    assert r == s[k..k + |r|];
    r
  }

  /** What `trim` keeps neither starts nor ends with whitespace. */
  lemma TrimEnds(s: String)
    ensures Trim(s) == [] || (!IsSpace(Trim(s)[0]) && !IsSpace(Trim(s)[|Trim(s)| - 1]))
  {
    var t := TrimStart(s);
    LeadingSpacesFacts(s);
    TrailingSpacesFacts(t);
    if Trim(s) != [] {
      assert Trim(s)[0] == s[LeadingSpaces(s)];
      assert Trim(s)[|Trim(s)| - 1] == t[|t| - TrailingSpaces(t) - 1];
    }
  }

  /** Everything `trim` cuts from the end is whitespace (the start is
      covered by `LeadingSpacesFacts`). */
  lemma TrimCutEnd(s: String)
    ensures forall i :: LeadingSpaces(s) + |Trim(s)| <= i < |s| ==> IsSpace(s[i])
  {
    var k := LeadingSpaces(s);
    var t := TrimStart(s);
    TrailingSpacesFacts(t);
    forall i | k + |Trim(s)| <= i < |s|
      ensures IsSpace(s[i])
    {
      assert s[i] == t[i - k];
    }
  }

  lemma TrimIdempotent(s: String)
    ensures Trim(Trim(s)) == Trim(s)
  {
    var r := Trim(s);
    TrimEnds(s);
    if r != [] {
      assert LeadingSpaces(r) == 0;
      assert TrailingSpaces(r) == 0;
    }
  }

  /** A string with no whitespace at either end is its own trim. */
  lemma TrimOfTrimmed(s: String)
    requires s == [] || (!IsSpace(s[0]) && !IsSpace(s[|s| - 1]))
    ensures Trim(s) == s
  {
    if s != [] {
      assert LeadingSpaces(s) == 0;
      assert TrailingSpaces(s) == 0;
    }
  }

  /** A string made of whitespace only. */
  predicate AllSpace(s: String) {
    s == [] || (IsSpace(s[0]) && AllSpace(s[1..]))
  }

  lemma {:induction false} AllSpaceLeading(s: String)
    ensures AllSpace(s) <==> LeadingSpaces(s) == |s|
  {
    if s != [] && IsSpace(s[0]) {
      AllSpaceLeading(s[1..]);
    }
  }

  /** The trim is empty exactly for whitespace-only strings. */
  lemma TrimEmptyIffAllSpace(s: String)
    ensures Trim(s) == [] <==> AllSpace(s)
  {
    AllSpaceLeading(s);
    TrimCutEnd(s);
    LeadingSpacesFacts(s);
    if LeadingSpaces(s) < |s| {
      assert !IsSpace(s[LeadingSpaces(s)]);
    }
  }

  /** True when `pat` occurs in `s` at position `i`. */
  predicate OccursAt(s: String, pat: String, i: nat) {
    i + |pat| <= |s| && s[i..i + |pat|] == pat
  }

  /** `indexOf(pat, from)`: the first occurrence at or after `from`, or -1. */
  function IndexOfFrom(s: String, pat: String, from: nat): (r: int)
    ensures r == -1 || (from <= r && OccursAt(s, pat, r))
    ensures r == -1 ==> forall i :: from <= i && i + |pat| <= |s| ==> !OccursAt(s, pat, i)
    ensures r != -1 ==> forall i :: from <= i < r ==> !OccursAt(s, pat, i)
    decreases |s| - from
  {
    if from + |pat| > |s| then -1
    else if OccursAt(s, pat, from) then from
    else IndexOfFrom(s, pat, from + 1)
  }

  function IndexOf(s: String, pat: String): (r: int)
    ensures r == -1 || (0 <= r && OccursAt(s, pat, r))
    ensures r == -1 <==> forall i: nat :: !OccursAt(s, pat, i)
    ensures r != -1 ==> forall i: nat :: i < r ==> !OccursAt(s, pat, i)
  {
    IndexOfFrom(s, pat, 0)
  }

  /** `includes`. */
  predicate Contains(s: String, pat: String) {
    IndexOf(s, pat) != -1
  }

  /** `indexOf` for a single character. */
  function IndexOfChar(s: String, c: char): (r: int)
    ensures r == -1 || (0 <= r < |s| && s[r] == c)
    ensures r == -1 <==> c !in s
    ensures r != -1 ==> forall i :: 0 <= i < r ==> s[i] != c
  {
    if s == [] then -1
    else if s[0] == c then 0
    else var k := IndexOfChar(s[1..], c); if k == -1 then -1 else k + 1
  }

  /** `indexOf(c, from)` for a single character. */
  function IndexOfCharFrom(s: String, c: char, from: nat): (r: int)
    ensures r == -1 || (from <= r < |s| && s[r] == c)
    ensures r == -1 ==> forall i :: from <= i < |s| ==> s[i] != c
    ensures r != -1 ==> forall i :: from <= i < r ==> s[i] != c
    decreases |s| - from
  {
    if from >= |s| then -1
    else if s[from] == c then from
    else IndexOfCharFrom(s, c, from + 1)
  }

  /** The first position at or after `i` that is not whitespace (`\s*` run end). */
  function SkipSpaces(s: String, i: nat): (j: nat)
    ensures i <= j && (j <= |s| || j == i)
    ensures forall k :: i <= k < j ==> IsSpace(s[k])
    ensures j < |s| ==> !IsSpace(s[j])
    decreases |s| - i
  {
    if i < |s| && IsSpace(s[i]) then SkipSpaces(s, i + 1) else i
  }

  /** `lastIndexOf(c, from)`: the last position at or before `from` holding `c`, or -1. */
  function LastIndexOfChar(s: String, c: char, from: int): (r: int)
    ensures r == -1 || (0 <= r <= from && r < |s| && s[r] == c)
    ensures forall i :: r < i <= from && 0 <= i < |s| ==> s[i] != c
    decreases from + 1
  {
    if from < 0 then -1
    else if from < |s| && s[from] == c then from
    else LastIndexOfChar(s, c, from - 1)
  }

  /** `split(sep)` on a one-character separator: the pieces between separators. */
  function Split(s: String, sep: char): (r: seq<String>)
    ensures |r| >= 1
    ensures forall k :: 0 <= k < |r| ==> sep !in r[k]
    decreases |s|
  {
    var k := IndexOfChar(s, sep);
    if k == -1 then [s] else [s[..k]] + Split(s[k + 1..], sep)
  }

  /** `join(sep)`. */
  function Join(parts: seq<String>, sep: String): String {
    if parts == [] then []
    else if |parts| == 1 then parts[0]
    else parts[0] + sep + Join(parts[1..], sep)
  }

  lemma {:induction false} JoinSplit(s: String, sep: char)
    ensures Join(Split(s, sep), [sep]) == s
    decreases |s|
  {
    var k := IndexOfChar(s, sep);
    if k != -1 {
      JoinSplit(s[k + 1..], sep);
      assert s == s[..k] + [sep] + s[k + 1..];
    }
  }

  /** The first `c` in a text is the first one after a prefix without any. */
  lemma IndexOfCharAfter(pre: String, rest: String, c: char)
    requires c !in pre && rest != [] && rest[0] == c
    ensures IndexOfChar(pre + rest, c) == |pre|
  {
    var s := pre + rest;
    assert s[|pre|] == c;
    assert forall i :: 0 <= i < |pre| ==> s[i] == pre[i];
  }

  /** Splitting a piece free of the separator, then the separator, then
      the rest: the piece, then the split of the rest. */
  lemma SplitCons(p: String, rest: String, sep: char)
    requires sep !in p
    ensures Split(p + ([sep] + rest), sep) == [p] + Split(rest, sep)
  {
    var s := p + ([sep] + rest);
    IndexOfCharAfter(p, [sep] + rest, sep);
    assert s[..|p|] == p;
    assert s[|p| + 1..] == rest;
  }

  /** Joining pieces free of the separator and splitting again gives the
      pieces back. */
  lemma {:induction false} SplitJoin(parts: seq<String>, sep: char)
    requires parts != []
    requires forall k :: 0 <= k < |parts| ==> sep !in parts[k]
    ensures Split(Join(parts, [sep]), sep) == parts
  {
    var p := parts[0];
    assert sep !in p;
    if |parts| == 1 {
      assert Join(parts, [sep]) == p;
    } else {
      var tail := parts[1..];
      var rest := Join(tail, [sep]);
      assert Join(parts, [sep]) == p + ([sep] + rest) by {
        AppendAssoc(p, [sep], rest);
      }
      SplitCons(p, rest, sep);
      assert forall k :: 0 <= k < |tail| ==> tail[k] == parts[k + 1];
      SplitJoin(tail, sep);
      assert parts == [p] + tail;
    }
  }

  /** Every occurrence of `c` removed (`replace(/c/g, '')`). */
  function RemoveChar(s: String, c: char): (r: String)
    ensures c !in r
    ensures |r| <= |s|
  {
    if s == [] then [] else (if s[0] == c then [] else [s[0]]) + RemoveChar(s[1..], c)
  }
}
