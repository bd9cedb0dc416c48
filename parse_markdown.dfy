/**
 * `parseMarkdown` (src/utils/parseMarkdown.ts): each markdown text of the
 * experience list becomes either an empty list, when its front matter has
 * no `key: 'value'` pairs, or a record of those pairs together with the
 * `duties`, the pieces of the whole text between `-` and whitespace.
 */
module ParseMarkdown {
  import opened Text

  const Dashes: String := "---"

  /* ---------------------------------------------------------------------- */
  /* The front matter                                                        */
  /* ---------------------------------------------------------------------- */

  /** `/^---(.*?)---/s`: the text between a `---` at the very start and
      the first `---` after it. */
  function FrontMatter(e: String): (r: Option<String>)
    ensures r.Some? ==>
              StartsWith(e, Dashes) && OccursAt(e, Dashes, 3 + |r.value|) && r.value == e[3..3 + |r.value|]
              && forall j :: 3 <= j < 3 + |r.value| ==> !OccursAt(e, Dashes, j)
    ensures r.None? ==> !StartsWith(e, Dashes) || forall j :: 3 <= j ==> !OccursAt(e, Dashes, j)
  {
    if !StartsWith(e, Dashes) then None
    else
      var k := IndexOfFrom(e, Dashes, 3);
      if k == -1 then None else Some(e[3..k])
  }

  /** What the pairs are looked for in: the trimmed front matter, or
      nothing. */
  function Content(e: String): String {
    var m := FrontMatter(e);
    if m.Some? then Trim(m.value) else []
  }

  /* ---------------------------------------------------------------------- */
  /* The pairs                                                               */
  /* ---------------------------------------------------------------------- */

  predicate IsLowerLetter(c: char) {
    'a' <= c <= 'z'
  }

  /** A key: one or more of `a-z`. */
  predicate IsWord(k: String) {
    k != [] && forall i :: 0 <= i < |k| ==> IsLowerLetter(k[i])
  }

  /** The end of the run of `a-z` that starts at `k`. */
  function LetterEnd(s: String, k: nat): (r: nat)
    requires k <= |s|
    ensures k <= r <= |s|
    ensures forall q :: k <= q < r ==> IsLowerLetter(s[q])
    ensures r < |s| ==> !IsLowerLetter(s[r])
    decreases |s| - k
  {
    if k < |s| && IsLowerLetter(s[k]) then LetterEnd(s, k + 1) else k
  }

  /** The end of the run of non-whitespace that starts at `k`. */
  function NonSpaceEnd(s: String, k: nat): (r: nat)
    requires k <= |s|
    ensures k <= r <= |s|
    decreases |s| - k
  {
    if k < |s| && !IsSpace(s[k]) then NonSpaceEnd(s, k + 1) else k
  }

  /** `/([a-z]+):\s+'([^']+|\S+)'/` tried at `p`, with the backtracking of
      the regular expression: the letters and the whitespace are taken
      whole; the value is the text up to the next `'` when that text is not
      empty, and otherwise a run of non-whitespace up to its last `'`. The
      result is the end of the match. */
  function PairAt(s: String, p: nat): (r: Option<nat>)
    requires p <= |s|
    ensures r.Some? ==> p < r.value <= |s| && s[r.value - 1] == '\''
  {
    var a := LetterEnd(s, p);
    if a == p || a + 1 >= |s| || s[a] != ':' || !IsSpace(s[a + 1]) then None
    else
      var b := SkipSpaces(s, a + 1);
      if b >= |s| || s[b] != '\'' then None
      else
        var q := b + 1;
        var k := IndexOfCharFrom(s, '\'', q);
        if k > q then Some(k + 1)
        else
          var e := NonSpaceEnd(s, q);
          var j := LastIndexOfChar(s[..e], '\'', e - 1);
          if j > q then Some(j + 1) else None
  }

  /** The leftmost position at or after `p` where the pair pattern
      matches. */
  function NextPair(s: String, p: nat): (r: Option<nat>)
    requires p <= |s|
    ensures r.Some? ==> p <= r.value < |s| && PairAt(s, r.value).Some?
    decreases |s| - p
  {
    if p == |s| then None
    else if PairAt(s, p).Some? then Some(p)
    else NextPair(s, p + 1)
  }

  /** No position in `[p, q)` starts a match. */
  predicate NoPairIn(s: String, p: nat, q: nat)
    requires q <= |s|
    decreases q - p
  {
    p >= q || (PairAt(s, p).None? && NoPairIn(s, p + 1, q))
  }

  lemma {:induction false} NoPairInAt(s: String, p: nat, q: nat, j: nat)
    requires q <= |s| && NoPairIn(s, p, q) && p <= j < q
    ensures PairAt(s, j).None?
    decreases q - p
  {
    if j > p {
      NoPairInAt(s, p + 1, q, j);
    }
  }

  /** No match is skipped: nothing matches before the position found, and
      nothing at all when none is found. */
  lemma {:induction false} NextPairSkipsNone(s: String, p: nat)
    requires p <= |s|
    ensures NextPair(s, p).Some? ==> NoPairIn(s, p, NextPair(s, p).value)
    ensures NextPair(s, p).None? ==> NoPairIn(s, p, |s|)
    decreases |s| - p
  {
    if p < |s| && PairAt(s, p).None? {
      NextPairSkipsNone(s, p + 1);
    }
  }

  /** The position found is the leftmost match. */
  lemma NextPairLeftmost(s: String, p: nat, j: nat)
    requires p <= |s| && NextPair(s, p).Some? && p <= j < NextPair(s, p).value
    ensures PairAt(s, j).None?
  {
    NextPairSkipsNone(s, p);
    NoPairInAt(s, p, NextPair(s, p).value, j);
  }

  /** None is found exactly when no position matches. */
  lemma NextPairNone(s: String, p: nat)
    requires p <= |s|
    ensures NextPair(s, p).None? <==> forall j :: p <= j < |s| ==> PairAt(s, j).None?
  {
    if NextPair(s, p).None? {
      NextPairSkipsNone(s, p);
      forall j | p <= j < |s|
        ensures PairAt(s, j).None?
      {
        NoPairInAt(s, p, |s|, j);
      }
    }
  }

  /** `content.match(...)` with the `g` flag: every match, left to right,
      each search starting where the previous match ended. */
  function PairsFrom(s: String, p: nat): (r: seq<String>)
    requires p <= |s|
    ensures r == [] <==> NextPair(s, p).None?
    decreases |s| - p
  {
    var m := NextPair(s, p);
    if m.None? then []
    else
      var q := m.value;
      var e := PairAt(s, q).value;
      [s[q..e]] + PairsFrom(s, e)
  }

  /** One step of `PairsFrom`: the first match `s[q..e]`, which splits
      well, then the matches after it. */
  lemma PairsFromAt(s: String, p: nat) returns (q: nat, e: nat)
    requires p <= |s| && NextPair(s, p).Some?
    ensures p <= q < e <= |s| && WellSplit(s[q..e])
    ensures PairsFrom(s, p) == [s[q..e]] + PairsFrom(s, e)
  {
    q := NextPair(s, p).value;
    e := PairAt(s, q).value;
    PairSplits(s, q);
  }

  /** There are no matches exactly when no position at or after `p`
      matches. */
  lemma PairsFromNone(s: String, p: nat)
    requires p <= |s|
    ensures PairsFrom(s, p) == [] <==> forall j :: p <= j < |s| ==> PairAt(s, j).None?
  {
    NextPairNone(s, p);
  }

  /** The first match is the one at the leftmost matching position. */
  lemma PairsFromFirst(s: String, p: nat, q: nat)
    requires p <= q < |s| && PairAt(s, q).Some?
    requires forall j :: p <= j < q ==> PairAt(s, j).None?
    ensures PairsFrom(s, p) != [] && PairsFrom(s, p)[0] == s[q..PairAt(s, q).value]
  {
    NextPairNone(s, p);
    var v := NextPair(s, p).value;
    if q < v {
      NextPairLeftmost(s, p, q);
    }
    assert v == q;
  }

  /** A match that splits on `:\s+` into a word key and at least one more
      piece. */
  predicate WellSplit(m: String) {
    |SplitSep(m, ':')| >= 2 && IsWord(SplitSep(m, ':')[0])
  }

  /** Every match splits on `:\s+` into a word key and at least one more
      piece. */
  lemma {:induction false} PairsFromSplit(s: String, p: nat)
    requires p <= |s|
    ensures forall i :: 0 <= i < |PairsFrom(s, p)| ==> WellSplit(PairsFrom(s, p)[i])
    decreases |s| - p
  {
    if NextPair(s, p).Some? {
      var q, e := PairsFromAt(s, p);
      PairsFromSplit(s, e);
      var ms, rest := PairsFrom(s, p), PairsFrom(s, e);
      forall i | 0 <= i < |ms|
        ensures WellSplit(ms[i])
      {
        if i > 0 {
          assert ms[i] == rest[i - 1];
        }
      }
    }
  }

  /* ---------------------------------------------------------------------- */
  /* Splitting on a character followed by whitespace                         */
  /* ---------------------------------------------------------------------- */

  /** A separator `c\s+` starts at `i`. */
  predicate IsSepAt(s: String, c: char, i: int) {
    0 <= i && i + 1 < |s| && s[i] == c && IsSpace(s[i + 1])
  }

  /** The first separator at or after `from`, or -1. */
  function SepFrom(s: String, c: char, from: nat): (r: int)
    ensures r == -1 || (from <= r && IsSepAt(s, c, r))
    ensures r == -1 ==> forall i :: from <= i ==> !IsSepAt(s, c, i)
    ensures r != -1 ==> forall i :: from <= i < r ==> !IsSepAt(s, c, i)
    decreases |s| - from
  {
    if from + 1 >= |s| then -1
    else if IsSepAt(s, c, from) then from
    else SepFrom(s, c, from + 1)
  }

  /** `s.split(/c\s+/)`: the pieces between the separators, each of which
      is `c` with all the whitespace after it. */
  function SplitSep(s: String, c: char): (r: seq<String>)
    ensures |r| >= 1
    ensures forall k :: 0 <= k < |r| ==> forall i :: !IsSepAt(r[k], c, i)
    decreases |s|
  {
    var k := SepFrom(s, c, 0);
    if k == -1 then [s]
    else
      var rest := SplitSep(s[SkipSpaces(s, k + 1)..], c);
      assert forall i :: !IsSepAt(s[..k], c, i) by {
        forall i | IsSepAt(s[..k], c, i)
          ensures false
        {
          assert IsSepAt(s, c, i);
        }
      }
      [s[..k]] + rest
  }

  /** The separators `SplitSep` cut out, in order. */
  function Separators(s: String, c: char): (r: seq<String>)
    decreases |s|
  {
    var k := SepFrom(s, c, 0);
    if k == -1 then []
    else
      var e := SkipSpaces(s, k + 1);
      [s[k..e]] + Separators(s[e..], c)
  }

  /** The pieces with the separators put back between them. */
  function Interleave(pieces: seq<String>, seps: seq<String>): String
    requires |pieces| == |seps| + 1
  {
    if seps == [] then pieces[0] else pieces[0] + seps[0] + Interleave(pieces[1..], seps[1..])
  }

  /** There is one separator fewer than there are pieces. */
  lemma {:induction false} SeparatorsCount(s: String, c: char)
    ensures |Separators(s, c)| + 1 == |SplitSep(s, c)|
    decreases |s|
  {
    var k := SepFrom(s, c, 0);
    if k != -1 {
      SeparatorsCount(s[SkipSpaces(s, k + 1)..], c);
    }
  }

  lemma ThreeSlices(s: String, k: nat, e: nat)
    requires k <= e <= |s|
    ensures s[..k] + s[k..e] + s[e..] == s
  {
    assert s[..k] + s[k..e] == s[..e];
  }

  /** Splitting loses nothing: the pieces and the separators rebuild the
      text. */
  lemma {:induction false} SplitSepRebuild(s: String, c: char)
    ensures |Separators(s, c)| + 1 == |SplitSep(s, c)|
    ensures Interleave(SplitSep(s, c), Separators(s, c)) == s
    decreases |s|
  {
    SeparatorsCount(s, c);
    var k := SepFrom(s, c, 0);
    if k != -1 {
      var e := SkipSpaces(s, k + 1);
      var t := s[e..];
      SplitSepRebuild(t, c);
      var ps, ss := SplitSep(s, c), Separators(s, c);
      assert ps[0] == s[..k] && ps[1..] == SplitSep(t, c);
      assert ss[0] == s[k..e] && ss[1..] == Separators(t, c);
      ThreeSlices(s, k, e);
      calc {
        Interleave(ps, ss);
        ps[0] + ss[0] + Interleave(ps[1..], ss[1..]);
        s[..k] + s[k..e] + t;
        s;
      }
    }
  }

  /** Each separator is `c` followed by whitespace only. */
  lemma {:induction false} SeparatorShape(s: String, c: char)
    ensures forall k :: 0 <= k < |Separators(s, c)| ==>
              var sep := Separators(s, c)[k];
              |sep| >= 2 && sep[0] == c && forall i :: 1 <= i < |sep| ==> IsSpace(sep[i])
    decreases |s|
  {
    var k := SepFrom(s, c, 0);
    if k != -1 {
      var e := SkipSpaces(s, k + 1);
      SeparatorShape(s[e..], c);
      var ss := Separators(s, c);
      assert ss[0] == s[k..e] && ss[1..] == Separators(s[e..], c);
      assert e > k + 1;
    }
  }

  /** A match of the pair pattern splits on `:\s+` into its key, the run of
      letters it starts with, and at least one more piece. */
  lemma PairSplits(s: String, p: nat)
    requires p <= |s| && PairAt(s, p).Some?
    ensures var ps := SplitSep(s[p..PairAt(s, p).value], ':');
            |ps| >= 2 && ps[0] == s[p..LetterEnd(s, p)] && IsWord(ps[0])
    ensures WellSplit(s[p..PairAt(s, p).value])
  {
    var e := PairAt(s, p).value;
    var a := LetterEnd(s, p);
    var m := s[p..e];
    var b := SkipSpaces(s, a + 1);
    assert a + 1 < b < e;
    assert IsSepAt(m, ':', a - p) by {
      assert m[a - p] == s[a] && m[a - p + 1] == s[a + 1];
    }
    var k := SepFrom(m, ':', 0);
    assert forall i :: 0 <= i < a - p ==> m[i] == s[p + i];
    assert k == a - p;
    assert m[..k] == s[p..a];
  }

  /* ---------------------------------------------------------------------- */
  /* The record                                                              */
  /* ---------------------------------------------------------------------- */

  /** The key of a match: the text before the first `:\s+`. */
  function PairKey(m: String): String {
    SplitSep(m, ':')[0]
  }

  /** The value of a match: the text between the first and the second
      `:\s+`, every `'` removed. */
  function PairValue(m: String): String
    requires |SplitSep(m, ':')| >= 2
  {
    RemoveChar(SplitSep(m, ':')[1], '\'')
  }

  predicate AllSplit(ms: seq<String>) {
    forall i :: 0 <= i < |ms| ==> |SplitSep(ms[i], ':')| >= 2
  }

  /** The `reduce` over the matches: each one sets its key. */
  function Collect(ms: seq<String>, acc: map<String, String>): (r: map<String, String>)
    requires AllSplit(ms)
    ensures forall k :: k in r ==> k in acc || exists i :: 0 <= i < |ms| && PairKey(ms[i]) == k
  {
    if ms == [] then acc
    else
      var r := Collect(ms[1..], acc[PairKey(ms[0]) := PairValue(ms[0])]);
      assert forall i :: 0 <= i < |ms| - 1 ==> ms[1..][i] == ms[i + 1];
      r
  }

  /** A key no match sets keeps what it had. */
  lemma {:induction false} CollectUntouched(ms: seq<String>, acc: map<String, String>, key: String)
    requires AllSplit(ms)
    requires forall j :: 0 <= j < |ms| ==> PairKey(ms[j]) != key
    ensures key in Collect(ms, acc) <==> key in acc
    ensures key in acc ==> Collect(ms, acc)[key] == acc[key]
  {
    if ms != [] {
      assert forall j :: 0 <= j < |ms| - 1 ==> ms[1..][j] == ms[j + 1];
      CollectUntouched(ms[1..], acc[PairKey(ms[0]) := PairValue(ms[0])], key);
    }
  }

  /** A later match of a key overwrites an earlier one: the key holds the
      value of its last match. */
  lemma {:induction false} LastMatchWins(ms: seq<String>, acc: map<String, String>, i: nat)
    requires AllSplit(ms) && i < |ms|
    requires forall j :: i < j < |ms| ==> PairKey(ms[j]) != PairKey(ms[i])
    ensures PairKey(ms[i]) in Collect(ms, acc) && Collect(ms, acc)[PairKey(ms[i])] == PairValue(ms[i])
  {
    var next := acc[PairKey(ms[0]) := PairValue(ms[0])];
    assert forall j :: 0 <= j < |ms| - 1 ==> ms[1..][j] == ms[j + 1];
    if i == 0 {
      CollectUntouched(ms[1..], next, PairKey(ms[0]));
    } else {
      LastMatchWins(ms[1..], next, i - 1);
    }
  }

  /** An entry: no pairs at all, or the pairs as a record with `duties`
      set last. */
  datatype Entry = NoPairs | Record(fields: map<String, String>, duties: seq<String>)

  /** The matches in an element's front matter. */
  function Pairs(e: String): (r: seq<String>)
    ensures AllSplit(r) && forall i :: 0 <= i < |r| ==> IsWord(PairKey(r[i]))
  {
    PairsFromSplit(Content(e), 0);
    PairsFrom(Content(e), 0)
  }

  /** One element. The `duties` of the record replace a pair of that
      name. */
  function ParseElement(e: String): (r: Entry)
    ensures r.NoPairs? <==> Pairs(e) == []
    ensures r.Record? ==> r.fields == Collect(Pairs(e), map[]) - {"duties"}
    ensures r.Record? ==>
              "duties" !in r.fields && r.duties == SplitSep(e, '-')[1..]
              && forall k :: k in r.fields ==> IsWord(k)
  {
    var ms := Pairs(e);
    if ms == [] then NoPairs
    else Record(Collect(ms, map[]) - {"duties"}, SplitSep(e, '-')[1..])
  }

  /** A key other than `duties` holds the value of its last match in a
      record collected from the matches `ms`. */
  lemma RecordFieldIsLastMatch(ms: seq<String>, fields: map<String, String>, i: nat)
    requires AllSplit(ms) && fields == Collect(ms, map[]) - {"duties"}
    requires i < |ms| && PairKey(ms[i]) != "duties"
    requires forall j :: i < j < |ms| ==> PairKey(ms[j]) != PairKey(ms[i])
    ensures PairKey(ms[i]) in fields && fields[PairKey(ms[i])] == PairValue(ms[i])
  {
    LastMatchWins(ms, map[], i);
    KeptByRemoval(Collect(ms, map[]), fields, PairKey(ms[i]), PairValue(ms[i]));
  }

  /** Removing `duties` keeps every other key and its value. */
  lemma KeptByRemoval(c: map<String, String>, fields: map<String, String>, k: String, v: String)
    requires fields == c - {"duties"} && k != "duties" && k in c && c[k] == v
    ensures k in fields && fields[k] == v
  {
  }

  /** A key other than `duties` holds the value of its last match in the
      front matter. */
  lemma ElementFieldIsLastMatch(e: String, i: nat)
    requires i < |Pairs(e)| && PairKey(Pairs(e)[i]) != "duties"
    requires forall j :: i < j < |Pairs(e)| ==> PairKey(Pairs(e)[j]) != PairKey(Pairs(e)[i])
    ensures ParseElement(e).Record?
    ensures PairKey(Pairs(e)[i]) in ParseElement(e).fields
            && ParseElement(e).fields[PairKey(Pairs(e)[i])] == PairValue(Pairs(e)[i])
  {
    RecordFieldIsLastMatch(Pairs(e), ParseElement(e).fields, i);
  }

  /** A key that no match sets is not a field. */
  lemma ElementFieldAbsent(e: String, key: String)
    requires forall j :: 0 <= j < |Pairs(e)| ==> PairKey(Pairs(e)[j]) != key
    ensures ParseElement(e).Record? ==> key !in ParseElement(e).fields
  {
    CollectUntouched(Pairs(e), map[], key);
  }

  /** An element without front matter has no pairs. */
  lemma NoFrontMatter(e: String)
    requires FrontMatter(e).None?
    ensures ParseElement(e) == NoPairs
  {
  }

  /** `parseMarkdown`: one entry per element, in order. */
  function ParseMarkdownList(elements: seq<String>): (r: seq<Entry>)
    ensures |r| == |elements| && forall i :: 0 <= i < |r| ==> r[i] == ParseElement(elements[i])
  {
    seq(|elements|, i requires 0 <= i < |elements| => ParseElement(elements[i]))
  }
}
