/**
 * The decisions of `POST /api/blog/generate`
 * (src/app/api/blog/generate/route.ts): the secret and bearer checks that
 * guard the route, the slug derived from the generated title, and the
 * document written to the CMS.
 */
module GenerateRoute {
  import opened Text
  import GenerateBlog

  /* ---------------------------------------------------------------------- */
  /* The guards                                                              */
  /* ---------------------------------------------------------------------- */

  /** Go on with the generation, or answer with a status and an error. */
  datatype Outcome = Proceed | Refuse(status: nat, error: String)

  const NotConfigured: String := "Blog generation is not configured"
  const Unauthorized: String := "Unauthorized"
  const MissingWriteConfig: String := "Sanity write configuration is missing"

  /** The only `authorization` header accepted. */
  function BearerFor(secret: String): String {
    "Bearer " + secret
  }

  /** The guards, in the order of the source: the server's secret, the
      caller's header, then the write configuration. */
  function Authorize(secret: Option<String>, authHeader: Option<String>, apiToken: Option<String>,
                     projectId: Option<String>, dataset: Option<String>): (r: Outcome)
    ensures r.Proceed? ==> Present(secret) && authHeader == Some(BearerFor(secret.value))
    ensures r.Refuse? ==> r.status == 500 || r.status == 401
  {
    if !Present(secret) then Refuse(500, NotConfigured)
    else if !Present(authHeader) || authHeader.value != BearerFor(secret.value) then Refuse(401, Unauthorized)
    else if !Present(apiToken) || !Present(projectId) || !Present(dataset) then Refuse(500, MissingWriteConfig)
    else Proceed
  }

  /** Without a secret the answer is 500 whatever the header says; with
      one, the request is refused with 401 exactly when the header is not
      "Bearer " followed by the secret; the write configuration is looked
      at only after that, and a missing part of it gives 500. */
  lemma AuthorizeDecision(secret: Option<String>, authHeader: Option<String>, apiToken: Option<String>,
                          projectId: Option<String>, dataset: Option<String>)
    ensures var r := Authorize(secret, authHeader, apiToken, projectId, dataset);
            (!Present(secret) ==> r == Refuse(500, NotConfigured))
            && (Present(secret) ==> (r == Refuse(401, Unauthorized) <==> authHeader != Some(BearerFor(secret.value))))
            && (r == Refuse(500, MissingWriteConfig) <==> (Present(secret) && authHeader == Some(BearerFor(secret.value))
                        && !(Present(apiToken) && Present(projectId) && Present(dataset))))
            && (r.Proceed? <==> (Present(secret) && authHeader == Some(BearerFor(secret.value))
                                 && Present(apiToken) && Present(projectId) && Present(dataset)))
  {
    var r := Authorize(secret, authHeader, apiToken, projectId, dataset);
    assert NotConfigured != MissingWriteConfig;
    if Present(secret) && authHeader == Some(BearerFor(secret.value)) {
      assert Present(authHeader);
    }
  }

  /* ---------------------------------------------------------------------- */
  /* The slug                                                                */
  /* ---------------------------------------------------------------------- */

  predicate IsSlugChar(c: char) {
    IsLowerAlnum(c) || c == '-'
  }

  /** No two `-` next to each other. */
  predicate NoDoubleDash(s: String) {
    forall i :: 0 <= i < |s| - 1 ==> !(s[i] == '-' && s[i + 1] == '-')
  }

  /** Only `a-z`, `0-9` and `-`, no `--`, and no `-` at either end. */
  predicate ValidSlug(s: String) {
    (forall i :: 0 <= i < |s| ==> IsSlugChar(s[i])) && NoDoubleDash(s)
    && (s != [] ==> s[0] != '-' && s[|s| - 1] != '-')
  }

  /** What is left after the run of characters outside `[a-z0-9]` at the
      start. */
  function DropRun(t: String): (r: String)
    ensures |r| <= |t| && r == t[|t| - |r|..]
    ensures r == [] || IsLowerAlnum(r[0])
  {
    if t != [] && !IsLowerAlnum(t[0]) then
      var r := DropRun(t[1..]);
      assert t[1..][|t| - 1 - |r|..] == t[|t| - |r|..];
      r
    else t
  }

  /** `replace(/[^a-z0-9]+/g, '-')`: every maximal run of other characters
      becomes one `-`. */
  function Dashify(s: String): (r: String)
    ensures forall i :: 0 <= i < |r| ==> IsSlugChar(r[i])
    ensures NoDoubleDash(r)
    ensures s != [] ==> r != [] && (r[0] == '-' <==> !IsLowerAlnum(s[0]))
    ensures |r| <= |s|
    decreases |s|
  {
    if s == [] then []
    else if IsLowerAlnum(s[0]) then [s[0]] + Dashify(s[1..])
    else
      var rest := DropRun(s[1..]);
      assert rest != [] ==> IsLowerAlnum(rest[0]);
      "-" + Dashify(rest)
  }

  /** `replace(/(^-|-$)/g, '')`: a `-` at the start and one at the end
      removed; a lone `-` goes at the first. */
  function StripEdges(t: String): (r: String) {
    var a := if t != [] && t[0] == '-' then 1 else 0;
    var b := if |t| > a && t[|t| - 1] == '-' then |t| - 1 else |t|;
    t[a..b]
  }

  /** The slug of a title. */
  function Slug(title: String): String {
    StripEdges(Dashify(ToLower(title)))
  }

  /** A slice keeps the slug characters and the absence of `--`. */
  lemma SliceKeepsSlugChars(d: String, a: nat, b: nat)
    requires a <= b <= |d|
    requires (forall i :: 0 <= i < |d| ==> IsSlugChar(d[i])) && NoDoubleDash(d)
    ensures (forall i :: 0 <= i < b - a ==> IsSlugChar(d[a..b][i])) && NoDoubleDash(d[a..b])
  {
    var r := d[a..b];
    forall i | 0 <= i < |r|
      ensures IsSlugChar(r[i])
    {
      assert r[i] == d[a + i];
    }
    forall i | 0 <= i < |r| - 1
      ensures !(r[i] == '-' && r[i + 1] == '-')
    {
      assert r[i] == d[a + i] && r[i + 1] == d[a + i + 1];
    }
  }

  /** Stripping the edges of a text of slug characters without `--`
      leaves a well-formed slug. */
  lemma StripEdgesValid(d: String)
    requires (forall i :: 0 <= i < |d| ==> IsSlugChar(d[i])) && NoDoubleDash(d)
    ensures ValidSlug(StripEdges(d))
  {
    var r := StripEdges(d);
    var a := if d != [] && d[0] == '-' then 1 else 0;
    var b := if |d| > a && d[|d| - 1] == '-' then |d| - 1 else |d|;
    assert r == d[a..b];
    SliceKeepsSlugChars(d, a, b);
    if r != [] {
      assert r[0] == d[a];
      assert r[|r| - 1] == d[b - 1];
      if a == 1 {
        assert d[0] == '-' && d[1] != '-';
      }
      if b == |d| - 1 {
        assert d[|d| - 2] != '-';
      }
    }
  }

  /** Every slug is well formed. */
  lemma SlugValid(title: String)
    ensures ValidSlug(Slug(title))
  {
    StripEdgesValid(Dashify(ToLower(title)));
  }

  /** Made of slug characters, without `--`, not ending in `-`. */
  predicate DashFixed(s: String) {
    (forall i :: 0 <= i < |s| ==> IsSlugChar(s[i])) && NoDoubleDash(s) && (s != [] ==> s[|s| - 1] != '-')
  }

  lemma DashFixedTail(s: String)
    requires s != [] && DashFixed(s)
    ensures DashFixed(s[1..])
  {
    var t := s[1..];
    assert forall i :: 0 <= i < |t| ==> t[i] == s[i + 1];
  }

  /** One step of `Dashify` over a `-` followed by a letter or a digit. */
  lemma DashifyDashStep(s: String)
    requires |s| >= 2 && s[0] == '-' && IsLowerAlnum(s[1])
    ensures Dashify(s) == "-" + Dashify(s[1..])
  {
    assert DropRun(s[1..]) == s[1..];
  }

  /** `Dashify` leaves such a text as it is. */
  lemma {:induction false} DashifyFixed(s: String)
    requires DashFixed(s)
    ensures Dashify(s) == s
    decreases |s|
  {
    if s != [] {
      var t := s[1..];
      DashFixedTail(s);
      DashifyFixed(t);
      assert IsLowerAlnum(s[0]) || (s[0] == '-' && |s| >= 2 && IsLowerAlnum(s[1])) by {
        if !IsLowerAlnum(s[0]) {
          assert s[0] == '-' && |s| >= 2 && s[1] != '-' && IsSlugChar(s[1]);
        }
      }
      DashifyFixedStep(s, t);
    }
  }

  /** The step of `DashifyFixed`: a letter or digit, or a `-` before one,
      is kept in front of the rest. */
  lemma DashifyFixedStep(s: String, t: String)
    requires s != [] && t == s[1..] && Dashify(t) == t
    requires IsLowerAlnum(s[0]) || (s[0] == '-' && |s| >= 2 && IsLowerAlnum(s[1]))
    ensures Dashify(s) == s
  {
    if IsLowerAlnum(s[0]) {
      assert Dashify(s) == [s[0]] + Dashify(t);
    } else {
      DashifyDashStep(s);
    }
    assert s == [s[0]] + t;
  }

  /** A well-formed slug is its own slug. */
  lemma SlugOfSlug(s: String)
    requires ValidSlug(s)
    ensures Slug(s) == s
  {
    assert ToLower(s) == s by {
      forall i | 0 <= i < |s|
        ensures ToLower(s)[i] == s[i]
      {
        assert IsSlugChar(s[i]);
      }
    }
    DashifyFixed(s);
    assert s[0..|s|] == s;
  }

  /** Deriving a slug twice gives the same slug. */
  lemma SlugIdempotent(title: String)
    ensures Slug(Slug(title)) == Slug(title)
  {
    SlugValid(title);
    SlugOfSlug(Slug(title));
  }

  /** Dropping a run that stops inside `t` is not affected by what
      follows `t`. */
  lemma {:induction false} DropRunAppend(t: String, u: String)
    requires t != [] && IsLowerAlnum(t[|t| - 1])
    ensures DropRun(t + u) == DropRun(t) + u
    decreases |t|
  {
    if !IsLowerAlnum(t[0]) {
      assert (t + u)[1..] == t[1..] + u;
      DropRunAppend(t[1..], u);
    }
  }

  /** One step of `Dashify` over another character. */
  lemma DashifyOtherStep(s: String)
    requires s != [] && !IsLowerAlnum(s[0])
    ensures Dashify(s) == "-" + Dashify(DropRun(s[1..]))
  {
  }

  /** Dropping the run at the start of a text that ends in a letter or a
      digit keeps that last character. */
  lemma {:induction false} DropRunKeepsLast(t: String)
    requires t != [] && IsLowerAlnum(t[|t| - 1])
    ensures DropRun(t) != [] && DropRun(t)[|DropRun(t)| - 1] == t[|t| - 1]
    decreases |t|
  {
    if !IsLowerAlnum(t[0]) {
      DropRunKeepsLast(t[1..]);
    }
  }

  /** A run of other characters is never merged across a letter or a
      digit: the text before one and the text after it are dashed apart. */
  lemma {:induction false} DashifyAppend(a: String, b: String)
    requires a != [] && IsLowerAlnum(a[|a| - 1])
    ensures Dashify(a + b) == Dashify(a) + Dashify(b)
    decreases |a|, 1
  {
    if IsLowerAlnum(a[0]) {
      DashifyAppendAlnum(a, b);
    } else {
      DashifyAppendOther(a, b);
    }
  }

  lemma {:induction false} DashifyAppendAlnum(a: String, b: String)
    requires a != [] && IsLowerAlnum(a[|a| - 1]) && IsLowerAlnum(a[0])
    ensures Dashify(a + b) == Dashify(a) + Dashify(b)
    decreases |a|, 0
  {
    var t := a[1..];
    assert a == [a[0]] + t && a + b == [a[0]] + (t + b);
    DashifyConsAlnum(a[0], t + b);
    DashifyConsAlnum(a[0], t);
    if t == [] {
      assert t + b == b;
    } else {
      DashifyAppend(t, b);
      ConsAppend([a[0]], Dashify(a + b), Dashify(a), Dashify(t), Dashify(b));
    }
  }

  lemma DashifyConsAlnum(c: char, t: String)
    requires IsLowerAlnum(c)
    ensures Dashify([c] + t) == [c] + Dashify(t)
  {
    assert ([c] + t)[1..] == t;
  }

  /** `c + (x + z)` is `(c + x) + z`, for texts named by their values. */
  lemma ConsAppend(c: String, whole: String, left: String, x: String, z: String)
    requires whole == c + (x + z) && left == c + x
    ensures whole == left + z
  {
  }

  lemma {:induction false} DashifyAppendOther(a: String, b: String)
    requires a != [] && IsLowerAlnum(a[|a| - 1]) && !IsLowerAlnum(a[0])
    ensures Dashify(a + b) == Dashify(a) + Dashify(b)
    decreases |a|, 0
  {
    var ab := a + b;
    assert ab[0] == a[0] && ab[1..] == a[1..] + b;
    DashifyOtherStep(ab);
    DashifyOtherStep(a);
    DropRunAppend(a[1..], b);
    DropRunKeepsLast(a[1..]);
    var d := DropRun(a[1..]);
    assert a[1..][|a| - 2] == a[|a| - 1];
    assert IsLowerAlnum(d[|d| - 1]) && |d| < |a|;
    DashifyAppend(d, b);
    AppendAssoc("-", Dashify(d), Dashify(b));
  }

  /** A run of other characters before a letter or a digit, or at the
      end, becomes one `-`. */
  lemma PunctuationRun(p: String, b: String)
    requires p != [] && forall i :: 0 <= i < |p| ==> !IsLowerAlnum(p[i])
    requires b == [] || IsLowerAlnum(b[0])
    ensures Dashify(p + b) == "-" + Dashify(b)
  {
    var pb := p + b;
    assert pb[0] == p[0] && pb[1..] == p[1..] + b;
    NoAlnumDropRunAppend(p[1..], b);
    DashifyRunStep(pb, b);
  }

  lemma DashifyRunStep(pb: String, b: String)
    requires pb != [] && !IsLowerAlnum(pb[0]) && DropRun(pb[1..]) == b
    ensures Dashify(pb) == "-" + Dashify(b)
  {
    DashifyOtherStep(pb);
  }

  lemma {:induction false} NoAlnumDropRunAppend(t: String, b: String)
    requires forall i :: 0 <= i < |t| ==> !IsLowerAlnum(t[i])
    requires b == [] || IsLowerAlnum(b[0])
    ensures DropRun(t + b) == b
    decreases |t|
  {
    if t == [] {
      assert t + b == b;
    } else {
      assert (t + b)[1..] == t[1..] + b;
      NoAlnumDropRunAppend(t[1..], b);
    }
  }

  /** A word of letters and digits is kept as it is. */
  lemma WordThen(w: String, b: String)
    requires w != [] && forall i :: 0 <= i < |w| ==> IsLowerAlnum(w[i])
    ensures Dashify(w + b) == w + Dashify(b)
  {
    DashifyFixed(w);
    DashifyAppend(w, b);
  }

  /** A word of letters and digits is kept as it is, and the run of other
      characters after it becomes one `-`. */
  lemma WordThenRun(w: String, p: String, rest: String)
    requires w != [] && forall i :: 0 <= i < |w| ==> IsLowerAlnum(w[i])
    requires p != [] && forall i :: 0 <= i < |p| ==> !IsLowerAlnum(p[i])
    requires rest == [] || IsLowerAlnum(rest[0])
    ensures Dashify(w + p + rest) == w + "-" + Dashify(rest)
  {
    var pr := p + rest;
    assert w + p + rest == w + pr;
    WordThen(w, pr);
    PunctuationRun(p, rest);
    AppendAssoc(w, "-", Dashify(rest));
  }

  /** Two lower-case words joined by any run of punctuation or spaces
      (the dot of "next.js", the apostrophe of "what's", ": ") give the
      two words joined by one `-`: the punctuation is never dropped. */
  lemma WordsJoined(u: String, p: String, v: String)
    requires u != [] && forall i :: 0 <= i < |u| ==> IsLowerAlnum(u[i])
    requires v != [] && forall i :: 0 <= i < |v| ==> IsLowerAlnum(v[i])
    requires p != [] && forall i :: 0 <= i < |p| ==> !IsLowerAlnum(LowerChar(p[i]))
    ensures Slug(u + p + v) == u + "-" + v
  {
    var lp := ToLower(p);
    assert ToLower(u + p + v) == u + lp + v by {
      var t := u + p + v;
      forall i | 0 <= i < |t|
        ensures ToLower(t)[i] == (u + lp + v)[i]
      {
        if i < |u| {
          assert t[i] == u[i];
        } else if i < |u| + |p| {
          assert t[i] == p[i - |u|];
        } else {
          assert t[i] == v[i - |u| - |p|];
        }
      }
    }
    WordThenRun(u, lp, v);
    DashifyFixed(v);
    var d := u + "-" + v;
    assert d[0] == u[0] && d[|d| - 1] == v[|v| - 1];
    assert StripEdges(d) == d[0..|d|];
  }

  /** A title without any letter or digit has the empty slug. */
  lemma {:induction false} NoAlnumDashify(s: String)
    requires forall i :: 0 <= i < |s| ==> !IsLowerAlnum(LowerChar(s[i]))
    ensures Dashify(ToLower(s)) == (if s == [] then [] else "-")
  {
    var l := ToLower(s);
    if s != [] {
      assert forall i :: 0 <= i < |l[1..]| ==> !IsLowerAlnum(l[1..][i]);
      NoAlnumDropRun(l[1..]);
    }
  }

  lemma {:induction false} NoAlnumDropRun(t: String)
    requires forall i :: 0 <= i < |t| ==> !IsLowerAlnum(t[i])
    ensures DropRun(t) == []
    decreases |t|
  {
    if t != [] {
      assert forall i :: 0 <= i < |t[1..]| ==> !IsLowerAlnum(t[1..][i]);
      NoAlnumDropRun(t[1..]);
    }
  }

  lemma PunctuationSlug(title: String)
    requires forall i :: 0 <= i < |title| ==> !IsLowerAlnum(LowerChar(title[i]))
    ensures Slug(title) == []
  {
    NoAlnumDashify(title);
  }

  /* ---------------------------------------------------------------------- */
  /* The document                                                            */
  /* ---------------------------------------------------------------------- */

  /** `{ _type: 'slug', current }`. */
  datatype SlugValue = SlugValue(typeName: String, current: String)

  /** The document the route writes. */
  datatype BlogPostDocument = BlogPostDocument(typeName: String, title: String, slug: SlugValue, summary: String,
                                               body: seq<GenerateBlog.Block>, publishedAt: String,
                                               tags: seq<String>, source: String, generated: bool)

  /** The document for the generated content; the time of publication,
      read from the clock in the source, is given. */
  function NewPost(title: String, summary: String, markdown: String, tags: seq<String>,
                   publishedAt: String): BlogPostDocument {
    BlogPostDocument("blogPost", title, SlugValue("slug", Slug(title)), summary,
                     GenerateBlog.Blocks(markdown), publishedAt, tags, "automated/gemini", true)
  }

  /** The fixed fields of every document, its slug well formed and derived
      from its title, and its body the blocks of the markdown. */
  lemma NewPostShape(title: String, summary: String, markdown: String, tags: seq<String>, publishedAt: String)
    ensures var d := NewPost(title, summary, markdown, tags, publishedAt);
            d.typeName == "blogPost" && d.slug.typeName == "slug" && d.source == "automated/gemini"
            && d.generated && ValidSlug(d.slug.current) && d.slug.current == Slug(d.title)
            && d.body == GenerateBlog.Blocks(markdown)
  {
    SlugValid(title);
  }
}
