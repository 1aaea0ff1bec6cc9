/**
 * The placeholder substitution of the build page: every match of the
 * pattern `{{[a-z]+}}` in the template is replaced, in one left-to-right pass
 * over non-overlapping matches, by the fragment registered under the whole
 * match (braces included), or by nothing when there is none.
 */
module Placeholders {
  import opened FsTree

  predicate IsLower(c: char)
  {
    'a' <= c <= 'z'
  }

  /** A whole match of the pattern: two opening braces, at least one
      lower-case ASCII letter and nothing else, two closing braces. */
  predicate IsPlaceholder(w: string)
  {
    |w| >= 5 && w[..2] == "{{" && w[|w| - 2..] == "}}" &&
    forall k :: 2 <= k < |w| - 2 ==> IsLower(w[k])
  }

  /** Number of lower-case letters `s` starts with. */
  function LetterRun(s: string): (n: nat)
    ensures n <= |s|
    ensures forall k :: 0 <= k < n ==> IsLower(s[k])
    ensures n < |s| ==> !IsLower(s[n])
  {
    if s != [] && IsLower(s[0]) then 1 + LetterRun(s[1..]) else 0
  }

  /** Length of the match of the pattern at the start of `s`, if there is one. */
  function MatchLen(s: string): (r: Option<nat>)
    ensures r.Some? ==> 5 <= r.value <= |s|
  {
    if |s| >= 2 && s[0] == '{' && s[1] == '{' then
      var n := LetterRun(s[2..]);
      if n >= 1 && n + 4 <= |s| && s[n + 2] == '}' && s[n + 3] == '}' then Some(n + 4) else None
    else None
  }

  /** The fragment for a match; a missing fragment renders as nothing. */
  function Lookup(fragments: map<string, string>, w: string): string
  {
    if w in fragments then fragments[w] else ""
  }

  /** The page text: one left-to-right pass over the template in which each
      placeholder becomes its fragment, or nothing when it has none or an
      empty one, and every other character is kept. */
  function Replace(s: string, fragments: map<string, string>): string
    decreases |s|
  {
    if s == [] then ""
    else match MatchLen(s)
      case Some(n) => Lookup(fragments, s[..n]) + Replace(s[n..], fragments)
      case None => [s[0]] + Replace(s[1..], fragments)
  }

  /** The pattern matches at the start of `s` exactly when some prefix of `s`
      is a placeholder, and that prefix is the match: a match cannot be
      shortened or extended, since a letter is never a closing brace. */
  lemma MatchLenIff(s: string, n: nat)
    requires n <= |s|
    ensures IsPlaceholder(s[..n]) <==> MatchLen(s) == Some(n)
  {
    if IsPlaceholder(s[..n]) {
      var m := LetterRun(s[2..]);
      assert s[0] == s[..n][0] && s[1] == s[..n][1];
      forall k | 0 <= k < n - 4
        ensures IsLower(s[2..][k])
      {
        assert s[2..][k] == s[..n][k + 2];
      }
      assert s[..n][n - 2] == '}';
      assert s[2..][n - 4] == s[..n][n - 2];
      assert m == n - 4;
      assert s[n - 2] == s[..n][n - 2] && s[n - 1] == s[..n][n - 1];
    }
    if MatchLen(s) == Some(n) {
      var w := s[..n];
      assert w[..2] == "{{";
      assert w[n - 2..] == "}}";
      forall k | 2 <= k < n - 2
        ensures IsLower(w[k])
      {
        assert w[k] == s[2..][k - 2];
      }
    }
  }

  // ---------------------------------------------------------------------
  // A reference definition: the template cut into pieces

  /** A template read as a sequence of pieces: a character copied as it is,
      or a placeholder to be filled in. */
  datatype Piece = Lit(c: char) | Hole(key: string)

  function Text(ps: seq<Piece>): string
  {
    if ps == [] then ""
    else (match ps[0] case Lit(c) => [c] case Hole(k) => k) + Text(ps[1..])
  }

  function Render(ps: seq<Piece>, fragments: map<string, string>): string
  {
    if ps == [] then ""
    else (match ps[0] case Lit(c) => [c] case Hole(k) => Lookup(fragments, k)) + Render(ps[1..], fragments)
  }

  /** No prefix of `s` is a placeholder: the pattern does not match here. */
  predicate NoMatchAt(s: string)
  {
    forall n :: 0 <= n <= |s| ==> !IsPlaceholder(s[..n])
  }

  /** The cut a left-to-right scan makes: every hole is a placeholder, and a
      character is copied only where no placeholder starts. */
  predicate Scanned(ps: seq<Piece>)
  {
    ps == [] ||
    ((match ps[0] case Lit(_) => NoMatchAt(Text(ps)) case Hole(k) => IsPlaceholder(k))
     && Scanned(ps[1..]))
  }

  /** Replacing in the text of a scan renders the scan. */
  lemma {:induction false} ReplaceRender(ps: seq<Piece>, fragments: map<string, string>)
    requires Scanned(ps)
    ensures Replace(Text(ps), fragments) == Render(ps, fragments)
  {
    if ps != [] {
      var s := Text(ps);
      var rest := Text(ps[1..]);
      ReplaceRender(ps[1..], fragments);
      match ps[0]
      case Lit(c) =>
        assert s == [c] + rest;
        NoMatchNone(s);
        assert s[1..] == rest;
      case Hole(k) =>
        assert s == k + rest;
        assert s[..|k|] == k && s[|k|..] == rest;
        MatchLenIff(s, |k|);
    }
  }

  /** The scan of a text: it exists for every text. */
  function Scan(s: string): (ps: seq<Piece>)
    ensures Text(ps) == s && Scanned(ps)
    decreases |s|
  {
    if s == [] then []
    else match MatchLen(s)
      case Some(n) =>
        var rest := Scan(s[n..]);
        ScanHole(s, n, rest);
        [Hole(s[..n])] + rest
      case None =>
        var rest := Scan(s[1..]);
        ScanLit(s, rest);
        [Lit(s[0])] + rest
  }

  /** A match at the front of a text starts its scan with a hole. */
  lemma ScanHole(s: string, n: nat, rest: seq<Piece>)
    requires MatchLen(s) == Some(n)
    requires Text(rest) == s[n..] && Scanned(rest)
    ensures Text([Hole(s[..n])] + rest) == s && Scanned([Hole(s[..n])] + rest)
  {
    MatchLenIff(s, n);
    var ps := [Hole(s[..n])] + rest;
    assert ps[1..] == rest;
    assert s[..n] + s[n..] == s;
  }

  /** No match at the front of a non-empty text starts its scan with a
      copied character. */
  lemma ScanLit(s: string, rest: seq<Piece>)
    requires s != [] && MatchLen(s).None?
    requires Text(rest) == s[1..] && Scanned(rest)
    ensures Text([Lit(s[0])] + rest) == s && Scanned([Lit(s[0])] + rest)
  {
    NoMatchHere(s);
    var ps := [Lit(s[0])] + rest;
    assert ps[1..] == rest;
    assert [s[0]] + s[1..] == s;
  }

  /** Where no prefix is a placeholder the matcher reports nothing. */
  lemma NoMatchNone(s: string)
    ensures NoMatchAt(s) ==> MatchLen(s).None?
  {
    if MatchLen(s).Some? {
      MatchLenIff(s, MatchLen(s).value);
    }
  }

  lemma NoMatchHere(s: string)
    requires MatchLen(s).None?
    ensures NoMatchAt(s)
  {
    forall n | 0 <= n <= |s|
      ensures !IsPlaceholder(s[..n])
    {
      MatchLenIff(s, n);
    }
  }

  /** The substitution renders the scan of the template. */
  lemma ReplaceIsRender(s: string, fragments: map<string, string>)
    ensures Replace(s, fragments) == Render(Scan(s), fragments)
  {
    ReplaceRender(Scan(s), fragments);
  }

  /** A text has only one scan. */
  lemma {:induction false} ScanUnique(ps: seq<Piece>, qs: seq<Piece>)
    requires Scanned(ps) && Scanned(qs) && Text(ps) == Text(qs)
    ensures ps == qs
  {
    if ps != [] && qs != [] {
      var s := Text(ps);
      match (ps[0], qs[0])
      case (Lit(a), Lit(b)) =>
        assert s[0] == a && s[0] == b;
        assert Text(ps[1..]) == Text(qs[1..]) by {
          assert s == [a] + Text(ps[1..]) && s == [b] + Text(qs[1..]);
          assert s[1..] == Text(ps[1..]) && s[1..] == Text(qs[1..]);
        }
        ScanUnique(ps[1..], qs[1..]);
      case (Lit(a), Hole(k)) =>
        HoleBlocks(qs);
        assert false;
      case (Hole(k), Lit(b)) =>
        HoleBlocks(ps);
        assert false;
      case (Hole(k), Hole(j)) =>
        assert s == k + Text(ps[1..]) && s == j + Text(qs[1..]);
        assert s[..|k|] == k && s[..|j|] == j;
        MatchLenIff(s, |k|);
        MatchLenIff(s, |j|);
        assert s[|k|..] == Text(ps[1..]) && s[|j|..] == Text(qs[1..]);
        ScanUnique(ps[1..], qs[1..]);
    } else if ps != [] || qs != [] {
      ScannedText(ps);
      ScannedText(qs);
      assert false;
    }
  }

  /** A scan that starts with a hole has a match at the front of its text. */
  lemma HoleBlocks(ps: seq<Piece>)
    ensures Scanned(ps) && ps != [] && ps[0].Hole? ==> !NoMatchAt(Text(ps))
  {
    if Scanned(ps) && ps != [] && ps[0].Hole? {
      var k := ps[0].key;
      assert Text(ps) == k + Text(ps[1..]);
      assert Text(ps)[..|k|] == k;
    }
  }

  /** A scan with at least one piece has a non-empty text. */
  lemma ScannedText(ps: seq<Piece>)
    ensures Scanned(ps) && ps != [] ==> Text(ps) != []
  {
  }

  // ---------------------------------------------------------------------
  // Consequences

  /** A template with no placeholder anywhere is written out unchanged. */
  lemma {:induction false} NoPlaceholderUnchanged(s: string, fragments: map<string, string>)
    requires forall i, j :: 0 <= i <= j <= |s| ==> !IsPlaceholder(s[i..j])
    ensures Replace(s, fragments) == s
    decreases |s|
  {
    if s != [] {
      MatchFound(s);
      assert MatchLen(s).None?;
      forall i, j | 0 <= i <= j <= |s[1..]|
        ensures !IsPlaceholder(s[1..][i..j])
      {
        assert s[1..][i..j] == s[i + 1..j + 1];
      }
      NoPlaceholderUnchanged(s[1..], fragments);
      assert [s[0]] + s[1..] == s;
    }
  }

  /** A match is a placeholder. */
  lemma MatchFound(s: string)
    ensures MatchLen(s).Some? ==> IsPlaceholder(s[0..MatchLen(s).value])
  {
    if MatchLen(s).Some? {
      MatchLenIff(s, MatchLen(s).value);
      assert s[0..MatchLen(s).value] == s[..MatchLen(s).value];
    }
  }

  /** A placeholder at the front is replaced by its fragment and the pass
      resumes right after it; the fragment itself is never scanned again. */
  lemma ReplaceFront(w: string, rest: string, fragments: map<string, string>)
    requires IsPlaceholder(w)
    ensures Replace(w + rest, fragments) == Lookup(fragments, w) + Replace(rest, fragments)
  {
    var s := w + rest;
    assert s[..|w|] == w && s[|w|..] == rest;
    MatchLenIff(s, |w|);
  }

  /** Where no opening brace starts the text, its first character is
      copied and the pass moves on by one. */
  lemma ReplaceCopy(t: string, fragments: map<string, string>)
    requires t != [] && t[0] != '{'
    ensures Replace(t, fragments) == [t[0]] + Replace(t[1..], fragments)
  {
    assert MatchLen(t).None?;
  }

  /** Text without an opening brace is copied as it is, and the pass goes on
      after it. */
  lemma {:induction false} ReplaceNoBrace(s: string, rest: string, fragments: map<string, string>)
    requires forall k :: 0 <= k < |s| ==> s[k] != '{'
    ensures Replace(s + rest, fragments) == s + Replace(rest, fragments)
  {
    if s == [] {
      assert s + rest == rest;
    } else {
      var t := s + rest;
      assert t[0] == s[0] && t[1..] == s[1..] + rest;
      ReplaceCopy(t, fragments);
      ReplaceNoBrace(s[1..], rest, fragments);
      assert [s[0]] + (s[1..] + Replace(rest, fragments)) == s + Replace(rest, fragments);
    }
  }

  /** The pattern is case-sensitive, needs a letter and allows nothing else
      between the braces: lower-case keys match, others do not. */
  lemma PatternExamples()
    ensures !IsPlaceholder("{{Header}}")
    ensures !IsPlaceholder("{{}}")
    ensures !IsPlaceholder("{{foot-er}}")
    ensures IsPlaceholder("{{header}}")
    ensures IsPlaceholder("{{missing}}")
  {
    assert "{{Header}}"[2] == 'H';
    assert "{{foot-er}}"[6] == '-';
    var w := "{{header}}";
    assert w[..2] == "{{" && w[|w| - 2..] == "}}";
    var m := "{{missing}}";
    assert m[..2] == "{{" && m[|m| - 2..] == "}}";
  }

  /** A placeholder followed by plain text: the placeholder is replaced
      and the text kept. */
  lemma ReplaceHoleText(m: string, post: string, fragments: map<string, string>)
    requires forall k :: 0 <= k < |post| ==> post[k] != '{'
    requires IsPlaceholder(m)
    ensures Replace(m + post, fragments) == Lookup(fragments, m) + post
  {
    ReplaceNoBrace(post, "", fragments);
    assert post + "" == post;
    ReplaceFront(m, post, fragments);
  }

  /** Text, a placeholder, another placeholder and text: the text is kept
      and each placeholder is replaced by its fragment. */
  lemma ReplaceTwoHoles(pre: string, h: string, m: string, post: string,
                        fragments: map<string, string>)
    requires forall k :: 0 <= k < |pre| ==> pre[k] != '{'
    requires forall k :: 0 <= k < |post| ==> post[k] != '{'
    requires IsPlaceholder(h) && IsPlaceholder(m)
    ensures Replace(pre + (h + (m + post)), fragments)
         == pre + (Lookup(fragments, h) + (Lookup(fragments, m) + post))
  {
    ReplaceHoleText(m, post, fragments);
    ReplaceFront(h, m + post, fragments);
    ReplaceNoBrace(pre, h + (m + post), fragments);
  }

  /** A typical template: a known placeholder is filled, an unknown one is
      erased, the surrounding text is kept. */
  lemma TemplateExample(reg: map<string, string>)
    requires reg == map["{{header}}" := "<h1>Hi</h1>"]
    ensures Replace("<div>" + ("{{header}}" + ("{{missing}}" + "</div>")), reg)
         == "<div>" + ("<h1>Hi</h1>" + ("" + "</div>"))
  {
    PatternExamples();
    ReplaceTwoHoles("<div>", "{{header}}", "{{missing}}", "</div>", reg);
    assert "{{missing}}"[2] != "{{header}}"[2];
  }

  /** One pass only: a fragment that itself holds a placeholder is inserted
      as it is, not filled in. */
  lemma FragmentNotRescanned()
    ensures Replace("{{a}}", map["{{a}}" := "{{b}}", "{{b}}" := "x"]) == "{{b}}"
  {
    var w := "{{a}}";
    assert IsPlaceholder(w) by {
      assert w[..2] == "{{" && w[|w| - 2..] == "}}";
    }
    ReplaceFront(w, "", map["{{a}}" := "{{b}}", "{{b}}" := "x"]);
    assert w + "" == w;
  }

  /** A placeholder of one letter. */
  lemma ShortIsPlaceholder(c: char)
    requires IsLower(c)
    ensures IsPlaceholder(['{', '{', c, '}', '}'])
  {
    var w := ['{', '{', c, '}', '}'];
    assert w[..2] == "{{" && w[|w| - 2..] == "}}";
  }

  /** One pass only: erasing an inner placeholder can leave a new one behind,
      so a placeholder can survive the substitution: `{{{{a}}b}}` becomes
      `{{b}}` when `{{a}}` has no fragment. */
  lemma PlaceholderSurvives(a: char, b: char, fragments: map<string, string>)
    requires IsLower(a) && IsLower(b)
    requires Lookup(fragments, ['{', '{', a, '}', '}']) == ""
    ensures var left := ['{', '{', b, '}', '}'];
      && Replace(['{', '{'] + ['{', '{', a, '}', '}'] + [b, '}', '}'], fragments) == left
      && IsPlaceholder(left)
  {
    ShortIsPlaceholder(b);
    var w := ['{', '{', a, '}', '}'];
    var r := [b, '}', '}'];
    var s := ['{', '{'] + w + r;
    assert s[1..][1..] == w + r;
    ErasedHole(a, r, fragments);
    BraceRun(s[1..], fragments);
    BraceRun(s, fragments);
    assert "{" + ("{" + r) == ['{', '{', b, '}', '}'];
  }

  /** A placeholder without a fragment vanishes in front of brace-free text. */
  lemma ErasedHole(a: char, rest: string, fragments: map<string, string>)
    requires IsLower(a) && Lookup(fragments, ['{', '{', a, '}', '}']) == ""
    requires forall k :: 0 <= k < |rest| ==> rest[k] != '{'
    ensures Replace(['{', '{', a, '}', '}'] + rest, fragments) == rest
  {
    ShortIsPlaceholder(a);
    ReplaceFront(['{', '{', a, '}', '}'], rest, fragments);
    ReplaceNoBrace(rest, "", fragments);
    assert rest + "" == rest;
  }

  /** Three opening braces: the pattern does not match at the first one, which
      is copied to the output. */
  lemma BraceRun(s: string, fragments: map<string, string>)
    requires |s| >= 3 && s[0] == '{' && s[1] == '{' && s[2] == '{'
    ensures Replace(s, fragments) == "{" + Replace(s[1..], fragments)
  {
    assert s[2..][0] == '{';
    assert LetterRun(s[2..]) == 0;
  }
}
