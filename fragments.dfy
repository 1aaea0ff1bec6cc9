/**
 * The fragment registry of the build page: every name in the components
 * directory that ends in `.html` is read, and its contents are registered
 * under `{{<name>}}`, where `<name>` is the file name without its `.html`
 * extension as `path.parse` computes it. Later files overwrite earlier ones
 * registered under the same key, and one unreadable file fails the whole
 * registry.
 */
module Fragments {
  import opened FsTree
  import opened Paths
  import opened Placeholders

  predicate IsHtmlName(name: string)
  {
    EndsWith(name, ".html")
  }

  /** `path.parse(name).name` for a name ending in `.html`: the extension is
      cut off, except from the name `.html` itself, which counts as a dot
      file without an extension. */
  function Stem(name: string): (stem: string)
    requires IsHtmlName(name)
    ensures name == ".html" ==> stem == name
    ensures name != ".html" ==> stem + ".html" == name
  {
    if name == ".html" then name else name[..|name| - 5]
  }

  /** The registry key of a fragment file. */
  function KeyOf(name: string): string
    requires IsHtmlName(name)
  {
    "{{" + Stem(name) + "}}"
  }

  /** The registry after the listing `es` has been read in order into `reg`;
      None when some `.html` name is not a readable regular file. */
  function Register(reg: map<string, string>, es: seq<Entry>): Option<map<string, string>>
    decreases |es|
  {
    if es == [] then Some(reg)
    else if !IsHtmlName(es[0].name) then Register(reg, es[1..])
    else match es[0].node
      case File(d) => Register(reg[KeyOf(es[0].name) := d], es[1..])
      case _ => None
  }

  /** Reading fails exactly when some `.html` name of the listing is not a
      regular file. */
  lemma {:induction false} RegisterFails(reg: map<string, string>, es: seq<Entry>)
    ensures Register(reg, es).None? <==>
      exists i :: 0 <= i < |es| && IsHtmlName(es[i].name) && !es[i].node.File?
    decreases |es|
  {
    if es != [] {
      if IsHtmlName(es[0].name) && es[0].node.File? {
        RegisterFails(reg[KeyOf(es[0].name) := es[0].node.data], es[1..]);
      } else {
        RegisterFails(reg, es[1..]);
      }
      if exists i :: 0 <= i < |es[1..]| && IsHtmlName(es[1..][i].name) && !es[1..][i].node.File? {
        var i :| 0 <= i < |es[1..]| && IsHtmlName(es[1..][i].name) && !es[1..][i].node.File?;
        assert es[1..][i] == es[i + 1];
      }
      if exists i :: 0 <= i < |es| && IsHtmlName(es[i].name) && !es[i].node.File? {
        var i :| 0 <= i < |es| && IsHtmlName(es[i].name) && !es[i].node.File?;
        if i > 0 {
          assert es[1..][i - 1] == es[i];
        }
      }
    }
  }

  /** A key is registered exactly when it was there before or is the key of
      an `.html` name of the listing. */
  lemma {:induction false} RegisterKeys(reg: map<string, string>, es: seq<Entry>, k: string)
    requires Register(reg, es).Some?
    ensures k in Register(reg, es).value <==>
      k in reg || exists i :: 0 <= i < |es| && IsHtmlName(es[i].name) && KeyOf(es[i].name) == k
    decreases |es|
  {
    if es != [] {
      var next := if IsHtmlName(es[0].name) then reg[KeyOf(es[0].name) := es[0].node.data] else reg;
      RegisterKeys(next, es[1..], k);
      if exists i :: 0 <= i < |es[1..]| && IsHtmlName(es[1..][i].name) && KeyOf(es[1..][i].name) == k {
        var i :| 0 <= i < |es[1..]| && IsHtmlName(es[1..][i].name) && KeyOf(es[1..][i].name) == k;
        assert es[1..][i] == es[i + 1];
      }
      if exists i :: 0 <= i < |es| && IsHtmlName(es[i].name) && KeyOf(es[i].name) == k {
        var i :| 0 <= i < |es| && IsHtmlName(es[i].name) && KeyOf(es[i].name) == k;
        if i > 0 {
          assert es[1..][i - 1] == es[i];
        }
      }
    }
  }

  /** The contents registered under a key come from the last `.html` file
      of the listing with that key: later files overwrite earlier ones. */
  lemma {:induction false} RegisterLastWins(reg: map<string, string>, es: seq<Entry>, i: nat)
    requires Register(reg, es).Some?
    requires i < |es| && IsHtmlName(es[i].name)
    requires forall j :: i < j < |es| && IsHtmlName(es[j].name) ==> KeyOf(es[j].name) != KeyOf(es[i].name)
    ensures es[i].node.File?
    ensures KeyOf(es[i].name) in Register(reg, es).value
    ensures Register(reg, es).value[KeyOf(es[i].name)] == es[i].node.data
    decreases |es|
  {
    var next := if IsHtmlName(es[0].name) then reg[KeyOf(es[0].name) := es[0].node.data] else reg;
    if i == 0 {
      RegisterKeeps(next, es[1..], KeyOf(es[0].name));
    } else {
      forall j | i - 1 < j < |es[1..]| && IsHtmlName(es[1..][j].name)
        ensures KeyOf(es[1..][j].name) != KeyOf(es[1..][i - 1].name)
      {
        assert es[1..][j] == es[j + 1];
      }
      RegisterLastWins(next, es[1..], i - 1);
    }
  }

  /** A key no later `.html` name maps to keeps its registered contents. */
  lemma {:induction false} RegisterKeeps(reg: map<string, string>, es: seq<Entry>, k: string)
    requires Register(reg, es).Some? && k in reg
    requires forall j :: 0 <= j < |es| && IsHtmlName(es[j].name) ==> KeyOf(es[j].name) != k
    ensures k in Register(reg, es).value && Register(reg, es).value[k] == reg[k]
    decreases |es|
  {
    if es != [] {
      var next := if IsHtmlName(es[0].name) then reg[KeyOf(es[0].name) := es[0].node.data] else reg;
      forall j | 0 <= j < |es[1..]| && IsHtmlName(es[1..][j].name)
        ensures KeyOf(es[1..][j].name) != k
      {
        assert es[1..][j] == es[j + 1];
      }
      RegisterKeeps(next, es[1..], k);
    }
  }

  /** The key of a fragment file can be substituted into a template exactly
      when its name without `.html` is a non-empty run of lower-case
      letters; `Header.html` or `main-nav.html` are read but never used. */
  lemma KeyUsable(name: string)
    requires IsHtmlName(name)
    ensures IsPlaceholder(KeyOf(name)) <==>
      |Stem(name)| >= 1 && forall k :: 0 <= k < |Stem(name)| ==> IsLower(Stem(name)[k])
  {
    var s := Stem(name);
    var w := KeyOf(name);
    assert w[..2] == "{{" && w[|w| - 2..] == "}}";
    assert forall k :: 0 <= k < |s| ==> w[k + 2] == s[k];
    if IsPlaceholder(w) {
      forall k | 0 <= k < |s|
        ensures IsLower(s[k])
      {
        assert w[k + 2] == s[k];
      }
    }
  }

  /** `header.html` fills `{{header}}`; the name `.html` keeps its dot, so it
      and `.html.html` share the key `{{.html}}`. */
  lemma KeyExamples()
    ensures KeyOf("header.html") == "{{header}}"
    ensures KeyOf(".html") == KeyOf(".html.html") == "{{.html}}"
  {
    assert "header.html"[..|"header.html"| - 5] == "header";
    assert ".html.html"[..|".html.html"| - 5] == ".html";
    assert ".html.html" != ".html";
  }
}
