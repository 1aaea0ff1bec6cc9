/**
 * What the page builder promises: how its setters fix paths, that a build
 * touches nothing outside the dist directory, what the dist directory holds
 * afterwards, and what a default build, first or repeated, writes there.
 */
module BuildProperties {
  import opened FsTree
  import opened FsLemmas
  import opened Paths
  import opened Placeholders
  import opened Fragments
  import CopyDirectory
  import opened MergeStyles
  import opened AssetCopy
  import opened BuildPage

  // ---------------------------------------------------------------------
  // Setters

  /** Calling a setter without an argument on a builder whose paths are
      already resolved changes nothing: each field's default is its own
      resolved value. */
  lemma DefaultCallsIdle(s: Settings)
    requires Resolved(s)
    ensures WithRootDir(s, None) == s
    ensures WithDistDir(s, None) == s
    ensures WithSourceAssetsDir(s, None) == s
    ensures WithDistAssetsDir(s, None) == s
    ensures WithSourceTemplatesDir(s, None) == s
    ensures WithSourceStylesDir(s, None) == s
    ensures WithSourceTemplateFile(s, None) == s
    ensures WithOutputHtmlFile(s, None) == s
    ensures WithCssBundleName(s, None) == s
  {
    ResolveOne(s.rootDir, Absolute(s.rootDir));
    ResolveOne(s.rootDir, s.distDir);
    ResolveOne(s.rootDir, s.sourceAssetsDir);
    ResolveOne(s.rootDir, s.sourceTemplatesDir);
    ResolveOne(s.rootDir, s.sourceStylesDir);
    ResolveOne(s.rootDir, s.sourceTemplateFile);
    ResolveTwo(s.rootDir, s.distDir, s.distAssetsDir);
    ResolveOne(s.distDir.segments, s.distAssetsDir);
    ResolveTwo(s.rootDir, s.distDir, s.cssBundleName);
    ResolveOne(s.distDir.segments, s.cssBundleName);
  }

  /** The dist assets directory and the bundle are resolved against the dist
      directory of the moment their setter runs: a later `setDistDir` leaves
      them where they were, a later call with a relative name puts them in
      the new dist directory, and a later call without a name keeps them
      where they were. */
  lemma DistPathsFixedAtCall(s: Settings, d: PathSpec, n: PathSpec)
    requires Resolved(s) && !n.absolute
    ensures WithDistDir(s, Some(d)).distAssetsDir == s.distAssetsDir
    ensures WithDistDir(s, Some(d)).cssBundleName == s.cssBundleName
    ensures WithDistAssetsDir(WithDistDir(s, Some(d)), Some(n)).distAssetsDir ==
      Absolute(Resolve(s.rootDir, [d]) + n.segments)
    ensures WithCssBundleName(WithDistDir(s, Some(d)), Some(n)).cssBundleName ==
      Absolute(Resolve(s.rootDir, [d]) + n.segments)
    ensures WithDistAssetsDir(WithDistDir(s, Some(d)), None).distAssetsDir == s.distAssetsDir
    ensures WithCssBundleName(WithDistDir(s, Some(d)), None).cssBundleName == s.cssBundleName
  {
    var dist := Absolute(Resolve(s.rootDir, [d]));
    ResolveTwo(s.rootDir, dist, n);
    ResolveOne(s.rootDir, dist);
    ResolveOne(dist.segments, n);
    ResolveTwo(s.rootDir, dist, s.distAssetsDir);
    ResolveOne(dist.segments, s.distAssetsDir);
    ResolveTwo(s.rootDir, dist, s.cssBundleName);
    ResolveOne(dist.segments, s.cssBundleName);
  }

  /** The output page name is stored as given, not resolved. */
  lemma OutputNameUnresolved(s: Settings, n: PathSpec)
    ensures WithOutputHtmlFile(s, Some(n)).outputHtmlFile == n
    ensures OutputPath(WithOutputHtmlFile(s, Some(n))) == Resolve(Resolve(s.rootDir, [s.distDir]), [n])
  {
    ResolveTwo(s.rootDir, s.distDir, n);
  }

  // ---------------------------------------------------------------------
  // The default layout

  /** Two paths that differ at some position are disjoint. */
  lemma Apart(p: Path, q: Path, k: nat)
    requires k < |p| && k < |q| && p[k] != q[k]
    ensures Disjoint(p, q)
  {
  }

  /** The paths of a default build that must not overlap do not. */
  lemma DefaultPathsApart(root: Path)
    ensures var dist := root + ["project-dist"];
      && Disjoint(dist, root + ["template.html"])
      && Disjoint(dist, root + ["components"])
      && Disjoint(dist, root + ["styles"])
      && Disjoint(dist, root + ["assets"])
      && Disjoint(dist + ["index.html"], dist + ["style.css"])
      && Disjoint(dist + ["index.html"], dist + ["assets"])
      && Disjoint(dist + ["style.css"], dist + ["assets"])
      && Disjoint(root + ["styles"], dist + ["style.css"])
      && Disjoint(root + ["assets"], dist + ["assets"])
      && Disjoint(dist + ["index.html"], root + ["assets"])
      && Disjoint(dist + ["style.css"], root + ["assets"])
      && Disjoint(root + ["assets"], root + ["styles"])
      && Disjoint(dist + ["index.html"], root + ["styles"])
  {
    var dist := root + ["project-dist"];
    var k := |root|;
    Apart(dist, root + ["template.html"], k);
    Apart(dist, root + ["components"], k);
    Apart(dist, root + ["styles"], k);
    Apart(dist, root + ["assets"], k);
    Apart(dist + ["index.html"], dist + ["style.css"], k + 1);
    Apart(dist + ["index.html"], dist + ["assets"], k + 1);
    Apart(dist + ["style.css"], dist + ["assets"], k + 1);
    Apart(root + ["styles"], dist + ["style.css"], k);
    Apart(root + ["assets"], dist + ["assets"], k);
    Apart(dist + ["index.html"], root + ["assets"], k);
    Apart(dist + ["style.css"], root + ["assets"], k);
    Apart(root + ["assets"], root + ["styles"], k);
    Apart(dist + ["index.html"], root + ["styles"], k);
  }

  /** A new builder's paths are resolved, fit the sequential build, and put
      the page, the bundle and the assets directly in the dist directory. */
  lemma DefaultsReady(root: Path)
    ensures var s := DefaultSettings(root);
      var dist := root + ["project-dist"];
      && Resolved(s) && Separated(s)
      && s.distDir.segments == dist
      && OutputPath(s) == dist + ["index.html"]
      && s.cssBundleName.segments == dist + ["style.css"]
      && s.distAssetsDir.segments == dist + ["assets"]
  {
    var s := DefaultSettings(root);
    DefaultPathsApart(root);
    ResolveTwo(root, s.distDir, s.outputHtmlFile);
    ResolveOne(root, s.distDir);
    ResolveOne(s.distDir.segments, s.outputHtmlFile);
    var b := root + ["project-dist"] + ["style.css"];
    assert b[..|b| - 1] == root + ["project-dist"];
    Apart(root + ["project-dist"], root + ["styles"], |root|);
  }

  // ---------------------------------------------------------------------
  // Nothing outside the dist directory changes

  /** The bundle step changes nothing outside the bundle. */
  lemma MergeOutside(t: Node, stylesDir: Path, bundle: Path, q: Path)
    requires Disjoint(bundle, q)
    ensures Get(MergeResult(t, stylesDir, bundle).tree, q) == Get(t, q)
  {
    if CanWrite(t, bundle) {
      var t1 := Set(t, bundle, File(""));
      GetSetDisjoint(t, bundle, q, File(""));
      if ListDir(t1, stylesDir).Some? {
        GetSetDisjoint(t1, bundle, q, File(BundleOf(ListDir(t1, stylesDir).value)));
      }
    }
  }

  /** The page step changes nothing outside the page. */
  lemma HtmlOutside(t: Node, templateFile: Path, templatesDir: Path, output: Path, q: Path)
    requires Disjoint(output, q)
    ensures Get(HtmlResult(t, templateFile, templatesDir, output).tree, q) == Get(t, q)
  {
    var h := HtmlResult(t, templateFile, templatesDir, output);
    if h.ok {
      GetSetDisjoint(t, output, q, File(Replace(ReadAt(t, templateFile).value, TemplatesData(t, templatesDir).value)));
    }
  }

  /** A build whose outputs all lie in its dist directory changes nothing
      outside that directory: the sources it reads are as they were. */
  lemma BuildOutside(t: Node, s: Settings, q: Path)
    requires s.distDir.segments <= OutputPath(s)
    requires s.distDir.segments <= s.cssBundleName.segments
    requires s.distDir.segments <= s.distAssetsDir.segments
    requires Disjoint(s.distDir.segments, q)
    ensures Get(BuildResult(t, s).tree, q) == Get(t, q)
  {
    var dist := s.distDir.segments;
    if MakeDirs(t, dist).Some? {
      var t1 := MakeDirs(t, dist).value;
      MakeDirsDisjoint(t, dist, q);
      CopyDirectory.ClearOutside(t1, dist, q);
      OutputsOutside(CopyDirectory.Cleared(t1, dist), s, q);
    }
  }

  /** The three steps after the clear change nothing outside the dist directory. */
  lemma OutputsOutside(t2: Node, s: Settings, q: Path)
    requires s.distDir.segments <= OutputPath(s)
    requires s.distDir.segments <= s.cssBundleName.segments
    requires s.distDir.segments <= s.distAssetsDir.segments
    requires Disjoint(s.distDir.segments, q)
    ensures Get(Outputs(t2, s).tree, q) == Get(t2, q)
  {
    var dist := s.distDir.segments;
    var out := OutputPath(s);
    InsideDisjoint(dist, out, q);
    var h := HtmlResult(t2, s.sourceTemplateFile.segments, s.sourceTemplatesDir.segments, out);
    HtmlOutside(t2, s.sourceTemplateFile.segments, s.sourceTemplatesDir.segments, out, q);
    var bundle := s.cssBundleName.segments;
    InsideDisjoint(dist, bundle, q);
    var c := MergeResult(h.tree, s.sourceStylesDir.segments, bundle);
    MergeOutside(h.tree, s.sourceStylesDir.segments, bundle, q);
    var dest := s.distAssetsDir.segments;
    InsideDisjoint(dist, dest, q);
    CopyDirOutside(c.tree, s.sourceAssetsDir.segments, dest, q);
  }

  /** A path inside a directory is apart from every path apart from it. */
  lemma InsideDisjoint(dist: Path, p: Path, q: Path)
    requires dist <= p && Disjoint(dist, q)
    ensures Disjoint(p, q)
  {
    assert p == dist + p[|dist|..];
    DisjointExtend(dist, q, p[|dist|..], []);
    assert q + [] == q;
  }

  /** A build whose dist directory cannot be created changes nothing and
      reports every step as not done. */
  lemma BuildBlocked(t: Node, s: Settings)
    requires Get(t, s.distDir.segments).Some? && !Get(t, s.distDir.segments).value.Dir?
    ensures BuildResult(t, s) == Built(t, Report(false, false, false, false))
  {
    MakeDirsBlocked(t, s.distDir.segments);
  }

  // ---------------------------------------------------------------------
  // What the dist directory holds after a build

  /** Names a default build writes into the dist directory. */
  predicate IsOutputName(n: string)
  {
    n == "index.html" || n == "style.css" || n == "assets"
  }

  /** The directory at `dist` holds only other-kind entries from `before`
      and entries with output names. */
  predicate OnlyOutputs(t: Node, dist: Path, before: seq<Entry>)
  {
    && ListDir(t, dist).Some?
    && forall e :: e in ListDir(t, dist).value ==> (e in before && e.node.Other?) || IsOutputName(e.name)
  }

  /** Putting an output into the dist directory keeps it to outputs. */
  lemma PutKeepsOutputs(t: Node, dist: Path, before: seq<Entry>, n: string, v: Node)
    requires OnlyOutputs(t, dist, before) && IsOutputName(n)
    ensures OnlyOutputs(Set(t, dist + [n], v), dist, before)
  {
    var x := ListDir(t, dist).value;
    SetGet(t, dist, Dir(x));
    SetChildPath(t, dist, x, n, v);
    var y := SetChild(x, n, v);
    GetSetExisting(t, dist, Dir(y));
    assert forall k :: 0 <= k < |y| ==> y[k] == Entry(n, v) || y[k] == x[k];
  }

  /** Creating an output directory in the dist directory keeps it to outputs. */
  lemma MakeKeepsOutputs(t: Node, dist: Path, before: seq<Entry>, n: string)
    requires OnlyOutputs(t, dist, before) && IsOutputName(n)
    requires MakeDirs(t, dist + [n]).Some?
    ensures OnlyOutputs(MakeDirs(t, dist + [n]).value, dist, before)
  {
    var x := ListDir(t, dist).value;
    MakeDirsChild(t, dist, x, n);
    if Find(x, n) == |x| {
      var y := x + [Entry(n, Dir([]))];
      GetSetExisting(t, dist, Dir(y));
      assert forall k :: 0 <= k < |y| ==> y[k] == Entry(n, Dir([])) || y[k] == x[k];
    }
  }

  /** The bundle step of a default build keeps the dist directory to outputs. */
  lemma CssKeepsOutputs(t: Node, stylesDir: Path, dist: Path, before: seq<Entry>)
    requires OnlyOutputs(t, dist, before)
    ensures OnlyOutputs(MergeResult(t, stylesDir, dist + ["style.css"]).tree, dist, before)
  {
    var bundle := dist + ["style.css"];
    if CanWrite(t, bundle) {
      var t1 := Set(t, bundle, File(""));
      PutKeepsOutputs(t, dist, before, "style.css", File(""));
      if ListDir(t1, stylesDir).Some? {
        PutKeepsOutputs(t1, dist, before, "style.css", File(BundleOf(ListDir(t1, stylesDir).value)));
      }
    }
  }

  /** The assets step of a default build keeps the dist directory to outputs. */
  lemma AssetsKeepOutputs(t: Node, src: Path, dist: Path, before: seq<Entry>)
    requires OnlyOutputs(t, dist, before)
    ensures OnlyOutputs(CopyDirResult(t, src, dist + ["assets"]).tree, dist, before)
  {
    var dest := dist + ["assets"];
    if MakeDirs(t, dest).Some? {
      var t1 := MakeDirs(t, dest).value;
      MakeKeepsOutputs(t, dist, before, "assets");
      match (ListDir(t1, dest), ListDir(t1, src))
      case (Some(x), Some(es)) =>
        PutKeepsOutputs(t1, dist, before, "assets", Dir(MergeAll(x, es).entries));
      case _ =>
    }
  }

  /** After a default build that could create its dist directory, the dist
      directory holds nothing from before the run except entries of other
      kinds; everything else in it is the page, the bundle or the assets. */
  lemma DistAfterBuild(t: Node, root: Path)
    requires MakeDirs(t, root + ["project-dist"]).Some?
    ensures var b := BuildResult(t, DefaultSettings(root));
      var dist := root + ["project-dist"];
      && b.report.prepared
      && ListDir(b.tree, dist).Some?
      && forall e :: e in ListDir(b.tree, dist).value ==>
           (e in CopyDirectory.Existing(t, dist) && e.node.Other?) || IsOutputName(e.name)
  {
    var s := DefaultSettings(root);
    var dist := root + ["project-dist"];
    DefaultsReady(root);
    var before := CopyDirectory.Existing(t, dist);
    var t1 := MakeDirs(t, dist).value;
    CopyDirectory.MadeDest(t, dist);
    var t2 := CopyDirectory.Cleared(t1, dist);
    CopyDirectory.ClearLeavesOnlyOthers(t1, dist, before);
    assert OnlyOutputs(t2, dist, before);
    var h := HtmlResult(t2, s.sourceTemplateFile.segments, s.sourceTemplatesDir.segments, dist + ["index.html"]);
    assert OnlyOutputs(h.tree, dist, before) by {
      if h.ok {
        PutKeepsOutputs(t2, dist, before, "index.html",
          File(Replace(ReadAt(t2, s.sourceTemplateFile.segments).value,
                       TemplatesData(t2, s.sourceTemplatesDir.segments).value)));
      }
    }
    CssKeepsOutputs(h.tree, s.sourceStylesDir.segments, dist, before);
    var c := MergeResult(h.tree, s.sourceStylesDir.segments, dist + ["style.css"]);
    AssetsKeepOutputs(c.tree, s.sourceAssetsDir.segments, dist, before);
  }
  // ---------------------------------------------------------------------
  // What a default build writes

  /** The dist directory is ready for the three steps of a default build: it
      is a directory and holds none of the names the build writes. */
  predicate DistReady(t: Node, dist: Path)
  {
    && IsDirAt(t, dist)
    && Get(t, dist + ["index.html"]).None?
    && Get(t, dist + ["style.css"]).None?
    && Get(t, dist + ["assets"]).None?
  }

  /** No entry of another kind in the dist directory before the run (which
      the clear keeps) uses a name the build writes. This holds on a first
      build and on any rebuild whose dist directory held only files and
      directories. */
  predicate NoStaleOutputNames(t: Node, dist: Path)
  {
    forall e :: e in CopyDirectory.Existing(t, dist) && e.node.Other? ==> !IsOutputName(e.name)
  }

  /** The page step of a default build, into a ready dist directory. */
  lemma HtmlStep(t1: Node, root: Path)
    requires WF(t1) && DistReady(t1, root + ["project-dist"])
    ensures var dist := root + ["project-dist"];
      var out := dist + ["index.html"];
      var h := HtmlResult(t1, root + ["template.html"], root + ["components"], out);
      && (h.ok <==> ReadAt(t1, root + ["template.html"]).Some? && TemplatesData(t1, root + ["components"]).Some?)
      && (h.ok ==> ReadAt(h.tree, out) ==
                     Some(Replace(ReadAt(t1, root + ["template.html"]).value, TemplatesData(t1, root + ["components"]).value)))
      && (!h.ok ==> Get(h.tree, out).None?)
      && IsDirAt(h.tree, dist)
      && Get(h.tree, dist + ["style.css"]).None?
      && Get(h.tree, dist + ["assets"]).None?
      && Get(h.tree, root + ["styles"]) == Get(t1, root + ["styles"])
      && Get(h.tree, root + ["assets"]) == Get(t1, root + ["assets"])
      && WF(h.tree)
  {
    var dist := root + ["project-dist"];
    var out := dist + ["index.html"];
    var h := HtmlResult(t1, root + ["template.html"], root + ["components"], out);
    assert out[..|out| - 1] == dist;
    if h.ok {
      var v := File(Replace(ReadAt(t1, root + ["template.html"]).value, TemplatesData(t1, root + ["components"]).value));
      PageWritten(t1, root, v);
    }
  }

  /** Writing the page into a ready dist directory. */
  lemma PageWritten(t1: Node, root: Path, v: Node)
    requires WF(t1) && DistReady(t1, root + ["project-dist"]) && WF(v)
    ensures var dist := root + ["project-dist"];
      var t := Set(t1, dist + ["index.html"], v);
      && Get(t, dist + ["index.html"]) == Some(v)
      && IsDirAt(t, dist)
      && Get(t, dist + ["style.css"]).None?
      && Get(t, dist + ["assets"]).None?
      && Get(t, root + ["styles"]) == Get(t1, root + ["styles"])
      && Get(t, root + ["assets"]) == Get(t1, root + ["assets"])
      && WF(t)
  {
    var dist := root + ["project-dist"];
    var out := dist + ["index.html"];
    var t := Set(t1, out, v);
    DefaultPathsApart(root);
    assert out[..|out| - 1] == dist;
    GetSetSame(t1, out, v);
    ParentIsDir(t, out);
    GetSetDisjoint(t1, out, dist + ["style.css"], v);
    GetSetDisjoint(t1, out, dist + ["assets"], v);
    GetSetDisjoint(t1, out, root + ["styles"], v);
    GetSetDisjoint(t1, out, root + ["assets"], v);
    WFSet(t1, out, v);
  }

  /** The bundle step of a default build, after the page step. */
  lemma CssStep(h: Node, root: Path)
    requires var dist := root + ["project-dist"];
      && WF(h) && IsDirAt(h, dist)
      && Get(h, dist + ["style.css"]).None? && Get(h, dist + ["assets"]).None?
    ensures var dist := root + ["project-dist"];
      var bundle := dist + ["style.css"];
      var c := MergeResult(h, root + ["styles"], bundle);
      && (c.ok <==> ListDir(h, root + ["styles"]).Some?)
      && ReadAt(c.tree, bundle) == Some(if c.ok then BundleOf(ListDir(h, root + ["styles"]).value) else "")
      && Get(c.tree, dist + ["index.html"]) == Get(h, dist + ["index.html"])
      && Get(c.tree, root + ["assets"]) == Get(h, root + ["assets"])
      && IsDirAt(c.tree, dist)
      && Get(c.tree, dist + ["assets"]).None?
      && WF(c.tree)
  {
    var dist := root + ["project-dist"];
    var bundle := dist + ["style.css"];
    var styles := root + ["styles"];
    DefaultPathsApart(root);
    assert bundle[..|bundle| - 1] == dist;
    MergeReadsBack(h, styles, bundle, dist + ["index.html"]);
    MergeReadsBack(h, styles, bundle, dist + ["assets"]);
    MergeReadsBack(h, styles, bundle, root + ["assets"]);
    var c := MergeResult(h, styles, bundle);
    ParentIsDir(c.tree, bundle);
    var t1 := Set(h, bundle, File(""));
    WFSet(h, bundle, File(""));
    if c.ok {
      WFSet(t1, bundle, File(BundleOf(ListDir(t1, styles).value)));
    }
  }

  /** The assets step of a default build, into a missing dist assets
      directory: a listable source is mirrored, otherwise the directory is
      created and stays empty. */
  lemma AssetsStep(c: Node, root: Path)
    requires var dist := root + ["project-dist"];
      WF(c) && IsDirAt(c, dist) && Get(c, dist + ["assets"]).None?
    ensures var dist := root + ["project-dist"];
      var src := root + ["assets"];
      var dest := dist + ["assets"];
      var a := CopyDirResult(c, src, dest);
      && (a.ok <==> ListDir(c, src).Some?)
      && ListDir(a.tree, dest) == Some(if a.ok then Prune(ListDir(c, src).value) else [])
      && Get(a.tree, dist + ["index.html"]) == Get(c, dist + ["index.html"])
      && Get(a.tree, dist + ["style.css"]) == Get(c, dist + ["style.css"])
  {
    var dist := root + ["project-dist"];
    var src := root + ["assets"];
    var dest := dist + ["assets"];
    DefaultPathsApart(root);
    var x := ListDir(c, dist).value;
    GetChild(c, dist, x, "assets");
    MakeDirsChild(c, dist, x, "assets");
    var _ := CopyDirStart(c, src, dest);
    if ListDir(c, src).Some? {
      CopyDirIntoMissing(c, src, dest, ListDir(c, src).value);
    }
    CopyDirOutside(c, src, dest, dist + ["index.html"]);
    CopyDirOutside(c, src, dest, dist + ["style.css"]);
  }

  /** A directory listing none of a name has nothing at that name. */
  lemma AbsentChild(t: Node, p: Path, es: seq<Entry>, name: string)
    requires Get(t, p) == Some(Dir(es))
    requires forall e :: e in es ==> e.name != name
    ensures Get(t, p + [name]).None?
  {
    GetChild(t, p, es, name);
    forall i | 0 <= i < |es|
      ensures es[i].name != name
    {
      assert es[i] in es;
    }
  }

  /** After the clear, the dist directory holds only the other-kind entries
      it had; when none of them uses an output name it is ready. */
  lemma ClearedReady(t1: Node, dist: Path, es: seq<Entry>)
    requires WF(t1) && ListDir(t1, dist) == Some(es)
    requires forall e :: e in es && e.node.Other? ==> !IsOutputName(e.name)
    ensures var t2 := CopyDirectory.Cleared(t1, dist);
      && WF(t2) && DistReady(t2, dist)
      && ListDir(t2, dist) == Some(KeepOthers(es))
  {
    var kept := KeepOthers(es);
    var t2 := Set(t1, dist, Dir(kept));
    CopyDirectory.ClearLeavesOnlyOthers(t1, dist, es);
    WFGet(t1, dist);
    DistinctKeepOthers(es);
    forall i | 0 <= i < |kept|
      ensures WF(kept[i].node)
    {
      assert kept[i] in kept;
    }
    WFSet(t1, dist, Dir(kept));
    AbsentChild(t2, dist, kept, "index.html");
    AbsentChild(t2, dist, kept, "style.css");
    AbsentChild(t2, dist, kept, "assets");
  }

  /** Preparing a default build: the dist directory is created and cleared,
      which leaves it ready when no leftover entry uses an output name, and
      the sources read as before. */
  lemma BuildPrepared(t: Node, root: Path) returns (t2: Node)
    requires WF(t)
    requires MakeDirs(t, root + ["project-dist"]).Some? && NoStaleOutputNames(t, root + ["project-dist"])
    ensures var dist := root + ["project-dist"];
      && t2 == CopyDirectory.Cleared(MakeDirs(t, dist).value, dist)
      && WF(t2) && DistReady(t2, dist)
      && ListDir(t2, dist) == Some(KeepOthers(CopyDirectory.Existing(t, dist)))
      && ReadAt(t2, root + ["template.html"]) == ReadAt(t, root + ["template.html"])
      && TemplatesData(t2, root + ["components"]) == TemplatesData(t, root + ["components"])
      && ListDir(t2, root + ["styles"]) == ListDir(t, root + ["styles"])
      && ListDir(t2, root + ["assets"]) == ListDir(t, root + ["assets"])
  {
    var dist := root + ["project-dist"];
    var t1 := MakeDirs(t, dist).value;
    t2 := CopyDirectory.Cleared(t1, dist);
    DefaultPathsApart(root);
    CopyDirectory.MadeDest(t, dist);
    WFMakeDirs(t, dist);
    ClearedReady(t1, dist, CopyDirectory.Existing(t, dist));
    SourcesKept(t, root, root + ["template.html"]);
    SourcesKept(t, root, root + ["components"]);
    SourcesKept(t, root, root + ["styles"]);
    SourcesKept(t, root, root + ["assets"]);
  }

  /** Creating and clearing the dist directory leaves a path apart from it as it was. */
  lemma SourcesKept(t: Node, root: Path, q: Path)
    requires MakeDirs(t, root + ["project-dist"]).Some? && Disjoint(root + ["project-dist"], q)
    ensures var dist := root + ["project-dist"];
      Get(CopyDirectory.Cleared(MakeDirs(t, dist).value, dist), q) == Get(t, q)
  {
    var dist := root + ["project-dist"];
    MakeDirsDisjoint(t, dist, q);
    CopyDirectory.ClearOutside(MakeDirs(t, dist).value, dist, q);
  }

  /** The three steps of a default build, on its own paths. */
  lemma OutputsDefault(t: Node, root: Path)
    ensures var dist := root + ["project-dist"];
      var h := HtmlResult(t, root + ["template.html"], root + ["components"], dist + ["index.html"]);
      var c := MergeResult(h.tree, root + ["styles"], dist + ["style.css"]);
      var a := CopyDirResult(c.tree, root + ["assets"], dist + ["assets"]);
      Outputs(t, DefaultSettings(root)) == Built(a.tree, Report(true, h.ok, c.ok, a.ok))
  {
    DefaultsReady(root);
  }

  /** The intermediate trees of the three steps of a default build. */
  lemma BuildSteps(t1: Node, root: Path) returns (h: Outcome, c: Outcome, a: Outcome)
    requires WF(t1) && DistReady(t1, root + ["project-dist"])
    ensures var dist := root + ["project-dist"];
      && h == HtmlResult(t1, root + ["template.html"], root + ["components"], dist + ["index.html"])
      && c == MergeResult(h.tree, root + ["styles"], dist + ["style.css"])
      && a == CopyDirResult(c.tree, root + ["assets"], dist + ["assets"])
      && Outputs(t1, DefaultSettings(root)) == Built(a.tree, Report(true, h.ok, c.ok, a.ok))
      && ListDir(h.tree, root + ["styles"]) == ListDir(t1, root + ["styles"])
      && ListDir(c.tree, root + ["assets"]) == ListDir(t1, root + ["assets"])
      && WF(h.tree) && IsDirAt(h.tree, dist)
      && Get(h.tree, dist + ["style.css"]).None? && Get(h.tree, dist + ["assets"]).None?
      && WF(c.tree) && IsDirAt(c.tree, dist) && Get(c.tree, dist + ["assets"]).None?
  {
    var dist := root + ["project-dist"];
    OutputsDefault(t1, root);
    var out := dist + ["index.html"];
    HtmlStep(t1, root);
    h := HtmlResult(t1, root + ["template.html"], root + ["components"], out);
    CssStep(h.tree, root);
    c := MergeResult(h.tree, root + ["styles"], dist + ["style.css"]);
    a := CopyDirResult(c.tree, root + ["assets"], dist + ["assets"]);
  }

  /** The three steps of a default build, from a ready dist directory. */
  lemma ReadyOutputs(t1: Node, root: Path)
    requires WF(t1) && DistReady(t1, root + ["project-dist"])
    ensures var b := Outputs(t1, DefaultSettings(root));
      var dist := root + ["project-dist"];
      var template := ReadAt(t1, root + ["template.html"]);
      var fragments := TemplatesData(t1, root + ["components"]);
      var styles := ListDir(t1, root + ["styles"]);
      var assets := ListDir(t1, root + ["assets"]);
      && (b.report.html <==> template.Some? && fragments.Some?)
      && (b.report.html ==> ReadAt(b.tree, dist + ["index.html"]) == Some(Replace(template.value, fragments.value)))
      && (!b.report.html ==> Get(b.tree, dist + ["index.html"]).None?)
      && (b.report.css <==> styles.Some?)
      && ReadAt(b.tree, dist + ["style.css"]) == Some(if styles.Some? then BundleOf(styles.value) else "")
      && (b.report.assets <==> assets.Some?)
      && ListDir(b.tree, dist + ["assets"]) == Some(if b.report.assets then Prune(assets.value) else [])
  {
    var dist := root + ["project-dist"];
    var h, c, a := BuildSteps(t1, root);
    HtmlStep(t1, root);
    CssStep(h.tree, root);
    AssetsStep(c.tree, root);
  }

  /** A default build, first or repeated, whose dist directory can be
      created and keeps no other-kind entry under an output name: nothing
      written by an earlier run survives, and the dist directory holds the
      page made from the template and the fragments when both could be read
      (and no page otherwise), the bundle of the styles directory (empty when
      it could not be listed), and an exact file-and-directory copy of the
      assets when they could be listed (an empty directory otherwise). */
  lemma DefaultBuild(t: Node, root: Path)
    requires WF(t)
    requires MakeDirs(t, root + ["project-dist"]).Some? && NoStaleOutputNames(t, root + ["project-dist"])
    ensures var b := BuildResult(t, DefaultSettings(root));
      var dist := root + ["project-dist"];
      var template := ReadAt(t, root + ["template.html"]);
      var fragments := TemplatesData(t, root + ["components"]);
      var styles := ListDir(t, root + ["styles"]);
      var assets := ListDir(t, root + ["assets"]);
      && b.report.prepared
      && (b.report.html <==> template.Some? && fragments.Some?)
      && (b.report.html ==> ReadAt(b.tree, dist + ["index.html"]) == Some(Replace(template.value, fragments.value)))
      && (!b.report.html ==> Get(b.tree, dist + ["index.html"]).None?)
      && (b.report.css <==> styles.Some?)
      && ReadAt(b.tree, dist + ["style.css"]) == Some(if styles.Some? then BundleOf(styles.value) else "")
      && (b.report.assets <==> assets.Some?)
      && ListDir(b.tree, dist + ["assets"]) == Some(if b.report.assets then Prune(assets.value) else [])
  {
    var t2 := BuildPrepared(t, root);
    DefaultsReady(root);
    ReadyOutputs(t2, root);
    assert BuildResult(t, DefaultSettings(root)) == Outputs(t2, DefaultSettings(root));
  }

  /** On a first build, where the dist directory is missing, nothing is left
      over to clash with the outputs. */
  lemma FirstBuildNoStale(t: Node, root: Path)
    requires Get(t, root + ["project-dist"]).None?
    ensures NoStaleOutputNames(t, root + ["project-dist"])
  {
    assert CopyDirectory.Existing(t, root + ["project-dist"]) == [];
  }

  // ---------------------------------------------------------------------
  // Building twice

  /** `u` is `t` with the listing of the directory `dir` replaced by one that
      keeps the same other-kind entries, in the same order; nothing outside
      `dir` differs. */
  predicate ChangedWithin(t: Node, u: Node, dir: Path)
  {
    && IsDirAt(t, dir) && IsDirAt(u, dir)
    && u == Set(t, dir, Get(u, dir).value)
    && KeepOthers(ListDir(u, dir).value) == KeepOthers(ListDir(t, dir).value)
  }

  lemma ChangedWithinSame(t: Node, dir: Path)
    requires IsDirAt(t, dir)
    ensures ChangedWithin(t, t, dir)
  {
    SetGet(t, dir, Get(t, dir).value);
  }

  lemma ChangedWithinTrans(t: Node, u: Node, v: Node, dir: Path)
    requires ChangedWithin(t, u, dir) && ChangedWithin(u, v, dir)
    ensures ChangedWithin(t, v, dir)
  {
    SetSet(t, dir, Get(u, dir).value, Get(v, dir).value);
  }

  /** Putting a file or directory under a name the directory does not hold
      appends it, which changes nothing outside the directory and no
      other-kind entry. */
  lemma {:induction false} PutNewChild(t: Node, dir: Path, name: string, v: Node)
    requires IsDirAt(t, dir) && Get(t, dir + [name]).None? && !v.Other?
    ensures ChangedWithin(t, Set(t, dir + [name], v), dir)
    ensures ListDir(Set(t, dir + [name], v), dir) == Some(ListDir(t, dir).value + [Entry(name, v)])
  {
    var es := ListDir(t, dir).value;
    var es' := es + [Entry(name, v)];
    GetChild(t, dir, es, name);
    SetGet(t, dir, Dir(es));
    SetChildPath(t, dir, es, name, v);
    assert SetChild(es, name, v) == es';
    GetSetExisting(t, dir, Dir(es'));
    KeepOthersAppend(es, [Entry(name, v)]);
    assert KeepOthers([Entry(name, v)]) == [];
  }

  /** The page step changes the dist directory only by adding the page. */
  lemma HtmlWithin(t1: Node, templateFile: Path, templatesDir: Path, dist: Path)
    requires IsDirAt(t1, dist) && Get(t1, dist + ["index.html"]).None?
    ensures ChangedWithin(t1, HtmlResult(t1, templateFile, templatesDir, dist + ["index.html"]).tree, dist)
  {
    var h := HtmlResult(t1, templateFile, templatesDir, dist + ["index.html"]);
    if h.ok {
      var v := File(Replace(ReadAt(t1, templateFile).value, TemplatesData(t1, templatesDir).value));
      PutNewChild(t1, dist, "index.html", v);
    } else {
      ChangedWithinSame(t1, dist);
    }
  }

  /** The bundle step changes the dist directory only by adding the bundle. */
  lemma CssWithin(h: Node, stylesDir: Path, dist: Path)
    requires IsDirAt(h, dist) && Get(h, dist + ["style.css"]).None?
    ensures ChangedWithin(h, MergeResult(h, stylesDir, dist + ["style.css"]).tree, dist)
  {
    var bundle := dist + ["style.css"];
    var t1 := Set(h, bundle, File(""));
    assert bundle[..|bundle| - 1] == dist;
    PutNewChild(h, dist, "style.css", File(""));
    match ListDir(t1, stylesDir)
    case None =>
    case Some(es) =>
      SetSet(h, bundle, File(""), File(BundleOf(es)));
      PutNewChild(h, dist, "style.css", File(BundleOf(es)));
  }

  /** The assets step changes the dist directory only by adding `assets`. */
  lemma AssetsWithin(c: Node, src: Path, dist: Path)
    requires IsDirAt(c, dist) && Get(c, dist + ["assets"]).None?
    ensures ChangedWithin(c, CopyDirResult(c, src, dist + ["assets"]).tree, dist)
  {
    var dest := dist + ["assets"];
    var x := ListDir(c, dist).value;
    GetChild(c, dist, x, "assets");
    MakeDirsChild(c, dist, x, "assets");
    PutNewChild(c, dist, "assets", Dir([]));
    var t1 := Set(c, dest, Dir([]));
    assert MakeDirs(c, dest) == Some(t1);
    match (ListDir(t1, dest), ListDir(t1, src))
    case (Some(d), Some(es)) =>
      var r := MergeAll(d, es);
      SetSet(c, dest, Dir([]), Dir(r.entries));
      PutNewChild(c, dist, "assets", Dir(r.entries));
    case _ =>
  }

  /** The three steps of a default build, from a ready dist directory, change
      nothing but that directory, and there only add files and directories. */
  lemma OutputsWithin(t1: Node, root: Path)
    requires WF(t1) && DistReady(t1, root + ["project-dist"])
    ensures ChangedWithin(t1, Outputs(t1, DefaultSettings(root)).tree, root + ["project-dist"])
  {
    var dist := root + ["project-dist"];
    var h, c, a := BuildSteps(t1, root);
    HtmlWithin(t1, root + ["template.html"], root + ["components"], dist);
    CssWithin(h.tree, root + ["styles"], dist);
    AssetsWithin(c.tree, root + ["assets"], dist);
    ChangedWithinTrans(t1, h.tree, c.tree, dist);
    ChangedWithinTrans(t1, c.tree, a.tree, dist);
  }

  /** Clearing undoes a change within the cleared directory. */
  lemma ClearWithin(t: Node, u: Node, dir: Path)
    requires ChangedWithin(t, u, dir)
    ensures CopyDirectory.Cleared(u, dir) == CopyDirectory.Cleared(t, dir)
  {
    var lu := ListDir(u, dir).value;
    SetSet(t, dir, Dir(lu), Dir(KeepOthers(lu)));
  }

  /** A default build is idempotent: building again from the tree a build
      left, with nothing changed in between, leaves the same tree and
      reports the same steps. */
  lemma BuildTwice(t: Node, root: Path)
    requires WF(t) && NoStaleOutputNames(t, root + ["project-dist"])
    ensures var s := DefaultSettings(root);
      var b := BuildResult(t, s);
      BuildResult(b.tree, s) == b
  {
    var s := DefaultSettings(root);
    var dist := root + ["project-dist"];
    DefaultsReady(root);
    if MakeDirs(t, dist).Some? {
      var t1 := MakeDirs(t, dist).value;
      var t2 := BuildPrepared(t, root);
      var b := Outputs(t2, s);
      assert BuildResult(t, s) == b;
      OutputsWithin(t2, root);
      MakeDirsExisting(b.tree, dist);
      ClearWithin(t2, b.tree, dist);
      CopyDirectory.ClearIdempotent(t1, dist);
    }
  }
}
