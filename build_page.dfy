/**
 * The page builder of `06-build-page/index.js`: an object holding the
 * directories and file names of a build, set through chainable setters, and
 * a `build` that creates and clears the dist directory, writes the page
 * assembled from the template and its fragments, bundles the stylesheets and
 * merges the assets into the dist directory.
 *
 * Every path field except the output page name is resolved against the root
 * directory when its setter runs; the dist-relative ones (the dist assets
 * directory and the bundle) against the dist directory of that moment.
 */
module BuildPage {
  import opened FsTree
  import opened FsLemmas
  import opened Storage
  import opened Paths
  import opened Placeholders
  import opened Fragments
  import CopyDirectory
  import opened MergeStyles
  import opened AssetCopy

  /** The builder's fields, as one value. */
  datatype Settings = Settings(
    rootDir: Path,
    distDir: PathSpec,
    sourceAssetsDir: PathSpec,
    distAssetsDir: PathSpec,
    sourceTemplatesDir: PathSpec,
    sourceStylesDir: PathSpec,
    sourceTemplateFile: PathSpec,
    outputHtmlFile: PathSpec,
    cssBundleName: PathSpec)

  /** A setter's argument, or the field's current value when it is omitted. */
  function OrDefault(arg: Option<PathSpec>, current: PathSpec): PathSpec
  {
    if arg.Some? then arg.value else current
  }

  // ---------------------------------------------------------------------
  // The settings each setter leaves behind

  function WithRootDir(s: Settings, dirName: Option<PathSpec>): Settings
  {
    s.(rootDir := Resolve(s.rootDir, [OrDefault(dirName, Absolute(s.rootDir))]))
  }

  function WithDistDir(s: Settings, dirName: Option<PathSpec>): Settings
  {
    s.(distDir := Absolute(Resolve(s.rootDir, [OrDefault(dirName, s.distDir)])))
  }

  function WithSourceAssetsDir(s: Settings, dirName: Option<PathSpec>): Settings
  {
    s.(sourceAssetsDir := Absolute(Resolve(s.rootDir, [OrDefault(dirName, s.sourceAssetsDir)])))
  }

  function WithDistAssetsDir(s: Settings, dirName: Option<PathSpec>): Settings
  {
    s.(distAssetsDir := Absolute(Resolve(s.rootDir, [s.distDir, OrDefault(dirName, s.distAssetsDir)])))
  }

  function WithSourceTemplatesDir(s: Settings, dirName: Option<PathSpec>): Settings
  {
    s.(sourceTemplatesDir := Absolute(Resolve(s.rootDir, [OrDefault(dirName, s.sourceTemplatesDir)])))
  }

  function WithSourceStylesDir(s: Settings, dirName: Option<PathSpec>): Settings
  {
    s.(sourceStylesDir := Absolute(Resolve(s.rootDir, [OrDefault(dirName, s.sourceStylesDir)])))
  }

  function WithSourceTemplateFile(s: Settings, fileName: Option<PathSpec>): Settings
  {
    s.(sourceTemplateFile := Absolute(Resolve(s.rootDir, [OrDefault(fileName, s.sourceTemplateFile)])))
  }

  function WithOutputHtmlFile(s: Settings, fileName: Option<PathSpec>): Settings
  {
    s.(outputHtmlFile := OrDefault(fileName, s.outputHtmlFile))
  }

  function WithCssBundleName(s: Settings, cssBundleName: Option<PathSpec>): Settings
  {
    s.(cssBundleName := Absolute(Resolve(s.rootDir, [s.distDir, OrDefault(cssBundleName, s.cssBundleName)])))
  }

  /** Every path field except the output page name has been resolved. */
  predicate Resolved(s: Settings)
  {
    && s.distDir.absolute && s.sourceAssetsDir.absolute && s.distAssetsDir.absolute
    && s.sourceTemplatesDir.absolute && s.sourceStylesDir.absolute
    && s.sourceTemplateFile.absolute && s.cssBundleName.absolute
  }

  /** The fields of a new builder for a script in `scriptDir`. */
  function DefaultSettings(scriptDir: Path): Settings
  {
    Settings(
      scriptDir,
      Absolute(scriptDir + ["project-dist"]),
      Absolute(scriptDir + ["assets"]),
      Absolute(scriptDir + ["project-dist"] + ["assets"]),
      Absolute(scriptDir + ["components"]),
      Absolute(scriptDir + ["styles"]),
      Absolute(scriptDir + ["template.html"]),
      Relative(["index.html"]),
      Absolute(scriptDir + ["project-dist"] + ["style.css"]))
  }

  /** Layouts the sequential model of a build is stated for: the bundle is
      not written into the styles directory it lists, and the assets are not
      copied into (or out of) themselves. */
  predicate Separated(s: Settings)
  {
    var bundle := s.cssBundleName.segments;
    && (bundle == [] || bundle[..|bundle| - 1] != s.sourceStylesDir.segments)
    && Disjoint(s.sourceAssetsDir.segments, s.distAssetsDir.segments)
  }

  // ---------------------------------------------------------------------
  // The build steps as functions of the tree

  /** `#getTemplatesData`: the fragment registry read from a directory. */
  function TemplatesData(t: Node, dir: Path): Option<map<string, string>>
  {
    match ListDir(t, dir)
    case None => None
    case Some(es) => Register(map[], es)
  }

  /** Where the page is written: the output name resolved inside the dist directory. */
  function OutputPath(s: Settings): Path
  {
    Resolve(s.rootDir, [s.distDir, s.outputHtmlFile])
  }

  /** `#createOutputHTML`: read the template, read the fragments, write the
      template with every placeholder replaced. Any failure writes nothing. */
  function HtmlResult(t: Node, templateFile: Path, templatesDir: Path, output: Path): Outcome
  {
    match ReadAt(t, templateFile)
    case None => Outcome(t, false)
    case Some(template) =>
      match TemplatesData(t, templatesDir)
      case None => Outcome(t, false)
      case Some(data) =>
        if CanWrite(t, output) then Outcome(Set(t, output, File(Replace(template, data))), true)
        else Outcome(t, false)
  }

  /** Which steps of a build completed: the dist directory was prepared
      (created and cleared), the page, the bundle and the assets. */
  datatype Report = Report(prepared: bool, html: bool, css: bool, assets: bool)

  datatype Built = Built(tree: Node, report: Report)

  /** `build`: create and clear the dist directory (a failure there ends the
      build), then the page, the bundle and the assets, one after the other,
      each carried out whatever became of the one before. */
  function BuildResult(t: Node, s: Settings): Built
  {
    var dist := s.distDir.segments;
    match MakeDirs(t, dist)
    case None => Built(t, Report(false, false, false, false))
    case Some(t1) => Outputs(CopyDirectory.Cleared(t1, dist), s)
  }

  /** The three steps of a build that run once the dist directory is ready. */
  function Outputs(t: Node, s: Settings): Built
  {
    var h := HtmlResult(t, s.sourceTemplateFile.segments, s.sourceTemplatesDir.segments, OutputPath(s));
    var c := MergeResult(h.tree, s.sourceStylesDir.segments, s.cssBundleName.segments);
    var a := CopyDirResult(c.tree, s.sourceAssetsDir.segments, s.distAssetsDir.segments);
    Built(a.tree, Report(true, h.ok, c.ok, a.ok))
  }

  class HTMLBuilder {
    var rootDir: Path
    var distDir: PathSpec
    var sourceAssetsDir: PathSpec
    var distAssetsDir: PathSpec
    var sourceTemplatesDir: PathSpec
    var sourceStylesDir: PathSpec
    var sourceTemplateFile: PathSpec
    var outputHtmlFile: PathSpec
    var cssBundleName: PathSpec

    function Current(): Settings
      reads this
    {
      Settings(rootDir, distDir, sourceAssetsDir, distAssetsDir, sourceTemplatesDir,
               sourceStylesDir, sourceTemplateFile, outputHtmlFile, cssBundleName)
    }

    ghost predicate Valid()
      reads this
    {
      Resolved(Current())
    }

    /** A builder for a script in `scriptDir`: the fields start as bare
        names and every setter but `setRootDir` is called once, in order. */
    constructor (scriptDir: Path)
      ensures Current() == DefaultSettings(scriptDir)
      ensures Valid()
    {
      rootDir := scriptDir;
      distDir := Relative(["project-dist"]);
      sourceAssetsDir := Relative(["assets"]);
      distAssetsDir := Relative(["assets"]);
      sourceTemplatesDir := Relative(["components"]);
      sourceStylesDir := Relative(["styles"]);
      sourceTemplateFile := Relative(["template.html"]);
      outputHtmlFile := Relative(["index.html"]);
      cssBundleName := Relative(["style.css"]);
      new;
      var _ := SetDistDir(None);
      var _ := SetSourceAssetsDir(None);
      var _ := SetDistAssetsDir(None);
      var _ := SetSourceTemplatesDir(None);
      var _ := SetSourceStylesDir(None);
      var _ := SetSourceTemplateFile(None);
      var _ := SetOutputHtmlFile(None);
      var _ := SetCssBundleName(None);
      var dist := Absolute(scriptDir + ["project-dist"]);
      ResolveOne(scriptDir, Relative(["project-dist"]));
      ResolveOne(scriptDir, Relative(["assets"]));
      ResolveOne(scriptDir, Relative(["components"]));
      ResolveOne(scriptDir, Relative(["styles"]));
      ResolveOne(scriptDir, Relative(["template.html"]));
      ResolveTwo(scriptDir, dist, Relative(["assets"]));
      ResolveTwo(scriptDir, dist, Relative(["style.css"]));
      ResolveOne(scriptDir, dist);
      ResolveOne(dist.segments, Relative(["assets"]));
      ResolveOne(dist.segments, Relative(["style.css"]));
    }

    /** `#resolvePath(...paths)` */
    function ResolvePath(parts: seq<PathSpec>): Path
      reads this
    {
      Resolve(rootDir, parts)
    }

    method SetRootDir(dirName: Option<PathSpec>) returns (r: HTMLBuilder)
      modifies this
      ensures r == this
      ensures Current() == WithRootDir(old(Current()), dirName)
      ensures old(Valid()) ==> Valid()
    {
      rootDir := ResolvePath([OrDefault(dirName, Absolute(rootDir))]);
      r := this;
    }

    method SetDistDir(dirName: Option<PathSpec>) returns (r: HTMLBuilder)
      modifies this
      ensures r == this
      ensures Current() == WithDistDir(old(Current()), dirName)
      ensures old(Valid()) ==> Valid()
    {
      distDir := Absolute(ResolvePath([OrDefault(dirName, distDir)]));
      r := this;
    }

    method SetSourceAssetsDir(dirName: Option<PathSpec>) returns (r: HTMLBuilder)
      modifies this
      ensures r == this
      ensures Current() == WithSourceAssetsDir(old(Current()), dirName)
      ensures old(Valid()) ==> Valid()
    {
      sourceAssetsDir := Absolute(ResolvePath([OrDefault(dirName, sourceAssetsDir)]));
      r := this;
    }

    method SetDistAssetsDir(dirName: Option<PathSpec>) returns (r: HTMLBuilder)
      modifies this
      ensures r == this
      ensures Current() == WithDistAssetsDir(old(Current()), dirName)
      ensures old(Valid()) ==> Valid()
    {
      distAssetsDir := Absolute(ResolvePath([distDir, OrDefault(dirName, distAssetsDir)]));
      r := this;
    }

    method SetSourceTemplatesDir(dirName: Option<PathSpec>) returns (r: HTMLBuilder)
      modifies this
      ensures r == this
      ensures Current() == WithSourceTemplatesDir(old(Current()), dirName)
      ensures old(Valid()) ==> Valid()
    {
      sourceTemplatesDir := Absolute(ResolvePath([OrDefault(dirName, sourceTemplatesDir)]));
      r := this;
    }

    method SetSourceStylesDir(dirName: Option<PathSpec>) returns (r: HTMLBuilder)
      modifies this
      ensures r == this
      ensures Current() == WithSourceStylesDir(old(Current()), dirName)
      ensures old(Valid()) ==> Valid()
    {
      sourceStylesDir := Absolute(ResolvePath([OrDefault(dirName, sourceStylesDir)]));
      r := this;
    }

    method SetSourceTemplateFile(fileName: Option<PathSpec>) returns (r: HTMLBuilder)
      modifies this
      ensures r == this
      ensures Current() == WithSourceTemplateFile(old(Current()), fileName)
      ensures old(Valid()) ==> Valid()
    {
      sourceTemplateFile := Absolute(ResolvePath([OrDefault(fileName, sourceTemplateFile)]));
      r := this;
    }

    method SetOutputHtmlFile(fileName: Option<PathSpec>) returns (r: HTMLBuilder)
      modifies this
      ensures r == this
      ensures Current() == WithOutputHtmlFile(old(Current()), fileName)
      ensures old(Valid()) ==> Valid()
    {
      outputHtmlFile := OrDefault(fileName, outputHtmlFile);
      r := this;
    }

    method SetCssBundleName(cssBundleName': Option<PathSpec>) returns (r: HTMLBuilder)
      modifies this
      ensures r == this
      ensures Current() == WithCssBundleName(old(Current()), cssBundleName')
      ensures old(Valid()) ==> Valid()
    {
      cssBundleName := Absolute(ResolvePath([distDir, OrDefault(cssBundleName', cssBundleName)]));
      r := this;
    }

    /** `build()` */
    method Build(fs: FileSystem) returns (report: Report)
      requires fs.Valid() && Valid() && Separated(Current())
      modifies fs
      ensures fs.Valid()
      ensures fs.root == BuildResult(old(fs.root), Current()).tree
      ensures report == BuildResult(old(fs.root), Current()).report
    {
      var made := fs.MakeDir(distDir.segments);
      if !made {
        return Report(false, false, false, false);
      }
      var _ := ClearDirectory(fs, distDir.segments);
      var html := CreateOutputHtml(fs);
      var css := MergeStyles(fs);
      var assets := CopyDir(fs, sourceAssetsDir.segments, distAssetsDir.segments);
      report := Report(true, html, css, assets);
    }

    /** `#createOutputHTML()` */
    method CreateOutputHtml(fs: FileSystem) returns (ok: bool)
      requires fs.Valid() && Valid()
      modifies fs
      ensures fs.Valid()
      ensures var r := HtmlResult(old(fs.root), sourceTemplateFile.segments, sourceTemplatesDir.segments, OutputPath(Current()));
        fs.root == r.tree && ok == r.ok
    {
      var template := fs.ReadFile(sourceTemplateFile.segments);
      if template.None? {
        return false;
      }
      var data := GetTemplatesData(fs);
      if data.None? {
        return false;
      }
      ok := fs.WriteFile(ResolvePath([distDir, outputHtmlFile]), Replace(template.value, data.value));
    }

    /** `#getTemplatesData()`: reads the fragments one `.html` name at a time. */
    method GetTemplatesData(fs: FileSystem) returns (data: Option<map<string, string>>)
      requires fs.Valid()
      ensures data == TemplatesData(fs.root, sourceTemplatesDir.segments)
    {
      var dir := sourceTemplatesDir.segments;
      var listing := fs.ReadDir(dir);
      if listing.None? {
        return None;
      }
      var es := listing.value;
      WFGet(fs.root, dir);
      var templates: map<string, string> := map[];
      assert es[0..] == es;
      var i := 0;
      while i < |es|
        invariant i <= |es|
        invariant Register(templates, es[i..]) == Register(map[], es)
      {
        RegisterStep(templates, es, i);
        if IsHtmlName(es[i].name) {
          CopyDirectory.SourceChild(fs.root, dir, es, i);
          var html := fs.ReadFile(dir + [es[i].name]);
          if html.None? {
            return None;
          }
          templates := templates[KeyOf(es[i].name) := html.value];
        }
        i := i + 1;
      }
      assert es[i..] == [];
      data := Some(templates);
    }

    /** `#mergeStyles()` */
    method MergeStyles(fs: FileSystem) returns (ok: bool)
      requires fs.Valid() && Separated(Current())
      modifies fs
      ensures fs.Valid()
      ensures var r := MergeResult(old(fs.root), sourceStylesDir.segments, cssBundleName.segments);
        fs.root == r.tree && ok == r.ok
    {
      ok := BundleStyles(fs, sourceStylesDir.segments, cssBundleName.segments);
    }

    /** `#clearDirectory({ dirName })`: the same clear as the stand-alone copier's. */
    method ClearDirectory(fs: FileSystem, dirName: Path) returns (ok: bool)
      requires fs.Valid()
      modifies fs
      ensures fs.Valid()
      ensures ok == ListDir(old(fs.root), dirName).Some?
      ensures fs.root == CopyDirectory.Cleared(old(fs.root), dirName)
    {
      ok := CopyDirectory.ClearDirectory(fs, dirName);
    }

    /** `#copyFile({ srcFile, destFile })`: the same copy as the stand-alone copier's. */
    method CopyFile(fs: FileSystem, srcFile: Path, destFile: Path) returns (ok: bool)
      requires fs.Valid()
      modifies fs
      ensures fs.Valid()
      ensures ok == (ReadAt(old(fs.root), srcFile).Some? && CanWrite(old(fs.root), destFile))
      ensures fs.root == if ok then Set(old(fs.root), destFile, File(ReadAt(old(fs.root), srcFile).value))
                         else if CanWrite(old(fs.root), destFile) then Set(old(fs.root), destFile, File(""))
                         else old(fs.root)
    {
      ok := CopyDirectory.CopyFile(fs, srcFile, destFile);
    }

    /** `#copyDir({ srcDir, destDir })` */
    method CopyDir(fs: FileSystem, src: Path, dest: Path) returns (ok: bool)
      requires fs.Valid()
      requires Disjoint(src, dest)
      modifies fs
      decreases SizeAt(fs.root, src), 1
      ensures fs.Valid()
      ensures fs.root == CopyDirResult(old(fs.root), src, dest).tree
      ensures ok == CopyDirResult(old(fs.root), src, dest).ok
    {
      ghost var t0 := fs.root;
      var made := fs.MakeDir(dest);
      if !made {
        return false;
      }
      ghost var t1 := CopyDirStart(t0, src, dest);
      var listing := fs.ReadDir(src);
      if listing.None? {
        return false;
      }
      var es := listing.value;
      WFGet(t1, src);
      ghost var existing := CopyDirectory.Existing(t0, dest);
      SetGet(t1, dest, Dir(existing));
      ghost var acc := existing;
      assert es[0..] == es;
      var i := 0;
      while i < |es|
        invariant i <= |es|
        invariant fs.Valid()
        invariant fs.root == Set(t1, dest, Dir(acc))
        invariant MergeAll(acc, es[i..]) == MergeAll(existing, es)
      {
        MergeLoopStep(t1, src, dest, es, acc, i);
        MergeAllStep(acc, es, i);
        var copied := CopyDirEntry(fs, src, dest, es[i], t1, acc);
        if !copied {
          return false;
        }
        acc := MergeEntry(acc, es[i]).entries;
        i := i + 1;
      }
      assert es[i..] == [];
      ok := true;
    }

    /** The body of the `#copyDir` loop for one entry `e` of `src`. */
    method CopyDirEntry(fs: FileSystem, src: Path, dest: Path, e: Entry, ghost t1: Node, ghost acc: seq<Entry>)
      returns (ok: bool)
      requires fs.Valid()
      requires Disjoint(src, dest)
      requires Get(t1, dest).Some?
      requires fs.root == Set(t1, dest, Dir(acc))
      requires Get(fs.root, src + [e.name]) == Some(e.node)
      modifies fs
      decreases SizeAt(fs.root, src + [e.name]), 2
      ensures fs.Valid()
      ensures fs.root == Set(t1, dest, Dir(MergeEntry(acc, e).entries))
      ensures ok == MergeEntry(acc, e).ok
    {
      match e.node {
        case File(data) =>
          MergeFileStep(t1, dest, acc, e.name, data);
          ok := CopyFile(fs, src + [e.name], dest + [e.name]);
        case Dir(sub) =>
          MergeDirStep(t1, src, dest, acc, e.name, sub);
          DisjointExtend(src, dest, [e.name], [e.name]);
          ok := CopyDir(fs, src + [e.name], dest + [e.name]);
        case Other =>
          ok := true;
      }
    }
  }

  /** One step of the fragment loop. */
  lemma RegisterStep(reg: map<string, string>, es: seq<Entry>, i: nat)
    requires i < |es|
    ensures Register(reg, es[i..]) ==
      if !IsHtmlName(es[i].name) then Register(reg, es[i + 1..])
      else match es[i].node
        case File(d) => Register(reg[KeyOf(es[i].name) := d], es[i + 1..])
        case _ => None
  {
    assert es[i..][0] == es[i] && es[i..][1..] == es[i + 1..];
  }
}
