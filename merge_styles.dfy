/**
 * The style bundler of `05-merge-styles/index.js`, also used by the build
 * page: the bundle file is opened for writing (created or truncated), the
 * styles directory is listed, and the contents of every regular file of it
 * whose name ends in `.css` are appended to the bundle in listing order.
 */
module MergeStyles {
  import opened FsTree
  import opened FsLemmas
  import opened Storage
  import opened Paths

  /** The filter of the listing: a regular file whose name ends in `.css`. */
  predicate IsCssFile(e: Entry)
  {
    e.node.File? && EndsWith(e.name, ".css")
  }

  /** The stylesheets of a listing, in listing order. */
  function CssFiles(es: seq<Entry>): seq<Entry>
  {
    if es == [] then []
    else (if IsCssFile(es[0]) then [es[0]] else []) + CssFiles(es[1..])
  }

  /** The contents of the regular files among `es`, one after the other. */
  function Contents(es: seq<Entry>): string
  {
    if es == [] then ""
    else (if es[0].node.File? then es[0].node.data else "") + Contents(es[1..])
  }

  /** The bundle built from a styles listing. */
  function BundleOf(es: seq<Entry>): string
  {
    Contents(CssFiles(es))
  }

  /** Merging the styles of `stylesDir` into `bundle`. The bundle is created
      or truncated before the listing is read, so it exists (empty) even when
      the listing fails; a bundle that cannot be opened is an error that
      changes nothing. */
  function MergeResult(t: Node, stylesDir: Path, bundle: Path): Outcome
  {
    if !CanWrite(t, bundle) then Outcome(t, false)
    else
      var t1 := Set(t, bundle, File(""));
      match ListDir(t1, stylesDir)
      case None => Outcome(t1, false)
      case Some(es) => Outcome(Set(t1, bundle, File(BundleOf(es))), true)
  }

  method BundleStyles(fs: FileSystem, stylesDir: Path, bundle: Path) returns (ok: bool)
    requires fs.Valid()
    requires bundle == [] || bundle[..|bundle| - 1] != stylesDir
    modifies fs
    ensures fs.Valid()
    ensures fs.root == MergeResult(old(fs.root), stylesDir, bundle).tree
    ensures ok == MergeResult(old(fs.root), stylesDir, bundle).ok
  {
    ghost var t0 := fs.root;
    var created := fs.WriteFile(bundle, "");
    if !created {
      return false;
    }
    ghost var t1 := fs.root;
    var listing := fs.ReadDir(stylesDir);
    if listing.None? {
      return false;
    }
    var css := CssFiles(listing.value);
    CssFilesAreFiles(listing.value);
    GetSetSame(t0, bundle, File(""));
    SetSet(t0, bundle, File(""), File(""));
    var i := 0;
    while i < |css|
      invariant i <= |css|
      invariant fs.Valid()
      invariant fs.root == Set(t1, bundle, File(Contents(css[..i])))
    {
      BundleStep(t0, stylesDir, bundle, listing.value, css, i);
      var data := fs.ReadFile(stylesDir + [css[i].name]);
      var _ := fs.AppendFile(bundle, data.value);
      i := i + 1;
    }
    assert css[..i] == css;
    ok := true;
  }

  /** Every stylesheet of a listing is a regular file of it. */
  lemma {:induction false} CssFilesAreFiles(es: seq<Entry>)
    ensures forall e :: e in CssFiles(es) ==> e in es && e.node.File?
  {
    if es != [] {
      CssFilesAreFiles(es[1..]);
    }
  }

  /** One step of the append loop: the `i`-th stylesheet is still readable
      where the listing says, and appending it extends the bundle by it. */
  lemma BundleStep(t0: Node, stylesDir: Path, bundle: Path, es: seq<Entry>, css: seq<Entry>, i: nat)
    requires WF(t0) && CanWrite(t0, bundle) && (bundle == [] || bundle[..|bundle| - 1] != stylesDir)
    requires ListDir(Set(t0, bundle, File("")), stylesDir) == Some(es)
    requires css == CssFiles(es) && i < |css|
    requires forall e :: e in css ==> e in es && e.node.File?
    ensures var t := Set(Set(t0, bundle, File("")), bundle, File(Contents(css[..i])));
      && ReadAt(t, stylesDir + [css[i].name]) == Some(css[i].node.data)
      && ReadAt(t, bundle) == Some(Contents(css[..i]))
      && Set(t, bundle, File(Contents(css[..i]) + css[i].node.data))
         == Set(Set(t0, bundle, File("")), bundle, File(Contents(css[..i + 1])))
  {
    var t1 := Set(t0, bundle, File(""));
    var e := css[i];
    assert e in css;
    WFSet(t0, bundle, File(""));
    ListedChild(t1, stylesDir, es, e);
    GetSetSame(t0, bundle, File(""));
    assert stylesDir + [e.name] != bundle by {
      assert (stylesDir + [e.name])[..|stylesDir + [e.name]| - 1] == stylesDir;
    }
    FilesDisjoint(t1, bundle, stylesDir + [e.name]);
    AppendStep(t1, bundle, stylesDir + [e.name], Contents(css[..i]), e.node.data);
    ContentsStep(css, i);
  }

  /** The contents of the first `i + 1` files are those of the first `i`
      followed by file `i`. */
  lemma ContentsStep(css: seq<Entry>, i: nat)
    requires i < |css| && css[i].node.File?
    ensures Contents(css[..i + 1]) == Contents(css[..i]) + css[i].node.data
  {
    assert css[..i + 1] == css[..i] + [css[i]];
    ContentsAppend(css[..i], [css[i]]);
    assert Contents([css[i]]) == css[i].node.data + "";
  }

  /** An entry of a listing is found under its name. */
  lemma ListedChild(t: Node, dir: Path, es: seq<Entry>, e: Entry)
    requires WF(t) && ListDir(t, dir) == Some(es) && e in es
    ensures Get(t, dir + [e.name]) == Some(e.node)
  {
    var k :| 0 <= k < |es| && es[k] == e;
    WFGet(t, dir);
    FindDistinct(es, k);
    GetChild(t, dir, es, e.name);
  }

  /** Appending `data` to the file at `p` holding `before` leaves a file
      holding `before + data`, and the file at `q` as it was. */
  lemma AppendStep(t1: Node, p: Path, q: Path, before: string, data: string)
    requires Get(t1, p).Some? && Disjoint(p, q)
    ensures var t := Set(t1, p, File(before));
      && Get(t, q) == Get(t1, q)
      && ReadAt(t, p) == Some(before)
      && Set(t, p, File(before + data)) == Set(t1, p, File(before + data))
  {
    GetSetDisjoint(t1, p, q, File(before));
    GetSetExisting(t1, p, File(before));
    SetSet(t1, p, File(before), File(before + data));
  }

  // ---------------------------------------------------------------------
  // What the bundle holds

  /** Concatenation follows the order of the files. */
  lemma {:induction false} ContentsAppend(a: seq<Entry>, b: seq<Entry>)
    ensures Contents(a + b) == Contents(a) + Contents(b)
  {
    if a == [] {
      assert a + b == b;
    } else {
      assert (a + b)[1..] == a[1..] + b;
      ContentsAppend(a[1..], b);
    }
  }

  /** An entry is bundled exactly when it is a regular file named `*.css`. */
  lemma {:induction false} CssFilesMembers(es: seq<Entry>)
    ensures forall e :: e in CssFiles(es) <==> e in es && IsCssFile(e)
  {
    if es != [] {
      CssFilesMembers(es[1..]);
      assert es == [es[0]] + es[1..];
    }
  }

  /** Selection keeps listing order: the stylesheets of a listing split in
      two are those of the first part followed by those of the second. */
  lemma {:induction false} CssFilesAppend(a: seq<Entry>, b: seq<Entry>)
    ensures CssFiles(a + b) == CssFiles(a) + CssFiles(b)
  {
    if a == [] {
      assert a + b == b;
    } else {
      var head := if IsCssFile(a[0]) then [a[0]] else [];
      assert (a + b)[0] == a[0] && (a + b)[1..] == a[1..] + b;
      assert CssFiles(a + b) == head + CssFiles(a[1..] + b);
      CssFilesAppend(a[1..], b);
      assert CssFiles(a) == head + CssFiles(a[1..]);
    }
  }

  /** The bundle of a listing split in two is the bundle of the first part
      followed by the bundle of the second. */
  lemma BundleAppend(a: seq<Entry>, b: seq<Entry>)
    ensures BundleOf(a + b) == BundleOf(a) + BundleOf(b)
  {
    CssFilesAppend(a, b);
    ContentsAppend(CssFiles(a), CssFiles(b));
  }

  /** The bundle is as long as all stylesheets together. */
  lemma {:induction false} BundleLength(es: seq<Entry>)
    ensures |BundleOf(es)| == Sizes(CssFiles(es))
  {
    if es != [] {
      BundleLength(es[1..]);
      assert |BundleOf(es)| == |Contents(if IsCssFile(es[0]) then [es[0]] else [])| + |BundleOf(es[1..])| by {
        ContentsAppend(if IsCssFile(es[0]) then [es[0]] else [], CssFiles(es[1..]));
      }
      SizesAppend(if IsCssFile(es[0]) then [es[0]] else [], CssFiles(es[1..]));
    }
  }

  /** Total length of the regular files among `es`. */
  function Sizes(es: seq<Entry>): nat
  {
    if es == [] then 0
    else (if es[0].node.File? then |es[0].node.data| else 0) + Sizes(es[1..])
  }

  lemma {:induction false} SizesAppend(a: seq<Entry>, b: seq<Entry>)
    ensures Sizes(a + b) == Sizes(a) + Sizes(b)
  {
    if a == [] {
      assert a + b == b;
    } else {
      assert (a + b)[1..] == a[1..] + b;
      SizesAppend(a[1..], b);
    }
  }

  /** A listing with no stylesheet gives an empty bundle. */
  lemma {:induction false} NoCssEmptyBundle(es: seq<Entry>)
    requires forall i :: 0 <= i < |es| ==> !IsCssFile(es[i])
    ensures BundleOf(es) == ""
  {
    if es != [] {
      assert forall i :: 0 <= i < |es[1..]| ==> !IsCssFile(es[1..][i]) by {
        forall i | 0 <= i < |es[1..]| ensures !IsCssFile(es[1..][i]) {
          assert es[1..][i] == es[i + 1];
        }
      }
      NoCssEmptyBundle(es[1..]);
      assert CssFiles(es) == CssFiles(es[1..]);
    }
  }

  /** A listing of two stylesheets, a text file and a directory named like a
      stylesheet bundles the two stylesheets in listing order. */
  lemma BundleExample()
    ensures BundleOf([Entry("b.css", File("B{}")), Entry("notes.txt", File("N")),
                      Entry("old.css", Dir([])), Entry("a.css", File("A{}"))]) == "B{}A{}"
  {
    var es := [Entry("b.css", File("B{}")), Entry("notes.txt", File("N")),
               Entry("old.css", Dir([])), Entry("a.css", File("A{}"))];
    assert EndsWith("b.css", ".css") && EndsWith("a.css", ".css");
    assert !EndsWith("notes.txt", ".css");
    assert es[1..] == [Entry("notes.txt", File("N")), Entry("old.css", Dir([])), Entry("a.css", File("A{}"))];
    assert es[1..][1..] == [Entry("old.css", Dir([])), Entry("a.css", File("A{}"))];
    assert es[1..][1..][1..] == [Entry("a.css", File("A{}"))];
    assert CssFiles(es) == [es[0], es[3]];
  }

  /** After a successful merge the bundle holds the bundle of the listing;
      after a failed listing it exists and is empty; nothing outside the
      bundle changes either way. */
  lemma MergeReadsBack(t: Node, stylesDir: Path, bundle: Path, q: Path)
    requires CanWrite(t, bundle)
    requires Disjoint(stylesDir, bundle) && Disjoint(bundle, q)
    ensures var r := MergeResult(t, stylesDir, bundle);
      && r.ok == ListDir(t, stylesDir).Some?
      && ReadAt(r.tree, bundle) == Some(if r.ok then BundleOf(ListDir(t, stylesDir).value) else "")
      && Get(r.tree, q) == Get(t, q)
  {
    var t1 := Set(t, bundle, File(""));
    GetSetSame(t, bundle, File(""));
    GetSetDisjoint(t, bundle, q, File(""));
    GetSetDisjoint(t, bundle, stylesDir, File(""));
    match ListDir(t1, stylesDir)
    case None =>
    case Some(es) =>
      GetSetExisting(t1, bundle, File(BundleOf(es)));
      GetSetDisjoint(t1, bundle, q, File(BundleOf(es)));
  }

  /** Merging again from an unchanged styles directory rebuilds the same bundle. */
  lemma MergeIdempotent(t: Node, stylesDir: Path, bundle: Path)
    requires Disjoint(stylesDir, bundle)
    ensures var r := MergeResult(t, stylesDir, bundle);
      MergeResult(r.tree, stylesDir, bundle) == r
  {
    var r := MergeResult(t, stylesDir, bundle);
    if CanWrite(t, bundle) {
      var t1 := Set(t, bundle, File(""));
      GetSetSame(t, bundle, File(""));
      GetSetDisjoint(t, bundle, stylesDir, File(""));
      assert bundle[..|bundle| - 1] < bundle;
      assert Disjoint(stylesDir, bundle[..|bundle| - 1]) || bundle[..|bundle| - 1] < stylesDir || stylesDir == bundle[..|bundle| - 1] || stylesDir < bundle[..|bundle| - 1];
      MergeAgain(t, stylesDir, bundle, r.tree);
    }
  }

  /** The second merge: the bundle is writable again, truncating it and
      reading the untouched styles directory gives the first result back. */
  lemma MergeAgain(t: Node, stylesDir: Path, bundle: Path, r: Node)
    requires Disjoint(stylesDir, bundle) && CanWrite(t, bundle)
    requires r == MergeResult(t, stylesDir, bundle).tree
    ensures MergeResult(r, stylesDir, bundle) == MergeResult(t, stylesDir, bundle)
  {
    var t1 := Set(t, bundle, File(""));
    var parent := bundle[..|bundle| - 1];
    GetSetSame(t, bundle, File(""));
    GetSetDisjoint(t, bundle, stylesDir, File(""));
    ParentIsDir(t1, bundle);
    SetSet(t, bundle, File(""), File(""));
    match ListDir(t1, stylesDir)
    case None =>
      assert r == t1;
    case Some(es) =>
      var b := File(BundleOf(es));
      GetSetExisting(t1, bundle, b);
      ParentIsDir(r, bundle);
      GetSetDisjoint(t1, bundle, stylesDir, b);
      SetSet(t1, bundle, b, File(""));
      SetSet(t, bundle, File(""), File(""));
      SetSet(t, bundle, File(""), b);
  }

  // ---------------------------------------------------------------------
  // The script's entry point

  /** `mergeStyles({ srcDir, destDir, bundleFileName })`: the styles and
      destination directories resolved against the script's directory, the
      bundle resolved inside the destination. */
  method MergeStylesFrom(fs: FileSystem, scriptDir: Path,
                         srcDir: PathSpec := Relative(["styles"]),
                         destDir: PathSpec := Relative(["project-dist"]),
                         bundleFileName: PathSpec := Relative(["bundle.css"]))
    returns (ok: bool)
    requires fs.Valid()
    requires var b := Resolve(scriptDir, [destDir, bundleFileName]);
      b == [] || b[..|b| - 1] != Resolve(scriptDir, [srcDir])
    modifies fs
    ensures fs.Valid()
    ensures var r := MergeResult(old(fs.root), Resolve(scriptDir, [srcDir]), Resolve(scriptDir, [destDir, bundleFileName]));
      fs.root == r.tree && ok == r.ok
  {
    ResolveTwo(scriptDir, destDir, bundleFileName);
    var destPath := Resolve(scriptDir, [destDir]);
    var bundle := Resolve(destPath, [bundleFileName]);
    ok := BundleStyles(fs, Resolve(scriptDir, [srcDir]), bundle);
  }
}
