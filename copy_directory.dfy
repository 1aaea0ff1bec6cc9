/**
 * The stand-alone directory copier of `04-copy-directory/index.js`:
 * `clearDirectory` empties a directory of its files and subdirectories,
 * `copyFile` copies one file byte for byte and `copyDirectory` creates the
 * destination, clears it and copies the source tree into it, recursively.
 * Errors are written to standard error and not propagated. Here the `ok`
 * result of a call reports only its own failures (creating the destination,
 * listing the source); a failed file copy or nested directory copy below it
 * is dropped, as its error is. The build page reuses the clear and the file
 * copy.
 */
module CopyDirectory {
  import opened FsTree
  import opened FsLemmas
  import opened Storage
  import opened Paths

  // ---------------------------------------------------------------------
  // clearDirectory

  /** The tree after clearing the directory at `dir`: its files and
      subdirectories are gone, its other-kind entries stay in order. A
      missing directory is an error that changes nothing. */
  function Cleared(t: Node, dir: Path): Node
  {
    match ListDir(t, dir)
    case Some(es) => Set(t, dir, Dir(KeepOthers(es)))
    case None => t
  }

  method ClearDirectory(fs: FileSystem, dir: Path) returns (ok: bool)
    requires fs.Valid()
    modifies fs
    ensures fs.Valid()
    ensures ok == ListDir(old(fs.root), dir).Some?
    ensures fs.root == Cleared(old(fs.root), dir)
  {
    var listing := fs.ReadDir(dir);
    if listing.None? {
      return false;
    }
    var es := listing.value;
    ghost var t0 := fs.root;
    WFGet(t0, dir);
    SetGet(t0, dir, Dir(es));
    assert KeepOthers(es[..0]) + es[0..] == es;
    var i := 0;
    while i < |es|
      invariant i <= |es|
      invariant fs.Valid()
      invariant fs.root == Set(t0, dir, Dir(KeepOthers(es[..i]) + es[i..]))
    {
      var entry := es[i];
      ClearStep(t0, dir, es, i);
      if entry.node.File? {
        var _ := fs.Unlink(dir + [entry.name]);
      } else if entry.node.Dir? {
        var _ := fs.RemoveTree(dir + [entry.name]);
      }
      i := i + 1;
    }
    assert KeepOthers(es[..i]) + es[i..] == KeepOthers(es) by {
      assert es[..i] == es;
    }
    ok := true;
  }

  /** No entry before position `i` of a listing with unique names has the
      name of entry `i`. */
  lemma NameNotBefore(es: seq<Entry>, i: nat)
    requires Distinct(es) && i < |es|
    ensures forall e :: e in KeepOthers(es[..i]) ==> e.name != es[i].name
  {
    KeepOthersMembers(es[..i]);
  }

  /** The listing side of one clear step: entry `i` sits right after the
      entries already kept, and handling it moves it out of the remaining part. */
  lemma ClearListingStep(es: seq<Entry>, i: nat)
    requires Distinct(es) && i < |es|
    ensures var x := KeepOthers(es[..i]) + es[i..];
      && Find(x, es[i].name) == |KeepOthers(es[..i])|
      && (es[i].node.Other? ==> KeepOthers(es[..i + 1]) + es[i + 1..] == x)
      && (!es[i].node.Other? ==> KeepOthers(es[..i + 1]) + es[i + 1..] == RemoveChild(x, es[i].name))
  {
    var done := KeepOthers(es[..i]);
    ClearFind(es, i);
    KeptStep(es, i);
    if es[i].node.Other? {
      assert done + [es[i]] + es[i + 1..] == done + es[i..];
    } else {
      DropAfter(done, es[i..]);
    }
  }

  /** Entry `i` is found right after the entries kept so far. */
  lemma ClearFind(es: seq<Entry>, i: nat)
    requires Distinct(es) && i < |es|
    ensures Find(KeepOthers(es[..i]) + es[i..], es[i].name) == |KeepOthers(es[..i])|
  {
    NameNotBefore(es, i);
    FindAfter(KeepOthers(es[..i]), es[i..], es[i].name);
  }

  /** The kept entries after entry `i` are those before it, plus entry `i`
      when it is of another kind. */
  lemma KeptStep(es: seq<Entry>, i: nat)
    requires i < |es|
    ensures KeepOthers(es[..i + 1]) ==
      KeepOthers(es[..i]) + (if es[i].node.Other? then [es[i]] else [])
  {
    assert es[..i + 1] == es[..i] + [es[i]];
    KeepOthersAppend(es[..i], [es[i]]);
  }

  /** Dropping the entry right after a prefix. */
  lemma DropAfter(done: seq<Entry>, rest: seq<Entry>)
    requires rest != []
    ensures var x := done + rest; x[..|done|] + x[|done| + 1..] == done + rest[1..]
  {
    var x := done + rest;
    assert x[..|done|] == done;
    assert x[|done| + 1..] == rest[1..];
  }

  /** One entry of the clear loop: it is where the listing says, and removing
      it (or skipping it, for an other-kind entry) moves it from the remaining
      part of the listing to the done part. */
  lemma ClearStep(t0: Node, dir: Path, es: seq<Entry>, i: nat)
    requires Get(t0, dir) == Some(Dir(es)) && Distinct(es) && i < |es|
    ensures var t := Set(t0, dir, Dir(KeepOthers(es[..i]) + es[i..]));
      && Get(t, dir + [es[i].name]) == Some(es[i].node)
      && (es[i].node.Other? ==> t == Set(t0, dir, Dir(KeepOthers(es[..i + 1]) + es[i + 1..])))
      && (!es[i].node.Other? ==>
            Remove(t, dir + [es[i].name]) == Set(t0, dir, Dir(KeepOthers(es[..i + 1]) + es[i + 1..])))
  {
    var x := KeepOthers(es[..i]) + es[i..];
    ClearListingStep(es, i);
    GetSetExisting(t0, dir, Dir(x));
    GetChild(Set(t0, dir, Dir(x)), dir, x, es[i].name);
    RemoveChildPath(t0, dir, x, es[i].name);
  }

  /** After a clear only other-kind entries remain, and every one of them does. */
  lemma ClearLeavesOnlyOthers(t: Node, dir: Path, es: seq<Entry>)
    requires ListDir(t, dir) == Some(es)
    ensures ListDir(Cleared(t, dir), dir) == Some(KeepOthers(es))
    ensures forall e :: e in KeepOthers(es) <==> e in es && e.node.Other?
  {
    GetSetExisting(t, dir, Dir(KeepOthers(es)));
    KeepOthersMembers(es);
  }

  /** Clearing a cleared directory changes nothing. */
  lemma ClearIdempotent(t: Node, dir: Path)
    ensures Cleared(Cleared(t, dir), dir) == Cleared(t, dir)
  {
    match ListDir(t, dir)
    case None =>
    case Some(es) =>
      GetSetExisting(t, dir, Dir(KeepOthers(es)));
      KeepOthersIdempotent(es);
      SetSet(t, dir, Dir(KeepOthers(es)), Dir(KeepOthers(KeepOthers(es))));
  }

  /** A clear changes nothing outside the cleared directory. */
  lemma ClearOutside(t: Node, dir: Path, q: Path)
    requires Disjoint(dir, q)
    ensures Get(Cleared(t, dir), q) == Get(t, q)
  {
    if ListDir(t, dir).Some? {
      GetSetDisjoint(t, dir, q, Dir(KeepOthers(ListDir(t, dir).value)));
    }
  }

  // ---------------------------------------------------------------------
  // copyFile

  /** Copies the contents of one regular file to another path. The write
      stream creates or truncates the destination whether or not the source
      can be read, so an unreadable source leaves an empty destination file. */
  method CopyFile(fs: FileSystem, srcFile: Path, destFile: Path) returns (ok: bool)
    requires fs.Valid()
    modifies fs
    ensures fs.Valid()
    ensures ok == (ReadAt(old(fs.root), srcFile).Some? && CanWrite(old(fs.root), destFile))
    ensures fs.root == if ok then Set(old(fs.root), destFile, File(ReadAt(old(fs.root), srcFile).value))
                       else if CanWrite(old(fs.root), destFile) then Set(old(fs.root), destFile, File(""))
                       else old(fs.root)
  {
    var contents := fs.ReadFile(srcFile);
    if contents.None? {
      var _ := fs.WriteFile(destFile, "");
      return false;
    }
    ok := fs.WriteFile(destFile, contents.value);
  }

  // ---------------------------------------------------------------------
  // copyDirectory

  /** The destination entries after copying one source entry `e` into a
      destination holding `acc`: a file is added with its contents, a
      directory is added with a copy of its own listing, an other-kind entry
      is skipped. When the name is already taken in the destination (with
      unique source names, only by an other-kind entry a clear left behind)
      the copy fails with an error that is reported and skipped. */
  function AddCopy(acc: seq<Entry>, e: Entry): seq<Entry>
    decreases 1 + (match e.node case Dir(sub) => Size(sub) case _ => 0), 0
  {
    if Find(acc, e.name) < |acc| then acc
    else match e.node
      case Other => acc
      case File(_) => acc + [e]
      case Dir(sub) => acc + [Entry(e.name, Dir(Populate([], sub)))]
  }

  /** The destination entries after the source listing `es` is copied into
      `acc`, entry by entry in listing order. */
  function Populate(acc: seq<Entry>, es: seq<Entry>): seq<Entry>
    decreases Size(es), 1
  {
    if es == [] then acc else Populate(AddCopy(acc, es[0]), es[1..])
  }

  /** `copyDirectory(src, dest)`: create `dest` (recursively), clear it, then
      copy the listing of `src` into it. A failing creation or a missing
      source is reported; the steps already done stay done. */
  function CopyResult(t: Node, src: Path, dest: Path): Outcome
  {
    match MakeDirs(t, dest)
    case None => Outcome(t, false)
    case Some(t1) =>
      var t2 := Cleared(t1, dest);
      match (ListDir(t2, dest), ListDir(t2, src))
      case (Some(kept), Some(es)) => Outcome(Set(t2, dest, Dir(Populate(kept, es))), true)
      case _ => Outcome(t2, false)
  }

  method CopyDirectory(fs: FileSystem, src: Path, dest: Path) returns (ok: bool)
    requires fs.Valid()
    requires Disjoint(src, dest)
    modifies fs
    decreases SizeAt(fs.root, src), 1
    ensures fs.Valid()
    ensures fs.root == CopyResult(old(fs.root), src, dest).tree
    ensures ok == CopyResult(old(fs.root), src, dest).ok
  {
    ghost var t0 := fs.root;
    var made := fs.MakeDir(dest);
    if !made {
      return false;
    }
    var _ := ClearDirectory(fs, dest);
    ghost var t2 := fs.root;
    CopySetup(t0, src, dest);
    var listing := fs.ReadDir(src);
    if listing.None? {
      return false;
    }
    var es := listing.value;
    WFGet(t2, src);
    ghost var kept := ListDir(t2, dest).value;
    SetGet(t2, dest, Dir(kept));
    ghost var acc := kept;
    assert es[0..] == es;
    assert SizeAt(t2, src) == SizeAt(t0, src);
    var i := 0;
    while i < |es|
      invariant i <= |es|
      invariant fs.Valid()
      invariant fs.root == Set(t2, dest, Dir(acc))
      invariant Populate(acc, es[i..]) == Populate(kept, es)
      invariant forall e :: e in acc ==> e.node.Other? || Find(es, e.name) < i
    {
      CopyStep(t2, src, dest, es, acc, i);
      PopulateStep(acc, es, i);
      CopyEntry(fs, src, dest, es[i], t2, acc);
      acc := AddCopy(acc, es[i]);
      i := i + 1;
    }
    assert es[i..] == [];
    ok := true;
  }

  /** Copies one entry `e` of the source directory `src` into `dest`: a file
      with `copyFile`, a directory with a nested `copyDirectory`. */
  method CopyEntry(fs: FileSystem, src: Path, dest: Path, e: Entry, ghost t2: Node, ghost acc: seq<Entry>)
    requires fs.Valid()
    requires Disjoint(src, dest)
    requires Get(t2, dest).Some?
    requires fs.root == Set(t2, dest, Dir(acc))
    requires Get(fs.root, src + [e.name]) == Some(e.node)
    requires Find(acc, e.name) < |acc| ==> acc[Find(acc, e.name)].node.Other?
    modifies fs
    decreases SizeAt(fs.root, src + [e.name]), 2
    ensures fs.Valid()
    ensures fs.root == Set(t2, dest, Dir(AddCopy(acc, e)))
  {
    match e.node {
      case File(data) =>
        CopyIntoFile(t2, dest, acc, e.name, data);
        var _ := CopyFile(fs, src + [e.name], dest + [e.name]);
      case Dir(sub) =>
        CopyIntoChild(t2, src, dest, acc, e.name, sub);
        DisjointExtend(src, dest, [e.name], [e.name]);
        var _ := CopyDirectory(fs, src + [e.name], dest + [e.name]);
      case Other =>
    }
  }

  /** The state the copy loop starts from: after creating and clearing `dest`,
      it holds only other-kind entries, and `src` is as it was. */
  lemma CopySetup(t0: Node, src: Path, dest: Path)
    requires Disjoint(src, dest) && MakeDirs(t0, dest).Some?
    ensures var t2 := Cleared(MakeDirs(t0, dest).value, dest);
      && ListDir(t2, dest).Some?
      && (forall e :: e in ListDir(t2, dest).value ==> e.node.Other?)
      && Get(t2, src) == Get(t0, src)
  {
    var t1 := MakeDirs(t0, dest).value;
    MakeDirsIsDir(t0, dest);
    ClearLeavesOnlyOthers(t1, dest, ListDir(t1, dest).value);
    MakeDirsDisjoint(t0, dest, src);
    ClearOutside(t1, dest, src);
  }

  /** Facts about one iteration of the copy loop, with `acc` the destination
      entries so far: the source entry is still where the listing says, its
      name is taken in the destination only by an other-kind entry, and the
      nested call is smaller. */
  lemma CopyStep(t2: Node, src: Path, dest: Path, es: seq<Entry>, acc: seq<Entry>, i: nat)
    requires Disjoint(src, dest)
    requires Get(t2, src) == Some(Dir(es)) && Distinct(es) && i < |es|
    requires Get(t2, dest).Some?
    requires forall e :: e in acc ==> e.node.Other? || Find(es, e.name) < i
    ensures var t := Set(t2, dest, Dir(acc));
      && Get(t, src + [es[i].name]) == Some(es[i].node)
      && SizeAt(t, src + [es[i].name]) < SizeAt(t2, src)
      && (Find(acc, es[i].name) < |acc| ==> acc[Find(acc, es[i].name)].node.Other?)
      && (forall e :: e in AddCopy(acc, es[i]) ==> e.node.Other? || Find(es, e.name) < i + 1)
  {
    var name := es[i].name;
    var t := Set(t2, dest, Dir(acc));
    GetSetDisjoint(t2, dest, src, Dir(acc));
    DisjointExtend(dest, src, [], [name]);
    assert dest + [] == dest;
    GetSetDisjoint(t2, dest, src + [name], Dir(acc));
    SourceChild(t2, src, es, i);
    SameSize(t, t2, src + [name]);
    CopyStepNames(es, acc, i);
  }

  lemma SameSize(a: Node, b: Node, p: Path)
    requires Get(a, p) == Get(b, p)
    ensures SizeAt(a, p) == SizeAt(b, p)
  {
  }

  /** Entry `i` of the directory at `p` is found at `p + [name]`, and is smaller. */
  lemma SourceChild(t: Node, p: Path, es: seq<Entry>, i: nat)
    requires Get(t, p) == Some(Dir(es)) && Distinct(es) && i < |es|
    ensures Get(t, p + [es[i].name]) == Some(es[i].node)
    ensures SizeAt(t, p + [es[i].name]) < SizeAt(t, p)
  {
    GetChild(t, p, es, es[i].name);
    FindDistinct(es, i);
    if es[i].node.Dir? {
      SizeChild(es, i);
    }
  }

  /** The names part of one copy step: an entry the step adds comes from
      source position `i`, and the name of entry `i` can only be taken by an
      other-kind entry. */
  lemma CopyStepNames(es: seq<Entry>, acc: seq<Entry>, i: nat)
    requires Distinct(es) && i < |es|
    requires forall e :: e in acc ==> e.node.Other? || Find(es, e.name) < i
    ensures Find(acc, es[i].name) < |acc| ==> acc[Find(acc, es[i].name)].node.Other?
    ensures forall e :: e in AddCopy(acc, es[i]) ==> e.node.Other? || Find(es, e.name) < i + 1
  {
    FindDistinct(es, i);
    var j := Find(acc, es[i].name);
    if j < |acc| {
      assert acc[j] in acc;
    }
  }

  /** Populating from position `i` is adding entry `i` and populating from `i + 1`. */
  lemma PopulateStep(acc: seq<Entry>, es: seq<Entry>, i: nat)
    requires i < |es|
    ensures Populate(acc, es[i..]) == Populate(AddCopy(acc, es[i]), es[i + 1..])
  {
    assert es[i..][0] == es[i] && es[i..][1..] == es[i + 1..];
  }

  /** The `copyFile` of a source file `name` into the destination: it adds the
      file, or fails and changes nothing when the name is taken by an
      other-kind entry. */
  lemma CopyIntoFile(t2: Node, dest: Path, acc: seq<Entry>, name: string, data: string)
    requires Get(t2, dest).Some?
    requires Find(acc, name) < |acc| ==> acc[Find(acc, name)].node.Other?
    ensures var t := Set(t2, dest, Dir(acc));
      && CanWrite(t, dest + [name]) == (Find(acc, name) == |acc|)
      && (CanWrite(t, dest + [name]) ==>
            Set(t, dest + [name], File(data)) == Set(t2, dest, Dir(AddCopy(acc, Entry(name, File(data))))))
  {
    var t := Set(t2, dest, Dir(acc));
    GetSetExisting(t2, dest, Dir(acc));
    GetChild(t, dest, acc, name);
    assert (dest + [name])[..|dest + [name]| - 1] == dest;
    SetChildPath(t2, dest, acc, name, File(data));
  }

  /** The nested `copyDirectory` call on a subdirectory `name` of the source:
      its result is the destination with a copy of that subdirectory added,
      or unchanged when the name is taken. */
  lemma CopyIntoChild(t2: Node, src: Path, dest: Path, acc: seq<Entry>, name: string, sub: seq<Entry>)
    requires Disjoint(src, dest)
    requires Get(t2, dest).Some?
    requires Get(Set(t2, dest, Dir(acc)), src + [name]) == Some(Dir(sub))
    requires Find(acc, name) < |acc| ==> acc[Find(acc, name)].node.Other?
    ensures CopyResult(Set(t2, dest, Dir(acc)), src + [name], dest + [name]) ==
      if Find(acc, name) < |acc| then Outcome(Set(t2, dest, Dir(acc)), false)
      else Outcome(Set(t2, dest, Dir(AddCopy(acc, Entry(name, Dir(sub))))), true)
  {
    var t := Set(t2, dest, Dir(acc));
    GetSetExisting(t2, dest, Dir(acc));
    MakeDirsChild(t, dest, acc, name);
    if Find(acc, name) == |acc| {
      SetSet(t2, dest, Dir(acc), Dir(acc + [Entry(name, Dir([]))]));
      CopyIntoFreshChild(t2, src, dest, acc, name, sub);
    }
  }

  /** The nested copy into a name the destination does not have yet: it
      creates an empty directory there and fills it with the subdirectory. */
  lemma CopyIntoFreshChild(t2: Node, src: Path, dest: Path, acc: seq<Entry>, name: string, sub: seq<Entry>)
    requires Disjoint(src, dest)
    requires Get(t2, dest).Some? && Find(acc, name) == |acc|
    requires Get(Set(t2, dest, Dir(acc)), src + [name]) == Some(Dir(sub))
    requires MakeDirs(Set(t2, dest, Dir(acc)), dest + [name]) ==
      Some(Set(t2, dest, Dir(acc + [Entry(name, Dir([]))])))
    ensures CopyResult(Set(t2, dest, Dir(acc)), src + [name], dest + [name]) ==
      Outcome(Set(t2, dest, Dir(acc + [Entry(name, Dir(Populate([], sub)))])), true)
  {
    var withNew := acc + [Entry(name, Dir([]))];
    var t1 := Set(t2, dest, Dir(withNew));
    GetSetExisting(t2, dest, Dir(withNew));
    FindAppend(acc, Entry(name, Dir([])), name);
    GetChild(t1, dest, withNew, name);
    SetGet(t1, dest + [name], Dir([]));
    assert Cleared(t1, dest + [name]) == t1;
    DisjointExtend(src, dest, [name], [name]);
    GetSetDisjoint(t2, dest, src + [name], Dir(acc));
    GetSetDisjoint(t2, dest, src + [name], Dir(withNew));
    SetChildPath(t2, dest, withNew, name, Dir(Populate([], sub)));
    assert withNew[|acc| := Entry(name, Dir(Populate([], sub)))]
        == acc + [Entry(name, Dir(Populate([], sub)))];
  }

  // ---------------------------------------------------------------------
  // What a copy leaves behind

  /** No name of `a` occurs in `b`. */
  predicate NamesApart(a: seq<Entry>, b: seq<Entry>)
  {
    forall i, j :: 0 <= i < |a| && 0 <= j < |b| ==> a[i].name != b[j].name
  }

  /** The listing a destination has before the copy: empty when it is missing. */
  function Existing(t: Node, dest: Path): seq<Entry>
  {
    match ListDir(t, dest)
    case Some(es) => es
    case None => []
  }

  /** Copying a listing with unique names into entries none of whose names it
      uses appends its skeleton: every file with its contents, every
      directory with a copy of its own skeleton, and no other-kind entry. */
  lemma {:induction false} PopulateFresh(acc: seq<Entry>, es: seq<Entry>)
    requires WF(Dir(es)) && NamesApart(acc, es)
    ensures Populate(acc, es) == acc + Prune(es)
    decreases Size(es)
  {
    if es != [] {
      var e := es[0];
      NamesApartHead(acc, es);
      if e.node.Dir? {
        assert WF(es[0].node);
        PopulateFresh([], e.node.entries);
      }
      AddCopyFresh(acc, e);
      var next := acc + Prune([e]);
      assert Populate(acc, es) == Populate(next, es[1..]);
      WFTail(es);
      NamesApartStep(acc, es, Prune([e]));
      PopulateFresh(next, es[1..]);
      PruneCons(es);
      assert next + Prune(es[1..]) == acc + (Prune([e]) + Prune(es[1..]));
    }
  }

  /** The head of a listing is fresh in entries apart from it. */
  lemma NamesApartHead(acc: seq<Entry>, es: seq<Entry>)
    requires NamesApart(acc, es) && es != []
    ensures Find(acc, es[0].name) == |acc|
  {
  }

  /** The tail of a well-formed listing is well-formed. */
  lemma WFTail(es: seq<Entry>)
    requires WF(Dir(es)) && es != []
    ensures WF(Dir(es[1..]))
  {
    WFDrop(es, 0);
    assert es[..0] + es[1..] == es[1..];
  }

  /** Adding an entry under a fresh name appends its skeleton, given that
      of a directory's own listing. */
  lemma AddCopyFresh(acc: seq<Entry>, e: Entry)
    requires Find(acc, e.name) == |acc|
    requires e.node.Dir? ==> Populate([], e.node.entries) == Prune(e.node.entries)
    ensures AddCopy(acc, e) == acc + Prune([e])
    ensures forall k :: 0 <= k < |Prune([e])| ==> Prune([e])[k].name == e.name
  {
    assert [e][1..] == [];
  }

  /** The skeleton of a listing is that of its head followed by that of its tail. */
  lemma PruneCons(es: seq<Entry>)
    requires es != []
    ensures Prune(es) == Prune([es[0]]) + Prune(es[1..])
  {
    assert [es[0]][1..] == [];
  }

  /** Entries named like the head of a listing with unique names clash with
      none of its tail. */
  lemma NamesApartStep(acc: seq<Entry>, es: seq<Entry>, x: seq<Entry>)
    requires NamesApart(acc, es) && Distinct(es) && es != []
    requires forall k :: 0 <= k < |x| ==> x[k].name == es[0].name
    ensures NamesApart(acc + x, es[1..])
  {
    forall i, j | 0 <= i < |acc + x| && 0 <= j < |es[1..]|
      ensures (acc + x)[i].name != es[1..][j].name
    {
      assert es[1..][j] == es[j + 1];
      if i >= |acc| {
        assert (acc + x)[i] == x[i - |acc|];
      }
    }
  }

  /** Recursive creation of `dest` leaves a directory holding what was there
      before, or nothing when `dest` was missing. */
  lemma MadeDest(t: Node, dest: Path)
    requires MakeDirs(t, dest).Some?
    ensures ListDir(MakeDirs(t, dest).value, dest) == Some(Existing(t, dest))
  {
    if Get(t, dest).None? {
      MakeDirsFresh(t, dest);
    } else if Get(t, dest).value.Dir? {
      MakeDirsExisting(t, dest);
    } else {
      MakeDirsBlocked(t, dest);
    }
  }

  /** A copy whose source names do not clash with the other-kind entries
      already in the destination succeeds, leaves the source as it was, and
      makes the destination hold those other-kind entries followed by the
      files and directories of the source, at every depth and in listing
      order: its skeleton is the source's skeleton. */
  lemma CopyMirrorsSource(t: Node, src: Path, dest: Path, es: seq<Entry>)
    requires WF(t) && Disjoint(src, dest)
    requires ListDir(t, src) == Some(es) && MakeDirs(t, dest).Some?
    requires NamesApart(KeepOthers(Existing(t, dest)), es)
    ensures CopyResult(t, src, dest).ok
    ensures ListDir(CopyResult(t, src, dest).tree, dest) == Some(KeepOthers(Existing(t, dest)) + Prune(es))
    ensures Prune(ListDir(CopyResult(t, src, dest).tree, dest).value) == Prune(es)
    ensures Get(CopyResult(t, src, dest).tree, src) == Get(t, src)
  {
    var kept := KeepOthers(Existing(t, dest));
    var t2 := CopyStart(t, src, dest);
    WFGet(t, src);
    PopulateFresh(kept, es);
    GetSetExisting(t2, dest, Dir(kept + Prune(es)));
    GetSetDisjoint(t2, dest, src, Dir(kept + Prune(es)));
    PruneAfterOthers(Existing(t, dest), es);
  }

  /** Other-kind entries ahead of a skeleton vanish when it is pruned again. */
  lemma PruneAfterOthers(x: seq<Entry>, es: seq<Entry>)
    ensures Prune(KeepOthers(x) + Prune(es)) == Prune(es)
  {
    PruneAppend(KeepOthers(x), Prune(es));
    PruneKeepOthers(x);
    PruneIdempotent(es);
  }

  /** The tree `t2` a copy starts its loop from, once the destination is
      created and cleared: there the destination holds the other-kind entries
      it had, the source is as it was, and a readable source is copied into
      the destination. */
  lemma CopyStart(t: Node, src: Path, dest: Path) returns (t2: Node)
    requires Disjoint(src, dest) && MakeDirs(t, dest).Some?
    ensures t2 == Cleared(MakeDirs(t, dest).value, dest)
    ensures ListDir(t2, dest) == Some(KeepOthers(Existing(t, dest)))
    ensures Get(t2, src) == Get(t, src)
    ensures CopyResult(t, src, dest) ==
      if ListDir(t, src).Some? then Outcome(Set(t2, dest, Dir(Populate(KeepOthers(Existing(t, dest)), ListDir(t, src).value))), true)
      else Outcome(t2, false)
  {
    var t1 := MakeDirs(t, dest).value;
    t2 := Cleared(t1, dest);
    MadeDest(t, dest);
    CopySetup(t, src, dest);
    ClearLeavesOnlyOthers(t1, dest, Existing(t, dest));
    assert ListDir(t2, src) == ListDir(t, src);
  }

  /** Copying into a missing destination creates an exact skeleton of the source. */
  lemma CopyIntoMissing(t: Node, src: Path, dest: Path, es: seq<Entry>)
    requires WF(t) && Disjoint(src, dest)
    requires ListDir(t, src) == Some(es) && MakeDirs(t, dest).Some? && Get(t, dest).None?
    ensures CopyResult(t, src, dest).ok
    ensures ListDir(CopyResult(t, src, dest).tree, dest) == Some(Prune(es))
  {
    assert Existing(t, dest) == [] && KeepOthers([]) == [];
    assert NamesApart([], es);
    CopyMirrorsSource(t, src, dest, es);
    assert [] + Prune(es) == Prune(es);
  }

  /** With a missing source the copy fails after creating and clearing the
      destination, which then holds only its other-kind entries. */
  lemma CopyMissingSource(t: Node, src: Path, dest: Path)
    requires Disjoint(src, dest)
    requires ListDir(t, src).None? && MakeDirs(t, dest).Some?
    ensures !CopyResult(t, src, dest).ok
    ensures ListDir(CopyResult(t, src, dest).tree, dest) == Some(KeepOthers(Existing(t, dest)))
  {
    var _ := CopyStart(t, src, dest);
  }

  /** A destination that cannot be created (some node along it is not a
      directory) is an error that changes nothing. */
  lemma CopyBlockedDest(t: Node, src: Path, dest: Path)
    requires Get(t, dest).Some? && !Get(t, dest).value.Dir?
    ensures CopyResult(t, src, dest) == Outcome(t, false)
  {
    MakeDirsBlocked(t, dest);
  }

  // ---------------------------------------------------------------------
  // The script's entry point

  /** `${srcDir}-copy`: the default destination, a sibling of the source. */
  function DefaultCopyDest(srcDir: PathSpec): PathSpec
  {
    var s := srcDir.segments;
    if s == [] then PathSpec(srcDir.absolute, ["-copy"])
    else PathSpec(srcDir.absolute, s[..|s| - 1] + [s[|s| - 1] + "-copy"])
  }

  /** The default destination of a named source is never inside it, nor the
      other way round. */
  lemma DefaultDestDisjoint(base: Path, srcDir: PathSpec)
    requires srcDir.segments != []
    ensures Disjoint(Resolve(base, [srcDir]), Resolve(base, [DefaultCopyDest(srcDir)]))
  {
    var s := srcDir.segments;
    var pre := if srcDir.absolute then [] else base;
    var last := s[|s| - 1];
    assert last + "-copy" != last by {
      assert |last + "-copy"| == |last| + 5;
    }
    assert Resolve(base, [srcDir]) == pre + s;
    assert Resolve(base, [DefaultCopyDest(srcDir)]) == pre + s[..|s| - 1] + [last + "-copy"];
    var k := |pre| + |s| - 1;
    assert (pre + s)[k] == last;
    assert (pre + s[..|s| - 1] + [last + "-copy"])[k] == last + "-copy";
  }

  /** `copyDirectory({ srcDir, destDir })` with both paths resolved against
      the script's directory and the destination defaulting to
      `${srcDir}-copy`. */
  method CopyDirectoryFrom(fs: FileSystem, scriptDir: Path, srcDir: PathSpec, destDir: Option<PathSpec>)
    returns (ok: bool)
    requires fs.Valid()
    requires Disjoint(Resolve(scriptDir, [srcDir]),
                      Resolve(scriptDir, [if destDir.Some? then destDir.value else DefaultCopyDest(srcDir)]))
    modifies fs
    ensures fs.Valid()
    ensures var r := CopyResult(old(fs.root), Resolve(scriptDir, [srcDir]),
                                Resolve(scriptDir, [if destDir.Some? then destDir.value else DefaultCopyDest(srcDir)]));
      fs.root == r.tree && ok == r.ok
  {
    var dest := if destDir.Some? then destDir.value else DefaultCopyDest(srcDir);
    ok := CopyDirectory(fs, Resolve(scriptDir, [srcDir]), Resolve(scriptDir, [dest]));
  }

  /** The script's own call: copy `files` to `files-copy` next to it. */
  method CopyFilesFolder(fs: FileSystem, scriptDir: Path) returns (ok: bool)
    requires fs.Valid()
    modifies fs
    ensures fs.Valid()
    ensures var r := CopyResult(old(fs.root), scriptDir + ["files"], scriptDir + ["files-copy"]);
      fs.root == r.tree && ok == r.ok
  {
    DefaultDestDisjoint(scriptDir, Relative(["files"]));
    assert "files" + "-copy" == "files-copy";
    assert DefaultCopyDest(Relative(["files"])) == Relative(["files-copy"]);
    ok := CopyDirectoryFrom(fs, scriptDir, Relative(["files"]), None);
  }
}
