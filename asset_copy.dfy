/**
 * The asset copy of the build page (`#copyDir` of `06-build-page/index.js`):
 * unlike the stand-alone copier it does not clear the destination. It
 * creates the destination, then walks the source listing in order, copying
 * each file over whatever file is there and merging each subdirectory into
 * the destination's directory of the same name. The first error (a file
 * meeting a directory or an entry of another kind, a directory meeting a
 * file) is thrown and stops the whole copy; what was copied before it stays.
 */
module AssetCopy {
  import opened FsTree
  import opened FsLemmas
  import opened CopyDirectory

  /** Destination entries after a merge, and whether it ran to the end. */
  datatype Merged = Merged(entries: seq<Entry>, ok: bool)

  /** Merging one source entry `e` into the destination entries `acc`. */
  function MergeEntry(acc: seq<Entry>, e: Entry): Merged
    decreases 1 + (match e.node case Dir(sub) => Size(sub) case _ => 0), 0
  {
    var j := Find(acc, e.name);
    match e.node
    case Other => Merged(acc, true)
    case File(_) =>
      if j < |acc| && !acc[j].node.File? then Merged(acc, false)
      else Merged(SetChild(acc, e.name, e.node), true)
    case Dir(sub) =>
      if j == |acc| then
        var r := MergeAll([], sub);
        Merged(acc + [Entry(e.name, Dir(r.entries))], r.ok)
      else if acc[j].node.Dir? then
        var r := MergeAll(acc[j].node.entries, sub);
        Merged(acc[j := Entry(e.name, Dir(r.entries))], r.ok)
      else Merged(acc, false)
  }

  /** Merging the source listing `es` into `acc`, in order, up to the first error. */
  function MergeAll(acc: seq<Entry>, es: seq<Entry>): Merged
    decreases Size(es), 1
  {
    if es == [] then Merged(acc, true)
    else
      var r := MergeEntry(acc, es[0]);
      if r.ok then MergeAll(r.entries, es[1..]) else r
  }

  /** `#copyDir({ srcDir, destDir })`: create the destination (recursively),
      list the source and merge it in. */
  function CopyDirResult(t: Node, src: Path, dest: Path): Outcome
  {
    match MakeDirs(t, dest)
    case None => Outcome(t, false)
    case Some(t1) =>
      match (ListDir(t1, dest), ListDir(t1, src))
      case (Some(d), Some(es)) =>
        var r := MergeAll(d, es);
        Outcome(Set(t1, dest, Dir(r.entries)), r.ok)
      case _ => Outcome(t1, false)
  }

  // ---------------------------------------------------------------------
  // Steps of the copy method

  /** Creating the destination: it then holds what it held before, and the
      source is as it was. */
  lemma CopyDirStart(t: Node, src: Path, dest: Path) returns (t1: Node)
    requires Disjoint(src, dest) && MakeDirs(t, dest).Some?
    ensures t1 == MakeDirs(t, dest).value
    ensures ListDir(t1, dest) == Some(Existing(t, dest))
    ensures Get(t1, src) == Get(t, src)
    ensures CopyDirResult(t, src, dest) ==
      if ListDir(t, src).Some? then
        Outcome(Set(t1, dest, Dir(MergeAll(Existing(t, dest), ListDir(t, src).value).entries)),
                MergeAll(Existing(t, dest), ListDir(t, src).value).ok)
      else Outcome(t1, false)
  {
    t1 := MakeDirs(t, dest).value;
    MadeDest(t, dest);
    MakeDirsDisjoint(t, dest, src);
  }

  /** One step of the merge loop: merging from position `i` is merging entry
      `i`, then, when that succeeded, merging from `i + 1`. */
  lemma MergeAllStep(acc: seq<Entry>, es: seq<Entry>, i: nat)
    requires i < |es|
    ensures MergeAll(acc, es[i..]) ==
      if MergeEntry(acc, es[i]).ok then MergeAll(MergeEntry(acc, es[i]).entries, es[i + 1..])
      else MergeEntry(acc, es[i])
  {
    assert es[i..][0] == es[i] && es[i..][1..] == es[i + 1..];
  }

  /** The `i`-th source entry is still found, and is smaller than the source,
      while the destination is being filled. */
  lemma MergeLoopStep(t1: Node, src: Path, dest: Path, es: seq<Entry>, acc: seq<Entry>, i: nat)
    requires Disjoint(src, dest)
    requires Get(t1, src) == Some(Dir(es)) && Distinct(es) && i < |es|
    ensures var t := Set(t1, dest, Dir(acc));
      && Get(t, src + [es[i].name]) == Some(es[i].node)
      && SizeAt(t, src + [es[i].name]) < SizeAt(t1, src)
  {
    var t := Set(t1, dest, Dir(acc));
    GetSetDisjoint(t1, dest, src, Dir(acc));
    SourceChild(t, src, es, i);
  }

  /** Copying a source file `name` into the destination entries `acc`: the
      write succeeds unless a directory or other-kind entry has that name,
      and then puts the file in. */
  lemma MergeFileStep(t1: Node, dest: Path, acc: seq<Entry>, name: string, data: string)
    requires Get(t1, dest).Some?
    ensures var t := Set(t1, dest, Dir(acc));
      var r := MergeEntry(acc, Entry(name, File(data)));
      && CanWrite(t, dest + [name]) == r.ok
      && (r.ok ==> Set(t, dest + [name], File(data)) == Set(t1, dest, Dir(r.entries)))
  {
    var t := Set(t1, dest, Dir(acc));
    GetSetExisting(t1, dest, Dir(acc));
    GetChild(t, dest, acc, name);
    assert (dest + [name])[..|dest + [name]| - 1] == dest;
    SetChildPath(t1, dest, acc, name, File(data));
  }

  /** The nested copy of a source directory `name` into the destination
      entries `acc` amounts to merging it as one entry. */
  lemma MergeDirStep(t1: Node, src: Path, dest: Path, acc: seq<Entry>, name: string, sub: seq<Entry>)
    requires Disjoint(src, dest)
    requires Get(t1, dest).Some?
    requires Get(Set(t1, dest, Dir(acc)), src + [name]) == Some(Dir(sub))
    ensures var r := MergeEntry(acc, Entry(name, Dir(sub)));
      CopyDirResult(Set(t1, dest, Dir(acc)), src + [name], dest + [name]) == Outcome(Set(t1, dest, Dir(r.entries)), r.ok)
  {
    var t := Set(t1, dest, Dir(acc));
    var j := Find(acc, name);
    GetSetExisting(t1, dest, Dir(acc));
    MakeDirsChild(t, dest, acc, name);
    if j == |acc| {
      SetSet(t1, dest, Dir(acc), Dir(acc + [Entry(name, Dir([]))]));
      MergeDirFresh(t1, src, dest, acc, name, sub);
    } else if acc[j].node.Dir? {
      MergeDirExisting(t1, src, dest, acc, name, sub);
    }
  }

  /** The nested copy into a name the destination lacks creates it empty and
      merges the subdirectory into it. */
  lemma MergeDirFresh(t1: Node, src: Path, dest: Path, acc: seq<Entry>, name: string, sub: seq<Entry>)
    requires Disjoint(src, dest)
    requires Get(t1, dest).Some? && Find(acc, name) == |acc|
    requires Get(Set(t1, dest, Dir(acc)), src + [name]) == Some(Dir(sub))
    requires MakeDirs(Set(t1, dest, Dir(acc)), dest + [name]) ==
      Some(Set(t1, dest, Dir(acc + [Entry(name, Dir([]))])))
    ensures var r := MergeAll([], sub);
      CopyDirResult(Set(t1, dest, Dir(acc)), src + [name], dest + [name]) ==
        Outcome(Set(t1, dest, Dir(acc + [Entry(name, Dir(r.entries))])), r.ok)
  {
    var withNew := acc + [Entry(name, Dir([]))];
    var t2 := Set(t1, dest, Dir(withNew));
    DisjointExtend(src, dest, [name], [name]);
    GetSetExisting(t1, dest, Dir(withNew));
    FindAppend(acc, Entry(name, Dir([])), name);
    GetChild(t2, dest, withNew, name);
    GetSetDisjoint(t1, dest, src + [name], Dir(acc));
    GetSetDisjoint(t1, dest, src + [name], Dir(withNew));
    var r := MergeAll([], sub);
    SetChildPath(t1, dest, withNew, name, Dir(r.entries));
    assert withNew[|acc| := Entry(name, Dir(r.entries))] == acc + [Entry(name, Dir(r.entries))];
  }

  /** The nested copy into an existing directory merges into its entries. */
  lemma MergeDirExisting(t1: Node, src: Path, dest: Path, acc: seq<Entry>, name: string, sub: seq<Entry>)
    requires Disjoint(src, dest)
    requires Get(t1, dest).Some? && Find(acc, name) < |acc| && acc[Find(acc, name)].node.Dir?
    requires Get(Set(t1, dest, Dir(acc)), src + [name]) == Some(Dir(sub))
    requires MakeDirs(Set(t1, dest, Dir(acc)), dest + [name]) == Some(Set(t1, dest, Dir(acc)))
    ensures var j := Find(acc, name);
      var r := MergeAll(acc[j].node.entries, sub);
      CopyDirResult(Set(t1, dest, Dir(acc)), src + [name], dest + [name]) ==
        Outcome(Set(t1, dest, Dir(acc[j := Entry(name, Dir(r.entries))])), r.ok)
  {
    var t := Set(t1, dest, Dir(acc));
    var j := Find(acc, name);
    GetSetExisting(t1, dest, Dir(acc));
    GetChild(t, dest, acc, name);
    var r := MergeAll(acc[j].node.entries, sub);
    SetChildPath(t1, dest, acc, name, Dir(r.entries));
  }

  // ---------------------------------------------------------------------
  // What a merge leaves behind

  /** A merge never removes or alters a destination entry whose name the
      source does not use, whether it runs to the end or stops early. */
  lemma {:induction false} MergeKeepsUnnamed(acc: seq<Entry>, es: seq<Entry>, e: Entry)
    requires e in acc
    requires forall k :: 0 <= k < |es| ==> es[k].name != e.name
    ensures e in MergeAll(acc, es).entries
    decreases Size(es)
  {
    if es != [] {
      var r := MergeEntry(acc, es[0]);
      MergeEntryKeeps(acc, es[0], e);
      if r.ok {
        forall k | 0 <= k < |es[1..]|
          ensures es[1..][k].name != e.name
        {
          assert es[1..][k] == es[k + 1];
        }
        MergeKeepsUnnamed(r.entries, es[1..], e);
      }
    }
  }

  /** Merging one entry leaves the destination entries of other names alone. */
  lemma MergeEntryKeeps(acc: seq<Entry>, s: Entry, e: Entry)
    requires e in acc && s.name != e.name
    ensures e in MergeEntry(acc, s).entries
  {
    var j := Find(acc, s.name);
    var i :| 0 <= i < |acc| && acc[i] == e;
    if j < |acc| {
      assert i != j;
      match s.node
      case Other =>
      case File(_) =>
        assert SetChild(acc, s.name, s.node)[i] == e;
      case Dir(sub) =>
        if acc[j].node.Dir? {
          var r := MergeAll(acc[j].node.entries, sub);
          assert acc[j := Entry(s.name, Dir(r.entries))][i] == e;
        }
    } else {
      match s.node
      case Other =>
      case File(_) =>
        assert SetChild(acc, s.name, s.node)[i] == e;
      case Dir(sub) =>
        var r := MergeAll([], sub);
        assert (acc + [Entry(s.name, Dir(r.entries))])[i] == e;
    }
  }

  /** After a merge that ran to the end, every file of the source listing is
      in the destination with its contents. */
  lemma {:induction false} MergeCopiesFiles(acc: seq<Entry>, es: seq<Entry>, k: nat)
    requires Distinct(es) && k < |es| && es[k].node.File?
    requires MergeAll(acc, es).ok
    ensures es[k] in MergeAll(acc, es).entries
    decreases Size(es)
  {
    var r := MergeEntry(acc, es[0]);
    if k == 0 {
      var j := Find(acc, es[0].name);
      assert r.entries == SetChild(acc, es[0].name, es[0].node);
      if j < |acc| {
        assert r.entries[j] == es[0];
      } else {
        assert r.entries[|acc|] == es[0];
      }
      forall m | 0 <= m < |es[1..]|
        ensures es[1..][m].name != es[0].name
      {
        assert es[1..][m] == es[m + 1];
      }
      MergeKeepsUnnamed(r.entries, es[1..], es[0]);
    } else {
      assert es[1..][k - 1] == es[k];
      assert Distinct(es[1..]) by {
        forall a, b | 0 <= a < b < |es[1..]|
          ensures es[1..][a].name != es[1..][b].name
        {
          assert es[1..][a] == es[a + 1] && es[1..][b] == es[b + 1];
        }
      }
      MergeCopiesFiles(r.entries, es[1..], k - 1);
    }
  }

  /** Into entries none of whose names the source uses, the merge cannot
      fail, and it copies exactly what the stand-alone copier copies. */
  lemma {:induction false} MergeFreshIsPopulate(acc: seq<Entry>, es: seq<Entry>)
    requires WF(Dir(es)) && NamesApart(acc, es)
    ensures MergeAll(acc, es) == Merged(Populate(acc, es), true)
    decreases Size(es)
  {
    if es != [] {
      var e := es[0];
      assert Find(acc, e.name) == |acc|;
      var next := AddCopy(acc, e);
      match e.node {
        case Other =>
        case File(_) =>
        case Dir(sub) =>
          assert WF(es[0].node);
          MergeFreshIsPopulate([], sub);
      }
      assert MergeEntry(acc, e) == Merged(next, true);
      assert WF(Dir(es[1..])) by {
        forall k | 0 <= k < |es[1..]|
          ensures WF(es[1..][k].node)
        {
          assert es[1..][k] == es[k + 1];
        }
      }
      forall i, j | 0 <= i < |next| && 0 <= j < |es[1..]|
        ensures next[i].name != es[1..][j].name
      {
        assert es[1..][j] == es[j + 1];
        if i < |acc| {
          assert next[i] == acc[i];
        } else {
          assert next[i].name == es[0].name;
        }
      }
      MergeFreshIsPopulate(next, es[1..]);
    }
  }

  /** Copying into a missing destination succeeds and creates an exact
      skeleton of the source, as the stand-alone copier does. */
  lemma CopyDirIntoMissing(t: Node, src: Path, dest: Path, es: seq<Entry>)
    requires WF(t) && Disjoint(src, dest)
    requires ListDir(t, src) == Some(es) && MakeDirs(t, dest).Some? && Get(t, dest).None?
    ensures CopyDirResult(t, src, dest).ok
    ensures ListDir(CopyDirResult(t, src, dest).tree, dest) == Some(Prune(es))
    ensures Get(CopyDirResult(t, src, dest).tree, src) == Get(t, src)
  {
    var t1 := CopyDirStart(t, src, dest);
    assert Existing(t, dest) == [];
    WFGet(t, src);
    assert NamesApart([], es);
    MergeFreshIsPopulate([], es);
    PopulateFresh([], es);
    assert [] + Prune(es) == Prune(es);
    GetSetExisting(t1, dest, Dir(Prune(es)));
    GetSetDisjoint(t1, dest, src, Dir(Prune(es)));
  }

  /** A source file meeting a destination directory of the same name stops
      the copy. */
  lemma FileOntoDirFails(acc: seq<Entry>, name: string, data: string, x: seq<Entry>)
    requires Find(acc, name) < |acc| && acc[Find(acc, name)].node == Dir(x)
    ensures !MergeEntry(acc, Entry(name, File(data))).ok
  {
  }
  // ---------------------------------------------------------------------
  // Files at any depth

  /** Merging one entry keeps the destination free of duplicate names. */
  lemma {:induction false} MergeEntryWF(acc: seq<Entry>, e: Entry)
    requires WF(Dir(acc)) && WF(e.node)
    ensures WF(Dir(MergeEntry(acc, e).entries))
    decreases 1 + (match e.node case Dir(sub) => Size(sub) case _ => 0), 0
  {
    var j := Find(acc, e.name);
    match e.node
    case Other =>
    case File(_) =>
      if !(j < |acc| && !acc[j].node.File?) {
        DistinctSetChild(acc, e.name, e.node);
        var r := SetChild(acc, e.name, e.node);
        assert forall k :: 0 <= k < |r| ==> r[k] == Entry(e.name, e.node) || r[k] == acc[k];
      }
    case Dir(sub) =>
      if j == |acc| {
        var m := MergeAll([], sub);
        MergeAllWF([], sub);
        DistinctAppend(acc, Entry(e.name, Dir(m.entries)));
        var r := acc + [Entry(e.name, Dir(m.entries))];
        assert forall k :: 0 <= k < |r| ==> WF(r[k].node);
      } else if acc[j].node.Dir? {
        var m := MergeAll(acc[j].node.entries, sub);
        assert WF(acc[j].node);
        MergeAllWF(acc[j].node.entries, sub);
        DistinctUpdate(acc, j, Dir(m.entries));
        var r := acc[j := Entry(e.name, Dir(m.entries))];
        assert forall k :: 0 <= k < |r| ==> WF(r[k].node);
      }
  }

  /** A merge keeps the destination free of duplicate names, at every depth. */
  lemma {:induction false} MergeAllWF(acc: seq<Entry>, es: seq<Entry>)
    requires WF(Dir(acc)) && WF(Dir(es))
    ensures WF(Dir(MergeAll(acc, es).entries))
    decreases Size(es), 1
  {
    if es != [] {
      assert WF(es[0].node);
      MergeEntryWF(acc, es[0]);
      var r := MergeEntry(acc, es[0]);
      if r.ok {
        WFTail(es);
        MergeAllWF(r.entries, es[1..]);
      }
    }
  }

  /** After a merge that ran to the end, the destination holds a directory of
      the name of each source directory, holding what the source directory
      was merged into. */
  lemma {:induction false} MergeCopiesDir(acc: seq<Entry>, es: seq<Entry>, k: nat) returns (x: seq<Entry>)
    requires WF(Dir(acc)) && WF(Dir(es))
    requires k < |es| && es[k].node.Dir?
    requires MergeAll(acc, es).ok
    ensures WF(Dir(x))
    ensures MergeAll(x, es[k].node.entries).ok
    ensures Entry(es[k].name, Dir(MergeAll(x, es[k].node.entries).entries)) in MergeAll(acc, es).entries
    decreases Size(es)
  {
    var r := MergeEntry(acc, es[0]);
    if k == 0 {
      var sub := es[0].node.entries;
      var j := Find(acc, es[0].name);
      if j == |acc| {
        x := [];
        assert r.entries[|acc|] == Entry(es[0].name, Dir(MergeAll(x, sub).entries));
      } else {
        x := acc[j].node.entries;
        assert WF(acc[j].node);
        assert r.entries[j] == Entry(es[0].name, Dir(MergeAll(x, sub).entries));
      }
      forall m | 0 <= m < |es[1..]|
        ensures es[1..][m].name != es[0].name
      {
        assert es[1..][m] == es[m + 1];
      }
      MergeKeepsUnnamed(r.entries, es[1..], Entry(es[0].name, Dir(MergeAll(x, sub).entries)));
    } else {
      assert WF(es[0].node);
      MergeEntryWF(acc, es[0]);
      WFTail(es);
      assert es[1..][k - 1] == es[k];
      x := MergeCopiesDir(r.entries, es[1..], k - 1);
    }
  }

  /** The entry an entry list holds under its own name, in a list without
      duplicate names. */
  lemma GetMember(es: seq<Entry>, e: Entry, rest: Path)
    requires Distinct(es) && e in es
    ensures Get(Dir(es), [e.name] + rest) == Get(e.node, rest)
  {
    var m :| 0 <= m < |es| && es[m] == e;
    FindDistinct(es, m);
    assert ([e.name] + rest)[0] == e.name && ([e.name] + rest)[1..] == rest;
  }

  /** After a merge that ran to the end, every file below the source listing,
      at any depth, is at the same relative path in the destination with the
      same contents. */
  lemma {:induction false} MergeCopiesDeep(acc: seq<Entry>, es: seq<Entry>, q: Path, d: string)
    requires WF(Dir(acc)) && WF(Dir(es))
    requires MergeAll(acc, es).ok
    requires Get(Dir(es), q) == Some(File(d))
    ensures Get(Dir(MergeAll(acc, es).entries), q) == Some(File(d))
    decreases |q|
  {
    var k := Find(es, q[0]);
    var res := MergeAll(acc, es).entries;
    MergeAllWF(acc, es);
    assert q == [es[k].name] + q[1..];
    GetMember(es, es[k], q[1..]);
    match es[k].node
    case File(_) =>
      MergeCopiesFiles(acc, es, k);
      GetMember(res, es[k], q[1..]);
    case Dir(sub) =>
      var x := MergeCopiesDir(acc, es, k);
      var m := MergeAll(x, sub);
      GetMember(res, Entry(es[k].name, Dir(m.entries)), q[1..]);
      assert WF(es[k].node);
      MergeCopiesDeep(x, sub, q[1..], d);
  }

  /** After `#copyDir(src, dest)` completes, every file below `src`, at any
      depth, is at the same relative path below `dest` with the same
      contents. */
  lemma CopyDirCopiesFiles(t: Node, src: Path, dest: Path, q: Path, d: string)
    requires WF(t) && Disjoint(src, dest)
    requires CopyDirResult(t, src, dest).ok
    requires Get(t, src + q) == Some(File(d))
    ensures Get(CopyDirResult(t, src, dest).tree, dest + q) == Some(File(d))
  {
    var t1 := CopyDirStart(t, src, dest);
    var es := ListDir(t, src).value;
    var existing := Existing(t, dest);
    var r := MergeAll(existing, es);
    WFMakeDirs(t, dest);
    WFGet(t1, dest);
    WFGet(t, src);
    GetAppend(t, src, q);
    MergeCopiesDeep(existing, es, q, d);
    GetSetExisting(t1, dest, Dir(r.entries));
    GetAppend(Set(t1, dest, Dir(r.entries)), dest, q);
  }

  /** The copy changes nothing outside the destination. */
  lemma CopyDirOutside(t: Node, src: Path, dest: Path, q: Path)
    requires Disjoint(dest, q)
    ensures Get(CopyDirResult(t, src, dest).tree, q) == Get(t, q)
  {
    if MakeDirs(t, dest).Some? {
      var t1 := MakeDirs(t, dest).value;
      MakeDirsDisjoint(t, dest, q);
      match (ListDir(t1, dest), ListDir(t1, src))
      case (Some(x), Some(es)) =>
        GetSetDisjoint(t1, dest, q, Dir(MergeAll(x, es).entries));
      case _ =>
    }
  }
}
