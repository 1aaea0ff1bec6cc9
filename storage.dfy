/**
 * The storage layer the pipeline calls into, as an in-memory filesystem
 * object: every call reads the tree or replaces it with an updated tree.
 * Failures are reported through the returned flag or Option and leave the
 * tree as it was.
 */
module Storage {
  import opened FsTree
  import opened FsLemmas

  class FileSystem {
    var root: Node

    /** The root is a directory and every directory has unique entry names. */
    ghost predicate Valid()
      reads this
    {
      root.Dir? && WF(root)
    }

    constructor (t: Node)
      requires t.Dir? && WF(t)
      ensures Valid() && root == t
    {
      root := t;
    }

    /** `readdir`: the entries of a directory, in listing order, with their kinds. */
    method ReadDir(p: Path) returns (r: Option<seq<Entry>>)
      ensures r == ListDir(root, p)
    {
      r := ListDir(root, p);
    }

    /** `readFile`: the whole contents of a regular file. */
    method ReadFile(p: Path) returns (r: Option<string>)
      ensures r == ReadAt(root, p)
    {
      r := ReadAt(root, p);
    }

    /** `writeFile` / opening a write stream: creates or truncates a regular file. */
    method WriteFile(p: Path, data: string) returns (ok: bool)
      requires Valid()
      modifies this
      ensures Valid()
      ensures ok == CanWrite(old(root), p)
      ensures root == if ok then Set(old(root), p, File(data)) else old(root)
    {
      ok := CanWrite(root, p);
      if ok {
        WFSet(root, p, File(data));
        root := Set(root, p, File(data));
      }
    }

    /** Appending to an open regular file. */
    method AppendFile(p: Path, data: string) returns (ok: bool)
      requires Valid()
      modifies this
      ensures Valid()
      ensures ok == ReadAt(old(root), p).Some?
      ensures root == if ok then Set(old(root), p, File(ReadAt(old(root), p).value + data))
                      else old(root)
    {
      var current := ReadAt(root, p);
      ok := current.Some?;
      if ok {
        WFSet(root, p, File(current.value + data));
        root := Set(root, p, File(current.value + data));
      }
    }

    /** `mkdir(p, { recursive: true })`. */
    method MakeDir(p: Path) returns (ok: bool)
      requires Valid()
      modifies this
      ensures Valid()
      ensures ok == MakeDirs(old(root), p).Some?
      ensures root == if ok then MakeDirs(old(root), p).value else old(root)
    {
      var r := MakeDirs(root, p);
      ok := r.Some?;
      if ok {
        WFMakeDirs(root, p);
        root := r.value;
      }
    }

    /** `unlink`: removes a regular file. */
    method Unlink(p: Path) returns (ok: bool)
      requires Valid()
      modifies this
      ensures Valid()
      ensures ok == (p != [] && ReadAt(old(root), p).Some?)
      ensures root == if ok then Remove(old(root), p) else old(root)
    {
      ok := p != [] && ReadAt(root, p).Some?;
      if ok {
        WFRemove(root, p);
        root := Remove(root, p);
      }
    }

    /** `rm(p, { recursive: true })` on a directory: removes it with everything below it. */
    method RemoveTree(p: Path) returns (ok: bool)
      requires Valid()
      modifies this
      ensures Valid()
      ensures ok == (p != [] && IsDirAt(old(root), p))
      ensures root == if ok then Remove(old(root), p) else old(root)
    {
      ok := p != [] && IsDirAt(root, p);
      if ok {
        WFRemove(root, p);
        root := Remove(root, p);
      }
    }
  }
}
