/**
 * Facts about the tree operations of FsTree: how lookups see updates, how
 * updates at a directory and at one of its children compose, and that every
 * update keeps entry names unique.
 */
module FsLemmas {
  import opened FsTree

  // ---------------------------------------------------------------------
  // Find

  /** Two listings with the same names, position by position, find alike. */
  lemma {:induction false} FindSameNames(a: seq<Entry>, b: seq<Entry>, name: string)
    requires |a| == |b|
    requires forall k :: 0 <= k < |a| ==> a[k].name == b[k].name
    ensures Find(a, name) == Find(b, name)
  {
    if a != [] && a[0].name != name {
      FindSameNames(a[1..], b[1..], name);
    }
  }

  lemma FindUpdate(es: seq<Entry>, i: nat, n: Node, name: string)
    requires i < |es|
    ensures Find(es[i := Entry(es[i].name, n)], name) == Find(es, name)
  {
    FindSameNames(es[i := Entry(es[i].name, n)], es, name);
  }

  lemma FindAppend(es: seq<Entry>, e: Entry, name: string)
    ensures Find(es, name) < |es| ==> Find(es + [e], name) == Find(es, name)
    ensures Find(es, name) == |es| ==>
      Find(es + [e], name) == if e.name == name then |es| else |es| + 1
  {
    var i, j := Find(es, name), Find(es + [e], name);
    if i < |es| {
      assert (es + [e])[i].name == name;
      assert j <= i;
      assert j < |es| ==> es[j].name == name;
    } else {
      if e.name == name {
        assert (es + [e])[|es|].name == name;
      }
    }
  }

  // ---------------------------------------------------------------------
  // Paths

  /** Disjoint paths differ at some position both have. */
  lemma {:induction false} DisjointWitness(p: Path, q: Path) returns (k: nat)
    requires Disjoint(p, q)
    ensures k < |p| && k < |q| && p[k] != q[k]
  {
    if p[0] != q[0] {
      k := 0;
    } else {
      assert p == [p[0]] + p[1..] && q == [q[0]] + q[1..];
      var k' := DisjointWitness(p[1..], q[1..]);
      k := k' + 1;
    }
  }

  /** Two disjoint paths stay disjoint whatever is appended to them. */
  lemma DisjointExtend(p: Path, q: Path, a: Path, b: Path)
    requires Disjoint(p, q)
    ensures Disjoint(p + a, q + b)
  {
    var k := DisjointWitness(p, q);
    assert (p + a)[k] == p[k] && (q + b)[k] == q[k];
  }

  /** Looking up `p + q` is looking up `q` in the node found at `p`. */
  lemma {:induction false} GetAppend(t: Node, p: Path, q: Path)
    ensures Get(t, p + q) == match Get(t, p) case Some(u) => Get(u, q) case None => None
  {
    if p == [] {
      assert p + q == q;
    } else {
      assert (p + q)[0] == p[0] && (p + q)[1..] == p[1..] + q;
      match t
      case Dir(es) =>
        var i := Find(es, p[0]);
        if i < |es| {
          GetAppend(es[i].node, p[1..], q);
        }
      case _ =>
    }
  }

  /** The node at `p + [name]` is the child `name` of the directory at `p`. */
  lemma GetChild(t: Node, p: Path, es: seq<Entry>, name: string)
    requires Get(t, p) == Some(Dir(es))
    ensures Get(t, p + [name]) ==
      if Find(es, name) < |es| then Some(es[Find(es, name)].node) else None
  {
    GetAppend(t, p, [name]);
  }

  // ---------------------------------------------------------------------
  // Set

  lemma SetOne(es: seq<Entry>, name: string, v: Node)
    ensures Set(Dir(es), [name], v) == Dir(SetChild(es, name, v))
  {
  }

  /** After a successful put, the new node is found at its path. */
  lemma {:induction false} GetSetSame(t: Node, p: Path, n: Node)
    requires p != [] ==> IsDirAt(t, p[..|p| - 1])
    ensures Get(Set(t, p, n), p) == Some(n)
  {
    if p != [] {
      var es := t.entries;
      var i := Find(es, p[0]);
      if i < |es| {
        GetSetSameName(es, p, p, n);
        ParentBelow(es, p);
        GetSetSame(es[i].node, p[1..], n);
      } else {
        FindAppend(es, Entry(p[0], n), p[0]);
      }
    }
  }

  /** The parent of a path, seen from the child it passes through. */
  lemma ParentBelow(es: seq<Entry>, p: Path)
    requires |p| > 0 && Find(es, p[0]) < |es|
    requires IsDirAt(Dir(es), p[..|p| - 1])
    ensures p[1..] != [] ==> IsDirAt(es[Find(es, p[0])].node, p[1..][..|p| - 2])
  {
    if |p| > 1 {
      assert p[..|p| - 1] == [p[0]] + p[1..][..|p| - 2];
    }
  }

  /** A put changes nothing at a path disjoint from its own. */
  lemma {:induction false} GetSetDisjoint(t: Node, p: Path, q: Path, n: Node)
    requires Disjoint(p, q)
    ensures Get(Set(t, p, n), q) == Get(t, q)
  {
    if t.Dir? {
      if p[0] != q[0] {
        GetSetOtherName(t.entries, p, q, n);
      } else {
        var i := Find(t.entries, p[0]);
        assert p == [p[0]] + p[1..] && q == [q[0]] + q[1..];
        if i < |t.entries| {
          GetSetDisjoint(t.entries[i].node, p[1..], q[1..], n);
          GetSetSameName(t.entries, p, q, n);
        }
      }
    }
  }

  /** A put under one name of a directory leaves the lookups under another. */
  lemma GetSetOtherName(es: seq<Entry>, p: Path, q: Path, n: Node)
    requires p != [] && q != [] && p[0] != q[0]
    ensures Get(Set(Dir(es), p, n), q) == Get(Dir(es), q)
  {
    var i := Find(es, p[0]);
    if i < |es| {
      FindUpdate(es, i, Set(es[i].node, p[1..], n), q[0]);
    } else if |p| == 1 {
      FindAppend(es, Entry(p[0], n), q[0]);
    }
  }

  /** Lookups and puts under the same existing name go one level down. */
  lemma GetSetSameName(es: seq<Entry>, p: Path, q: Path, n: Node)
    requires p != [] && q != [] && p[0] == q[0] && Find(es, p[0]) < |es|
    ensures var i := Find(es, p[0]);
      && Get(Set(Dir(es), p, n), q) == Get(Set(es[i].node, p[1..], n), q[1..])
      && Get(Dir(es), q) == Get(es[i].node, q[1..])
  {
    var i := Find(es, p[0]);
    FindUpdate(es, i, Set(es[i].node, p[1..], n), q[0]);
  }

  /** Putting back the node already at a path changes nothing. */
  lemma {:induction false} SetGet(t: Node, p: Path, n: Node)
    requires Get(t, p) == Some(n)
    ensures Set(t, p, n) == t
  {
    if p != [] {
      var es := t.entries;
      var i := Find(es, p[0]);
      SetGet(es[i].node, p[1..], n);
      assert es[i := Entry(p[0], es[i].node)] == es;
    }
  }

  /** A put below an entry of a directory that was just replaced goes into
      the replacement. */
  lemma SetAtUpdated(es: seq<Entry>, i: nat, x: Node, p: Path, v: Node)
    requires p != [] && i < |es| && Find(es, p[0]) == i
    ensures Set(Dir(es[i := Entry(p[0], x)]), p, v) == Dir(es[i := Entry(p[0], Set(x, p[1..], v))])
  {
    FindUpdate(es, i, x, p[0]);
    assert es[i := Entry(p[0], x)][i := Entry(p[0], Set(x, p[1..], v))]
        == es[i := Entry(p[0], Set(x, p[1..], v))];
  }

  /** A removal below an entry of a directory that was just replaced removes
      from the replacement. */
  lemma RemoveAtUpdated(es: seq<Entry>, i: nat, x: Node, p: Path)
    requires |p| > 1 && i < |es| && Find(es, p[0]) == i
    ensures Remove(Dir(es[i := Entry(p[0], x)]), p) == Dir(es[i := Entry(p[0], Remove(x, p[1..]))])
  {
    FindUpdate(es, i, x, p[0]);
    assert es[i := Entry(p[0], x)][i := Entry(p[0], Remove(x, p[1..]))]
        == es[i := Entry(p[0], Remove(x, p[1..]))];
  }

  /** The later of two puts at one path wins. */
  lemma {:induction false} SetSet(t: Node, p: Path, a: Node, b: Node)
    ensures Set(Set(t, p, a), p, b) == Set(t, p, b)
  {
    if p != [] && t.Dir? {
      var es := t.entries;
      var i := Find(es, p[0]);
      if i < |es| {
        SetAtUpdated(es, i, Set(es[i].node, p[1..], a), p, b);
        SetSet(es[i].node, p[1..], a, b);
      } else if |p| == 1 {
        FindAppend(es, Entry(p[0], a), p[0]);
        assert (es + [Entry(p[0], a)])[|es| := Entry(p[0], b)] == es + [Entry(p[0], b)];
      }
    }
  }

  /** A put into a child of a directory just put is a put of the updated directory. */
  lemma {:induction false} SetChildPath(t: Node, p: Path, x: seq<Entry>, name: string, v: Node)
    ensures Set(Set(t, p, Dir(x)), p + [name], v) == Set(t, p, Dir(SetChild(x, name, v)))
  {
    if p == [] {
      assert p + [name] == [name];
      SetOne(x, name, v);
    } else if t.Dir? {
      var es := t.entries;
      var i := Find(es, p[0]);
      assert (p + [name])[0] == p[0] && (p + [name])[1..] == p[1..] + [name];
      if i < |es| {
        SetAtUpdated(es, i, Set(es[i].node, p[1..], Dir(x)), p + [name], v);
        SetChildPath(es[i].node, p[1..], x, name, v);
      } else if |p| == 1 {
        SetChildAppended(es, p[0], x, name, v);
      }
    }
  }

  /** A put into a directory just appended to a listing. */
  lemma SetChildAppended(es: seq<Entry>, d: string, x: seq<Entry>, name: string, v: Node)
    requires Find(es, d) == |es|
    ensures Set(Dir(es + [Entry(d, Dir(x))]), [d, name], v) == Dir(es + [Entry(d, Dir(SetChild(x, name, v)))])
  {
    FindAppend(es, Entry(d, Dir(x)), d);
    assert [d, name][1..] == [name];
    SetOne(x, name, v);
    assert (es + [Entry(d, Dir(x))])[|es| := Entry(d, Dir(SetChild(x, name, v)))]
        == es + [Entry(d, Dir(SetChild(x, name, v)))];
  }

  /** A removal of a child of a directory just put is a put of the reduced directory. */
  lemma {:induction false} RemoveChildPath(t: Node, p: Path, x: seq<Entry>, name: string)
    ensures Remove(Set(t, p, Dir(x)), p + [name]) == Set(t, p, Dir(RemoveChild(x, name)))
  {
    if p == [] {
      assert p + [name] == [name];
    } else if t.Dir? {
      var es := t.entries;
      var i := Find(es, p[0]);
      assert (p + [name])[0] == p[0] && (p + [name])[1..] == p[1..] + [name];
      if i < |es| {
        RemoveAtUpdated(es, i, Set(es[i].node, p[1..], Dir(x)), p + [name]);
        RemoveChildPath(es[i].node, p[1..], x, name);
      } else if |p| == 1 {
        RemoveChildAppended(es, p[0], x, name);
      }
    }
  }

  /** A removal from a directory just appended to a listing. */
  lemma RemoveChildAppended(es: seq<Entry>, d: string, x: seq<Entry>, name: string)
    requires Find(es, d) == |es|
    ensures Remove(Dir(es + [Entry(d, Dir(x))]), [d, name]) == Dir(es + [Entry(d, Dir(RemoveChild(x, name)))])
  {
    FindAppend(es, Entry(d, Dir(x)), d);
    assert [d, name][1..] == [name];
    assert (es + [Entry(d, Dir(x))])[|es| := Entry(d, Dir(RemoveChild(x, name)))]
        == es + [Entry(d, Dir(RemoveChild(x, name)))];
  }

  // ---------------------------------------------------------------------
  // MakeDirs

  /** Creating one level below an existing directory. */
  lemma {:induction false} MakeDirsChild(t: Node, p: Path, x: seq<Entry>, name: string)
    requires Get(t, p) == Some(Dir(x))
    ensures MakeDirs(t, p + [name]) ==
      var i := Find(x, name);
      if i == |x| then Some(Set(t, p, Dir(x + [Entry(name, Dir([]))])))
      else if x[i].node.Dir? then Some(t)
      else None
  {
    if p == [] {
      assert p + [name] == [name];
      var i := Find(x, name);
      if i < |x| && x[i].node.Dir? {
        assert x[i := Entry(name, x[i].node)] == x;
      }
    } else {
      assert (p + [name])[0] == p[0] && (p + [name])[1..] == p[1..] + [name];
      var es := t.entries;
      var i := Find(es, p[0]);
      MakeDirsChild(es[i].node, p[1..], x, name);
      assert es[i := Entry(p[0], es[i].node)] == es;
    }
  }

  lemma {:induction false} ChainIsDir(q: Path)
    ensures IsDirAt(Chain(q), q)
  {
    if q != [] {
      ChainIsDir(q[1..]);
    }
  }

  lemma {:induction false} ChainDisjoint(p: Path, q: Path)
    requires Disjoint(p, q)
    ensures Get(Chain(p), q).None?
  {
    if p[0] == q[0] {
      assert p == [p[0]] + p[1..] && q == [q[0]] + q[1..];
      ChainDisjoint(p[1..], q[1..]);
    }
  }

  /** After a successful recursive creation, `p` is a directory. */
  lemma {:induction false} MakeDirsIsDir(t: Node, p: Path)
    requires MakeDirs(t, p).Some?
    ensures IsDirAt(MakeDirs(t, p).value, p)
  {
    if p != [] {
      var es := t.entries;
      var i := Find(es, p[0]);
      if i == |es| {
        FindAppend(es, Entry(p[0], Chain(p[1..])), p[0]);
        ChainIsDir(p[1..]);
      } else {
        var c := MakeDirs(es[i].node, p[1..]).value;
        FindUpdate(es, i, c, p[0]);
        MakeDirsIsDir(es[i].node, p[1..]);
      }
    }
  }

  /** Recursive creation changes nothing at a path disjoint from its own. */
  lemma {:induction false} MakeDirsDisjoint(t: Node, p: Path, q: Path)
    requires Disjoint(p, q)
    requires MakeDirs(t, p).Some?
    ensures Get(MakeDirs(t, p).value, q) == Get(t, q)
  {
    var es := t.entries;
    var i := Find(es, p[0]);
    if i == |es| {
      FindAppend(es, Entry(p[0], Chain(p[1..])), q[0]);
      if p[0] == q[0] {
        assert p == [p[0]] + p[1..] && q == [q[0]] + q[1..];
        ChainDisjoint(p[1..], q[1..]);
      }
    } else {
      var c := MakeDirs(es[i].node, p[1..]).value;
      FindUpdate(es, i, c, q[0]);
      if p[0] == q[0] {
        assert p == [p[0]] + p[1..] && q == [q[0]] + q[1..];
        MakeDirsDisjoint(es[i].node, p[1..], q[1..]);
      }
    }
  }

  /** Recursive creation of an existing directory changes nothing. */
  lemma {:induction false} MakeDirsExisting(t: Node, p: Path)
    requires IsDirAt(t, p)
    ensures MakeDirs(t, p) == Some(t)
  {
    if p != [] {
      var es := t.entries;
      var i := Find(es, p[0]);
      MakeDirsExisting(es[i].node, p[1..]);
      assert es[i := Entry(p[0], es[i].node)] == es;
    }
  }

  /** Recursive creation fails when the path itself exists and is not a directory. */
  lemma {:induction false} MakeDirsBlocked(t: Node, p: Path)
    requires Get(t, p).Some? && !Get(t, p).value.Dir?
    ensures MakeDirs(t, p).None?
  {
    if p != [] && t.Dir? {
      MakeDirsBlocked(t.entries[Find(t.entries, p[0])].node, p[1..]);
    }
  }

  // ---------------------------------------------------------------------
  // Unique names

  lemma DistinctUpdate(es: seq<Entry>, i: nat, n: Node)
    requires Distinct(es) && i < |es|
    ensures Distinct(es[i := Entry(es[i].name, n)])
  {
  }

  lemma DistinctAppend(es: seq<Entry>, e: Entry)
    requires Distinct(es) && Find(es, e.name) == |es|
    ensures Distinct(es + [e])
  {
  }

  lemma DistinctSetChild(es: seq<Entry>, name: string, n: Node)
    requires Distinct(es)
    ensures Distinct(SetChild(es, name, n))
  {
  }

  lemma {:induction false} WFChain(p: Path)
    ensures WF(Chain(p))
  {
    if p != [] {
      WFChain(p[1..]);
    }
  }

  /** Replacing the node of one entry by a well-formed node keeps a
      directory well-formed. */
  lemma WFReplace(es: seq<Entry>, i: nat, x: Node)
    requires WF(Dir(es)) && WF(x) && i < |es|
    ensures WF(Dir(es[i := Entry(es[i].name, x)]))
  {
    var es' := es[i := Entry(es[i].name, x)];
    assert forall k :: 0 <= k < |es'| ==> es'[k].name == es[k].name;
    assert forall k :: 0 <= k < |es'| ==> WF(es'[k].node);
  }

  /** Appending a well-formed entry under a new name keeps a directory well-formed. */
  lemma WFAppend(es: seq<Entry>, e: Entry)
    requires WF(Dir(es)) && WF(e.node) && Find(es, e.name) == |es|
    ensures WF(Dir(es + [e]))
  {
    var es' := es + [e];
    assert forall k :: 0 <= k < |es'| ==> WF(es'[k].node);
  }

  /** Dropping one entry keeps a directory well-formed. */
  lemma WFDrop(es: seq<Entry>, i: nat)
    requires WF(Dir(es)) && i < |es|
    ensures WF(Dir(es[..i] + es[i + 1..]))
  {
    var es' := es[..i] + es[i + 1..];
    assert forall k :: 0 <= k < |es'| ==> es'[k] == es[if k < i then k else k + 1];
  }

  lemma {:induction false} WFSet(t: Node, p: Path, n: Node)
    requires WF(t) && WF(n)
    ensures WF(Set(t, p, n))
  {
    if p != [] && t.Dir? {
      var es := t.entries;
      var i := Find(es, p[0]);
      if i < |es| {
        WFSet(es[i].node, p[1..], n);
        WFReplace(es, i, Set(es[i].node, p[1..], n));
      } else if |p| == 1 {
        WFAppend(es, Entry(p[0], n));
      }
    }
  }

  lemma {:induction false} WFRemove(t: Node, p: Path)
    requires WF(t)
    ensures WF(Remove(t, p))
  {
    if p != [] && t.Dir? {
      var es := t.entries;
      var i := Find(es, p[0]);
      if i < |es| {
        if |p| == 1 {
          WFDrop(es, i);
        } else {
          WFRemove(es[i].node, p[1..]);
          WFReplace(es, i, Remove(es[i].node, p[1..]));
        }
      }
    }
  }

  lemma {:induction false} WFMakeDirs(t: Node, p: Path)
    requires WF(t) && MakeDirs(t, p).Some?
    ensures WF(MakeDirs(t, p).value)
  {
    if p != [] {
      var es := t.entries;
      var i := Find(es, p[0]);
      if i == |es| {
        WFChain(p[1..]);
        WFAppend(es, Entry(p[0], Chain(p[1..])));
      } else {
        WFMakeDirs(es[i].node, p[1..]);
        WFReplace(es, i, MakeDirs(es[i].node, p[1..]).value);
      }
    }
  }

  // ---------------------------------------------------------------------
  // Lookups in well-formed trees

  /** Only a directory has children. */
  lemma ParentIsDir(t: Node, p: Path)
    requires p != [] && Get(t, p).Some?
    ensures IsDirAt(t, p[..|p| - 1])
  {
    var q := p[..|p| - 1];
    assert p == q + [p[|p| - 1]];
    GetAppend(t, q, [p[|p| - 1]]);
  }

  /** A put at an existing path is found there. */
  lemma GetSetExisting(t: Node, p: Path, n: Node)
    requires Get(t, p).Some?
    ensures Get(Set(t, p, n), p) == Some(n)
  {
    if p != [] {
      ParentIsDir(t, p);
    }
    GetSetSame(t, p, n);
  }

  lemma FindDistinct(es: seq<Entry>, i: nat)
    requires Distinct(es) && i < |es|
    ensures Find(es, es[i].name) == i
  {
  }

  /** The first entry of `b` is found after every entry of `a` when no entry of `a` has its name. */
  lemma FindAfter(a: seq<Entry>, b: seq<Entry>, name: string)
    requires forall e :: e in a ==> e.name != name
    requires b != [] && b[0].name == name
    ensures Find(a + b, name) == |a|
  {
    var j := Find(a + b, name);
    assert (a + b)[|a|] == b[0];
  }

  lemma {:induction false} WFGet(t: Node, p: Path)
    requires WF(t) && Get(t, p).Some?
    ensures WF(Get(t, p).value)
  {
    if p != [] {
      var es := t.entries;
      WFGet(es[Find(es, p[0])].node, p[1..]);
    }
  }

  /** Two different paths that both name regular files are disjoint. */
  lemma FilesDisjoint(t: Node, p: Path, q: Path)
    requires Get(t, p).Some? && Get(t, p).value.File?
    requires Get(t, q).Some? && Get(t, q).value.File?
    requires p != q
    ensures Disjoint(p, q)
  {
    if p <= q {
      assert q == p + q[|p|..];
      GetAppend(t, p, q[|p|..]);
    }
    if q <= p {
      assert p == q + p[|q|..];
      GetAppend(t, q, p[|q|..]);
    }
  }

  /** Creating a missing directory leaves an empty one. */
  lemma {:induction false} ChainEmpty(q: Path)
    ensures Get(Chain(q), q) == Some(Dir([]))
  {
    if q != [] {
      ChainEmpty(q[1..]);
    }
  }

  lemma {:induction false} MakeDirsFresh(t: Node, p: Path)
    requires Get(t, p).None? && MakeDirs(t, p).Some?
    ensures Get(MakeDirs(t, p).value, p) == Some(Dir([]))
  {
    var es := t.entries;
    var i := Find(es, p[0]);
    if i == |es| {
      FindAppend(es, Entry(p[0], Chain(p[1..])), p[0]);
      ChainEmpty(p[1..]);
    } else {
      var c := MakeDirs(es[i].node, p[1..]).value;
      FindUpdate(es, i, c, p[0]);
      MakeDirsFresh(es[i].node, p[1..]);
    }
  }

  // ---------------------------------------------------------------------
  // Other-kind entries and the file-and-directory skeleton

  lemma {:induction false} KeepOthersAppend(a: seq<Entry>, b: seq<Entry>)
    ensures KeepOthers(a + b) == KeepOthers(a) + KeepOthers(b)
  {
    if a == [] {
      assert a + b == b;
    } else {
      assert (a + b)[0] == a[0] && (a + b)[1..] == a[1..] + b;
      KeepOthersAppend(a[1..], b);
      var head := if a[0].node.Other? then [a[0]] else [];
      calc {
        KeepOthers(a + b);
        head + KeepOthers(a[1..] + b);
        head + (KeepOthers(a[1..]) + KeepOthers(b));
        (head + KeepOthers(a[1..])) + KeepOthers(b);
      }
    }
  }

  lemma {:induction false} KeepOthersIdempotent(es: seq<Entry>)
    ensures KeepOthers(KeepOthers(es)) == KeepOthers(es)
  {
    if es != [] {
      var head := if es[0].node.Other? then [es[0]] else [];
      KeepOthersAppend(head, KeepOthers(es[1..]));
      KeepOthersIdempotent(es[1..]);
    }
  }

  lemma {:induction false} DistinctKeepOthers(es: seq<Entry>)
    requires Distinct(es)
    ensures Distinct(KeepOthers(es))
  {
    if es != [] {
      DistinctKeepOthers(es[1..]);
      var rest := KeepOthers(es[1..]);
      KeepOthersMembers(es[1..]);
      if es[0].node.Other? {
        forall k | 0 <= k < |rest|
          ensures rest[k].name != es[0].name
        {
          assert rest[k] in es[1..];
        }
      }
    }
  }

  /** Exactly the other-kind entries survive, and nothing else. */
  lemma {:induction false} KeepOthersMembers(es: seq<Entry>)
    ensures forall e :: e in KeepOthers(es) <==> e in es && e.node.Other?
  {
    if es != [] {
      KeepOthersMembers(es[1..]);
      assert es == [es[0]] + es[1..];
    }
  }

  lemma {:induction false} PruneAppend(a: seq<Entry>, b: seq<Entry>)
    ensures Prune(a + b) == Prune(a) + Prune(b)
  {
    if a == [] {
      assert a + b == b;
    } else {
      assert (a + b)[0] == a[0] && (a + b)[1..] == a[1..] + b;
      PruneAppend(a[1..], b);
    }
  }

  lemma {:induction false} PruneKeepOthers(es: seq<Entry>)
    ensures Prune(KeepOthers(es)) == []
  {
    if es != [] {
      var head := if es[0].node.Other? then [es[0]] else [];
      PruneAppend(head, KeepOthers(es[1..]));
      PruneKeepOthers(es[1..]);
    }
  }

  /** The skeleton of a skeleton is itself. */
  lemma {:induction false} PruneIdempotent(es: seq<Entry>)
    ensures Prune(Prune(es)) == Prune(es)
    decreases Size(es)
  {
    if es != [] {
      var rest := Prune(es[1..]);
      PruneIdempotent(es[1..]);
      match es[0].node
      case Other =>
      case File(_) =>
        PruneAppend([es[0]], rest);
      case Dir(sub) =>
        PruneIdempotent(sub);
        PruneAppend([Entry(es[0].name, Dir(Prune(sub)))], rest);
    }
  }

  // ---------------------------------------------------------------------
  // Sizes

  /** A subdirectory is smaller than the listing holding it. */
  lemma {:induction false} SizeChild(es: seq<Entry>, i: nat)
    requires i < |es| && es[i].node.Dir?
    ensures Size(es[i].node.entries) < Size(es)
  {
    if i > 0 {
      SizeChild(es[1..], i - 1);
    }
  }
}
