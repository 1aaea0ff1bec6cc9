/**
 * The filesystem seen by the build pipeline, as an abstract tree.
 *
 * A node is a regular file (its contents), a directory (its entries, in the
 * order a directory listing reports them) or an entry of another kind
 * (symbolic link, device, socket ...), which the pipeline never follows.
 * Paths are sequences of names from the root of the tree.
 */
module FsTree {

  datatype Option<T> = None | Some(value: T)

  /** The tree an operation leaves behind, and whether it completed without error. */
  datatype Outcome = Outcome(tree: Node, ok: bool)

  datatype Node = File(data: string) | Dir(entries: seq<Entry>) | Other

  datatype Entry = Entry(name: string, node: Node)

  type Path = seq<string>

  /** Neither path lies inside (or is) the other. */
  predicate Disjoint(p: Path, q: Path)
  {
    !(p <= q) && !(q <= p)
  }

  /** Index of the first entry called `name`; `|es|` when there is none. */
  function Find(es: seq<Entry>, name: string): (i: nat)
    ensures i <= |es|
    ensures i < |es| ==> es[i].name == name
    ensures forall j :: 0 <= j < i ==> es[j].name != name
  {
    if es == [] then 0
    else if es[0].name == name then 0
    else 1 + Find(es[1..], name)
  }

  /** Entry names are unique within one directory listing. */
  predicate Distinct(es: seq<Entry>)
  {
    forall i, j :: 0 <= i < j < |es| ==> es[i].name != es[j].name
  }

  /** Every directory of the tree has unique entry names. */
  predicate WF(n: Node)
  {
    match n
    case Dir(es) => Distinct(es) && forall i :: 0 <= i < |es| ==> WF(es[i].node)
    case _ => true
  }

  /** The node at path `p`, if there is one. */
  function Get(t: Node, p: Path): Option<Node>
  {
    if p == [] then Some(t)
    else match t
      case Dir(es) =>
        var i := Find(es, p[0]);
        if i < |es| then Get(es[i].node, p[1..]) else None
      case _ => None
  }

  /** The listing of the directory at `p`; None when `p` is missing or not a directory. */
  function ListDir(t: Node, p: Path): Option<seq<Entry>>
  {
    match Get(t, p)
    case Some(Dir(es)) => Some(es)
    case _ => None
  }

  /** The contents of the regular file at `p`; None when `p` is missing or not a file. */
  function ReadAt(t: Node, p: Path): Option<string>
  {
    match Get(t, p)
    case Some(File(d)) => Some(d)
    case _ => None
  }

  predicate IsDirAt(t: Node, p: Path)
  {
    Get(t, p).Some? && Get(t, p).value.Dir?
  }

  /** A file can be created or truncated at `p`: its parent is a directory and
      `p` is absent or already a regular file. */
  predicate CanWrite(t: Node, p: Path)
  {
    p != [] && IsDirAt(t, p[..|p| - 1]) &&
    (Get(t, p).None? || Get(t, p).value.File?)
  }

  /** Replaces the entry called `name`, or appends one when there is none. */
  function SetChild(es: seq<Entry>, name: string, n: Node): seq<Entry>
  {
    var i := Find(es, name);
    if i < |es| then es[i := Entry(name, n)] else es + [Entry(name, n)]
  }

  /** Drops the entry called `name`, if there is one. */
  function RemoveChild(es: seq<Entry>, name: string): seq<Entry>
  {
    var i := Find(es, name);
    if i < |es| then es[..i] + es[i + 1..] else es
  }

  /** Puts `n` at path `p`. Nothing changes when the parent of `p` is not a directory. */
  function Set(t: Node, p: Path, n: Node): Node
  {
    if p == [] then n
    else match t
      case Dir(es) =>
        var i := Find(es, p[0]);
        if i < |es| then Dir(es[i := Entry(p[0], Set(es[i].node, p[1..], n))])
        else if |p| == 1 then Dir(es + [Entry(p[0], n)])
        else t
      case _ => t
  }

  /** Removes the entry at path `p` (and the subtree below it), if there is one. */
  function Remove(t: Node, p: Path): Node
  {
    if p == [] then t
    else match t
      case Dir(es) =>
        var i := Find(es, p[0]);
        if i == |es| then t
        else if |p| == 1 then Dir(es[..i] + es[i + 1..])
        else Dir(es[i := Entry(p[0], Remove(es[i].node, p[1..]))])
      case _ => t
  }

  /** A chain of fresh, otherwise empty directories along `p`. */
  function Chain(p: Path): Node
  {
    if p == [] then Dir([]) else Dir([Entry(p[0], Chain(p[1..]))])
  }

  /** Recursive directory creation: every missing directory along `p` is
      created; it fails, creating nothing, when some node along `p` exists and
      is not a directory. */
  function MakeDirs(t: Node, p: Path): Option<Node>
  {
    match t
    case Dir(es) =>
      if p == [] then Some(t)
      else
        var i := Find(es, p[0]);
        if i == |es| then Some(Dir(es + [Entry(p[0], Chain(p[1..]))]))
        else (match MakeDirs(es[i].node, p[1..])
          case None => None
          case Some(c) => Some(Dir(es[i := Entry(p[0], c)])))
    case _ => None
  }

  /** The entries a clear leaves behind: those of other kinds, in order. */
  function KeepOthers(es: seq<Entry>): seq<Entry>
  {
    if es == [] then []
    else (if es[0].node.Other? then [es[0]] else []) + KeepOthers(es[1..])
  }

  /** The file-and-directory skeleton of a listing: other-kind entries are
      dropped at every depth, files and directories kept in order. */
  function Prune(es: seq<Entry>): seq<Entry>
  {
    if es == [] then []
    else match es[0].node
      case Other => Prune(es[1..])
      case File(_) => [es[0]] + Prune(es[1..])
      case Dir(sub) => [Entry(es[0].name, Dir(Prune(sub)))] + Prune(es[1..])
  }

  /** Number of entries at every depth; a measure for recursion over a tree. */
  function Size(es: seq<Entry>): nat
  {
    if es == [] then 0
    else 1 + (match es[0].node case Dir(sub) => Size(sub) case _ => 0) + Size(es[1..])
  }

  /** Size of the directory at `p`, 0 when there is none. */
  function SizeAt(t: Node, p: Path): nat
  {
    match Get(t, p)
    case Some(Dir(es)) => 1 + Size(es)
    case _ => 0
  }
}
