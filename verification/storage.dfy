/**
 * An abstract local filesystem: a map from path to node, plus the trace of
 * every primitive called on it. The primitives stand for the `os` calls the
 * request handlers make; each one's effect on the map is a pure function
 * below, so that callers can state what a sequence of calls did.
 */
module Storage {
  import opened Wrappers
  import opened Bytes
  import Paths

  datatype Node = File(data: seq<byte>) | Directory | Symlink(target: string)

  datatype FsError = NotExist | Exist | NotDir | IsDir | NotEmpty | Invalid

  /** One primitive call, with the path(s) it was given. */
  datatype FsCall =
    | OpenCall(path: string)
    | MkdirAllCall(path: string)
    | CreateCall(path: string)
    | RemoveCall(path: string)
    | RenameCall(from: string, to: string)
    | MkdirCall(path: string)
    | StatCall(path: string)
    | LstatCall(path: string)
    | ReadlinkCall(path: string)
    | ReaddirCall(path: string)

  /** An open file, identified by the path it was opened at. */
  datatype Handle = Handle(path: string)

  datatype FileInfo = FileInfo(name: string, isDir: bool)

  type Nodes = map<string, Node>

  function IsDirectory(nodes: Nodes, path: string): bool {
    path in nodes && nodes[path].Directory?
  }

  /** The paths whose parent is `dir`. */
  function ChildrenOf(nodes: Nodes, dir: string): set<string> {
    set q | q in nodes && q != dir && Paths.Dir(q) == dir
  }

  function Info(nodes: Nodes, path: string): FileInfo
    requires path in nodes
  {
    FileInfo(Paths.LastElement(path), nodes[path].Directory?)
  }

  /** `entries` describes every child of `dir` exactly once, in some order. */
  ghost predicate ListsChildren(nodes: Nodes, dir: string, entries: seq<FileInfo>) {
    exists order: seq<string> ::
      && |order| == |entries|
      && (forall i, j :: 0 <= i < j < |order| ==> order[i] != order[j])
      && (forall q :: q in order <==> q in ChildrenOf(nodes, dir))
      && (forall i :: 0 <= i < |order| ==> order[i] in nodes && entries[i] == Info(nodes, order[i]))
  }

  lemma ListsChildrenBy(nodes: Nodes, dir: string, entries: seq<FileInfo>, order: seq<string>)
    requires |order| == |entries|
    requires forall i, j :: 0 <= i < j < |order| ==> order[i] != order[j]
    requires forall q :: q in order <==> q in ChildrenOf(nodes, dir)
    requires forall i :: 0 <= i < |order| ==> order[i] in nodes && entries[i] == Info(nodes, order[i])
    ensures ListsChildren(nodes, dir, entries)
  {
  }

  /** One entry per path of `paths`, each path once, in the order `:|` picks them. */
  method Describe(nodes: Nodes, paths: set<string>) returns (entries: seq<FileInfo>, ghost order: seq<string>)
    requires paths <= nodes.Keys
    ensures |order| == |entries|
    ensures forall i, j :: 0 <= i < j < |order| ==> order[i] != order[j]
    ensures forall q :: q in order <==> q in paths
    ensures forall i :: 0 <= i < |order| ==> order[i] in nodes && entries[i] == Info(nodes, order[i])
  {
    var pending := paths;
    entries, order := [], [];
    while pending != {}
      invariant pending <= paths
      invariant |order| == |entries|
      invariant forall i, j :: 0 <= i < j < |order| ==> order[i] != order[j]
      invariant forall q :: q in order <==> q in paths && q !in pending
      invariant forall i :: 0 <= i < |order| ==> order[i] in nodes && entries[i] == Info(nodes, order[i])
      decreases pending
    {
      var q :| q in pending;
      entries := entries + [Info(nodes, q)];
      order := order + [q];
      pending := pending - {q};
    }
  }

  /** The path itself and every directory above it, as MkdirAll visits them. */
  function Ancestors(path: string): set<string> {
    var p := Paths.CleanPath(path);
    set i | 0 <= i <= |p.segs| :: Paths.Render(Paths.Path(p.rooted, p.segs[..i]))
  }

  function MkdirAllEffect(nodes: Nodes, path: string): (Nodes, Option<FsError>) {
    if exists a :: a in Ancestors(path) && a in nodes && !nodes[a].Directory? then (nodes, Some(NotDir))
    else (nodes + map a | a in Ancestors(path) && a !in nodes :: Directory, None)
  }

  function CreateEffect(nodes: Nodes, path: string): (Nodes, Option<FsError>) {
    if IsDirectory(nodes, path) then (nodes, Some(IsDir))
    else if !IsDirectory(nodes, Paths.Dir(path)) then (nodes, Some(NotExist))
    else (nodes[path := File([])], None)
  }

  function RemoveEffect(nodes: Nodes, path: string): (Nodes, Option<FsError>) {
    if path !in nodes then (nodes, Some(NotExist))
    else if nodes[path].Directory? && ChildrenOf(nodes, path) != {} then (nodes, Some(NotEmpty))
    else (nodes - {path}, None)
  }

  function RenameEffect(nodes: Nodes, from: string, to: string): (Nodes, Option<FsError>) {
    if from !in nodes then (nodes, Some(NotExist))
    else if !IsDirectory(nodes, Paths.Dir(to)) then (nodes, Some(NotExist))
    else if IsDirectory(nodes, to) then (nodes, Some(Exist))
    else ((nodes - {from})[to := nodes[from]], None)
  }

  function MkdirEffect(nodes: Nodes, path: string): (Nodes, Option<FsError>) {
    if path in nodes then (nodes, Some(Exist))
    else if !IsDirectory(nodes, Paths.Dir(path)) then (nodes, Some(NotExist))
    else (nodes[path := Directory], None)
  }

  function ReadlinkEffect(nodes: Nodes, path: string): Option<FsError> {
    if path !in nodes then Some(NotExist)
    else if !nodes[path].Symlink? then Some(Invalid)
    else None
  }

  class FileSystem {
    var nodes: Nodes
    var calls: seq<FsCall>

    constructor (initial: Nodes)
      ensures nodes == initial && calls == []
    {
      nodes, calls := initial, [];
    }

    method Open(path: string) returns (r: Result<Handle, FsError>)
      modifies this`calls
      ensures calls == old(calls) + [OpenCall(path)]
      ensures r == if path in nodes then Success(Handle(path)) else Failure(NotExist)
    {
      calls := calls + [OpenCall(path)];
      r := if path in nodes then Success(Handle(path)) else Failure(NotExist);
    }

    method MkdirAll(path: string) returns (err: Option<FsError>)
      modifies this
      ensures calls == old(calls) + [MkdirAllCall(path)]
      ensures (nodes, err) == MkdirAllEffect(old(nodes), path)
    {
      calls := calls + [MkdirAllCall(path)];
      nodes, err := MkdirAllEffect(nodes, path).0, MkdirAllEffect(nodes, path).1;
    }

    method Create(path: string) returns (r: Result<Handle, FsError>)
      modifies this
      ensures calls == old(calls) + [CreateCall(path)]
      ensures nodes == CreateEffect(old(nodes), path).0
      ensures r == match CreateEffect(old(nodes), path).1
        case None => Success(Handle(path))
        case Some(e) => Failure(e)
    {
      calls := calls + [CreateCall(path)];
      var (n, e) := CreateEffect(nodes, path);
      nodes := n;
      r := if e.None? then Success(Handle(path)) else Failure(e.value);
    }

    method Remove(path: string) returns (err: Option<FsError>)
      modifies this
      ensures calls == old(calls) + [RemoveCall(path)]
      ensures (nodes, err) == RemoveEffect(old(nodes), path)
    {
      calls := calls + [RemoveCall(path)];
      nodes, err := RemoveEffect(nodes, path).0, RemoveEffect(nodes, path).1;
    }

    method Rename(from: string, to: string) returns (err: Option<FsError>)
      modifies this
      ensures calls == old(calls) + [RenameCall(from, to)]
      ensures (nodes, err) == RenameEffect(old(nodes), from, to)
    {
      calls := calls + [RenameCall(from, to)];
      nodes, err := RenameEffect(nodes, from, to).0, RenameEffect(nodes, from, to).1;
    }

    method Mkdir(path: string) returns (err: Option<FsError>)
      modifies this
      ensures calls == old(calls) + [MkdirCall(path)]
      ensures (nodes, err) == MkdirEffect(old(nodes), path)
    {
      calls := calls + [MkdirCall(path)];
      nodes, err := MkdirEffect(nodes, path).0, MkdirEffect(nodes, path).1;
    }

    /** Symbolic links are not followed: Stat and Lstat agree in this model. */
    method Stat(path: string) returns (err: Option<FsError>)
      modifies this`calls
      ensures calls == old(calls) + [StatCall(path)]
      ensures err == if path in nodes then None else Some(NotExist)
    {
      calls := calls + [StatCall(path)];
      err := if path in nodes then None else Some(NotExist);
    }

    method Lstat(path: string) returns (err: Option<FsError>)
      modifies this`calls
      ensures calls == old(calls) + [LstatCall(path)]
      ensures err == if path in nodes then None else Some(NotExist)
    {
      calls := calls + [LstatCall(path)];
      err := if path in nodes then None else Some(NotExist);
    }

    method Readlink(path: string) returns (err: Option<FsError>)
      modifies this`calls
      ensures calls == old(calls) + [ReadlinkCall(path)]
      ensures err == ReadlinkEffect(nodes, path)
    {
      calls := calls + [ReadlinkCall(path)];
      err := ReadlinkEffect(nodes, path);
    }

    /** `Readdir(-1)`: every entry of a directory, in an order the model leaves open. */
    method Readdir(path: string) returns (r: Result<seq<FileInfo>, FsError>)
      modifies this`calls
      ensures calls == old(calls) + [ReaddirCall(path)]
      ensures path !in nodes ==> r == Failure(NotExist)
      ensures path in nodes && !nodes[path].Directory? ==> r == Failure(NotDir)
      ensures r.Success? <==> IsDirectory(nodes, path)
      ensures r.Success? ==> ListsChildren(nodes, path, r.value)
    {
      calls := calls + [ReaddirCall(path)];
      if path !in nodes {
        return Failure(NotExist);
      }
      if !nodes[path].Directory? {
        return Failure(NotDir);
      }
      var entries, order := Describe(nodes, ChildrenOf(nodes, path));
      ListsChildrenBy(nodes, path, entries, order);
      return Success(entries);
    }
  }
}
