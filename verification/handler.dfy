/**
 * The SFTP request handler: one object per session holding the user's
 * configuration, the user's root directory and four permission flags. Every
 * request is first checked against the flag for its kind, and only then
 * turned into filesystem calls on the path joined onto the root.
 */
module Handler {
  import opened Wrappers
  import opened SftpConfig
  import opened Storage
  import Paths

  /** The fields of an SFTP request the handler looks at. */
  datatype Request = Request(op: string, filepath: string, target: string)

  datatype SftpError =
    | ErrPermission            // os.ErrPermission
    | ErrOpUnsupported         // SSH_FX_OP_UNSUPPORTED
    | StorageFailed(cause: FsError)

  datatype IoError = EOF

  function Lift(e: Option<FsError>): Outcome<SftpError> {
    match e
    case None => Pass
    case Some(cause) => Fail(StorageFailed(cause))
  }

  /** The methods Filecmd carries out; any other is unsupported. */
  const CmdMethods: set<string> := {"Remove", "Rename", "Mkdir", "Stat", "Lstat", "Readlink"}

  class PermissionHandler {
    const userConfig: Option<UserConfig>
    const rootPath: string
    const readPerm: bool
    const writePerm: bool
    const cmdPerm: bool
    const listPerm: bool

    constructor (userConfig: Option<UserConfig>, rootPath: string,
                 readPerm: bool, writePerm: bool, cmdPerm: bool, listPerm: bool)
      ensures this.userConfig == userConfig && this.rootPath == rootPath
      ensures this.readPerm == readPerm && this.writePerm == writePerm
      ensures this.cmdPerm == cmdPerm && this.listPerm == listPerm
    {
      this.userConfig := userConfig;
      this.rootPath := rootPath;
      this.readPerm := readPerm;
      this.writePerm := writePerm;
      this.cmdPerm := cmdPerm;
      this.listPerm := listPerm;
    }

    /**
     * Allows the request only for a configured user, only when the joined
     * path can be expressed relative to the root, and only when the flag is
     * set. The relative path is computed but never inspected.
     */
    function CheckPermission(path: string, hasPermission: bool): (r: Outcome<SftpError>)
      ensures r.Fail? ==> r.error == ErrPermission
      ensures userConfig.None? ==> r.Fail?
      ensures userConfig.Some? ==>
        (r.Pass? <==> hasPermission && Paths.Rel(rootPath, Paths.Join(rootPath, path)).Success?)
    {
      if userConfig.None? then Fail(ErrPermission)
      else
        var absPath := Paths.Join(rootPath, path);
        match Paths.Rel(rootPath, absPath)
        case Failure(_) => Fail(ErrPermission)
        case Success(_) => if !hasPermission then Fail(ErrPermission) else Pass
    }

    function FullPath(path: string): string {
      Paths.Join(rootPath, path)
    }

    method Fileread(fs: FileSystem, r: Request) returns (res: Result<Handle, SftpError>)
      modifies fs
      ensures CheckPermission(r.filepath, readPerm).Fail? ==>
        res == Failure(ErrPermission) && unchanged(fs)
      ensures CheckPermission(r.filepath, readPerm).Pass? ==>
        var p := FullPath(r.filepath);
        && fs.calls == old(fs.calls) + [OpenCall(p)]
        && fs.nodes == old(fs.nodes)
        && res == if p in fs.nodes then Success(Handle(p)) else Failure(StorageFailed(NotExist))
    {
      var check := CheckPermission(r.filepath, readPerm);
      if check.Fail? {
        return Failure(check.error);
      }
      var f := fs.Open(FullPath(r.filepath));
      res := if f.Success? then Success(f.value) else Failure(StorageFailed(f.error));
    }

    /** Creates the parent directories, then creates (or truncates) the file. */
    method Filewrite(fs: FileSystem, r: Request) returns (res: Result<Handle, SftpError>)
      modifies fs
      ensures CheckPermission(r.filepath, writePerm).Fail? ==>
        res == Failure(ErrPermission) && unchanged(fs)
      ensures CheckPermission(r.filepath, writePerm).Pass? ==>
        var full := FullPath(r.filepath);
        var (dirs, mkErr) := MkdirAllEffect(old(fs.nodes), Paths.Dir(full));
        && (mkErr.Some? ==>
              && fs.calls == old(fs.calls) + [MkdirAllCall(Paths.Dir(full))]
              && fs.nodes == dirs
              && res == Failure(StorageFailed(mkErr.value)))
        && (mkErr.None? ==>
              && fs.calls == old(fs.calls) + [MkdirAllCall(Paths.Dir(full)), CreateCall(full)]
              && fs.nodes == CreateEffect(dirs, full).0
              && res == match CreateEffect(dirs, full).1
                 case None => Success(Handle(full))
                 case Some(e) => Failure(StorageFailed(e)))
    {
      var check := CheckPermission(r.filepath, writePerm);
      if check.Fail? {
        return Failure(check.error);
      }
      var fullPath := FullPath(r.filepath);
      var mkErr := fs.MkdirAll(Paths.Dir(fullPath));
      if mkErr.Some? {
        return Failure(StorageFailed(mkErr.value));
      }
      var created := fs.Create(fullPath);
      res := if created.Success? then Success(created.value) else Failure(StorageFailed(created.error));
    }

    /**
     * Carries out one of six methods on the joined path. A Rename's target
     * is joined onto the root as well, but is not itself checked.
     */
    method Filecmd(fs: FileSystem, r: Request) returns (err: Outcome<SftpError>)
      modifies fs
      ensures CheckPermission(r.filepath, cmdPerm).Fail? ==>
        err == Fail(ErrPermission) && unchanged(fs)
      ensures CheckPermission(r.filepath, cmdPerm).Pass? && r.op !in CmdMethods ==>
        err == Fail(ErrOpUnsupported) && unchanged(fs)
      ensures CheckPermission(r.filepath, cmdPerm).Pass? ==>
        var p := FullPath(r.filepath);
        var n := old(fs.nodes);
        && (r.op == "Remove" ==>
              fs.calls == old(fs.calls) + [RemoveCall(p)]
              && fs.nodes == RemoveEffect(n, p).0 && err == Lift(RemoveEffect(n, p).1))
        && (r.op == "Rename" ==>
              var t := FullPath(r.target);
              fs.calls == old(fs.calls) + [RenameCall(p, t)]
              && fs.nodes == RenameEffect(n, p, t).0 && err == Lift(RenameEffect(n, p, t).1))
        && (r.op == "Mkdir" ==>
              fs.calls == old(fs.calls) + [MkdirCall(p)]
              && fs.nodes == MkdirEffect(n, p).0 && err == Lift(MkdirEffect(n, p).1))
        && (r.op == "Stat" ==>
              fs.calls == old(fs.calls) + [StatCall(p)]
              && fs.nodes == n && err == (if p in n then Pass else Fail(StorageFailed(NotExist))))
        && (r.op == "Lstat" ==>
              fs.calls == old(fs.calls) + [LstatCall(p)]
              && fs.nodes == n && err == (if p in n then Pass else Fail(StorageFailed(NotExist))))
        && (r.op == "Readlink" ==>
              fs.calls == old(fs.calls) + [ReadlinkCall(p)]
              && fs.nodes == n && err == Lift(ReadlinkEffect(n, p)))
    {
      var check := CheckPermission(r.filepath, cmdPerm);
      if check.Fail? {
        return check;
      }
      var path := FullPath(r.filepath);
      var e: Option<FsError>;
      match r.op {
        case "Remove" =>
          e := fs.Remove(path);
        case "Rename" =>
          var targetPath := FullPath(r.target);
          e := fs.Rename(path, targetPath);
        case "Mkdir" =>
          e := fs.Mkdir(path);
        case "Stat" =>
          e := fs.Stat(path);
        case "Lstat" =>
          e := fs.Lstat(path);
        case "Readlink" =>
          e := fs.Readlink(path);
        case _ =>
          return Fail(ErrOpUnsupported);
      }
      err := Lift(e);
    }

    /** Opens the directory and reads all of its entries into a lister. */
    method Filelist(fs: FileSystem, r: Request) returns (res: Result<DirLister, SftpError>)
      modifies fs
      ensures CheckPermission(r.filepath, listPerm).Fail? ==>
        res == Failure(ErrPermission) && unchanged(fs)
      ensures CheckPermission(r.filepath, listPerm).Pass? ==>
        var p := FullPath(r.filepath);
        && fs.nodes == old(fs.nodes)
        && (p !in fs.nodes ==>
              fs.calls == old(fs.calls) + [OpenCall(p)] && res == Failure(StorageFailed(NotExist)))
        && (p in fs.nodes ==>
              && fs.calls == old(fs.calls) + [OpenCall(p), ReaddirCall(p)]
              && (res.Success? <==> fs.nodes[p].Directory?)
              && (res.Failure? ==> res.error == StorageFailed(NotDir))
              && (res.Success? ==> ListsChildren(fs.nodes, p, res.value.entries)))
    {
      var check := CheckPermission(r.filepath, listPerm);
      if check.Fail? {
        return Failure(check.error);
      }
      var p := FullPath(r.filepath);
      var f := fs.Open(p);
      if f.Failure? {
        return Failure(StorageFailed(f.error));
      }
      var files := fs.Readdir(f.value.path);
      if files.Failure? {
        return Failure(StorageFailed(files.error));
      }
      res := Success(DirLister(files.value));
    }
  }

  /** The entries of one directory, handed out page by page. */
  datatype DirLister = DirLister(entries: seq<FileInfo>) {
    /**
     * Copies the entries from `offset` on into `ls`, as many as fit, and
     * reports EOF when the page was not filled.
     */
    method ListAt(ls: array<FileInfo>, offset: int) returns (n: int, err: Option<IoError>)
      requires 0 <= offset
      modifies ls
      ensures offset >= |entries| ==> n == 0 && err == Some(EOF) && ls[..] == old(ls[..])
      ensures offset < |entries| ==>
        && n == (if ls.Length < |entries| - offset then ls.Length else |entries| - offset)
        && ls[..n] == entries[offset..offset + n]
        && ls[n..] == old(ls[n..])
        && (err == Some(EOF) <==> n < ls.Length)
      ensures err.None? || err == Some(EOF)
    {
      if offset >= |entries| {
        return 0, Some(EOF);
      }
      var rest := entries[offset..];
      n := 0;
      while n < ls.Length && n < |rest|
        invariant 0 <= n <= ls.Length && n <= |rest|
        invariant ls[..n] == rest[..n]
        invariant ls[n..] == old(ls[n..])
      {
        ls[n] := rest[n];
        n := n + 1;
      }
      if n < ls.Length {
        return n, Some(EOF);
      }
      return n, None;
    }
  }

  /** With a configured user and a non-empty root, the flag alone decides. */
  lemma CheckDecidedByFlag(h: PermissionHandler, path: string, hasPermission: bool)
    requires h.userConfig.Some? && h.rootPath != ""
    ensures h.CheckPermission(path, hasPermission).Pass? <==> hasPermission
  {
    Paths.RelOfJoinSucceeds(h.rootPath, path);
  }

  /** A path with no ".." element, once allowed, stays inside the root. */
  lemma AllowedPathConfined(h: PermissionHandler, path: string, hasPermission: bool)
    requires h.rootPath != ""
    requires forall i :: 0 <= i < |Paths.Split(path)| ==> Paths.Split(path)[i] != ".."
    requires h.CheckPermission(path, hasPermission).Pass?
    ensures Paths.Within(h.rootPath, h.FullPath(path))
  {
    Paths.JoinConfined(h.rootPath, path);
  }

  /**
   * The check does not confine: "../x" under root "/r" is allowed and the
   * handlers then work on "/x", outside the root.
   */
  lemma EscapeAllowed(h: PermissionHandler)
    requires h.userConfig.Some? && h.rootPath == "/r" && h.readPerm
    ensures h.CheckPermission("../x", h.readPerm).Pass?
    ensures h.FullPath("../x") == "/x" && !Paths.Within(h.rootPath, h.FullPath("../x"))
  {
    Paths.EscapeExample();
  }
}
