/**
 * The SSH side of the server: password authentication against the
 * configured users, the choice of channels and channel requests that start
 * an SFTP session, and the construction of the per-session handler.
 */
module SftpServer {
  import opened Wrappers
  import opened Bytes
  import opened SftpConfig
  import Paths
  import Handler

  // ---------------------------------------------------------------------------
  // Looking users up
  // ---------------------------------------------------------------------------

  /** The index of the last user named `name`, or -1. */
  function LastIndex(users: seq<UserConfig>, name: string): (k: int)
    ensures -1 <= k < |users|
    ensures k >= 0 ==> users[k].username == name
    ensures forall j :: k < j < |users| ==> users[j].username != name
    decreases |users|
  {
    if |users| == 0 then -1
    else if users[|users| - 1].username == name then |users| - 1
    else LastIndex(users[..|users| - 1], name)
  }

  /** The index of the first user named `name`, or -1. */
  function FirstIndex(users: seq<UserConfig>, name: string): (k: int)
    ensures -1 <= k < |users|
    ensures k >= 0 ==> users[k].username == name
    ensures forall j :: 0 <= j < |users| && (k < 0 || j < k) ==> users[j].username != name
    decreases |users|
  {
    if |users| == 0 then -1
    else if users[0].username == name then 0
    else
      var k := FirstIndex(users[1..], name);
      if k < 0 then -1 else k + 1
  }

  /** A name is configured exactly when it has a first and a last entry. */
  lemma {:induction false} FirstLastAgree(users: seq<UserConfig>, name: string)
    ensures FirstIndex(users, name) >= 0 <==> LastIndex(users, name) >= 0
    ensures FirstIndex(users, name) <= LastIndex(users, name)
  {
    var f, l := FirstIndex(users, name), LastIndex(users, name);
    if f >= 0 {
      assert users[f].username == name;
    }
    if l >= 0 {
      assert users[l].username == name;
    }
  }

  /**
   * Two entries with the same name: the password checked at login comes
   * from the later one, the configuration served comes from the earlier.
   */
  lemma DuplicateUsersSplit(users: seq<UserConfig>, name: string, i: int, j: int)
    requires 0 <= i < j < |users|
    requires users[i].username == name && users[j].username == name
    ensures 0 <= FirstIndex(users, name) <= i < j <= LastIndex(users, name)
  {
  }

  // ---------------------------------------------------------------------------
  // Password authentication
  // ---------------------------------------------------------------------------

  /** What a successful login carries into the connection. */
  datatype SshPermissions = SshPermissions(extensions: map<string, string>)

  datatype AuthError = PasswordRejected(user: string)

  /**
   * Fills a map from every user's name to their password, a later entry
   * overwriting an earlier one, then accepts the login when the user is in
   * the map and the password is equal to the stored one.
   */
  method AuthenticateUser(cfg: Config, user: string, password: string)
    returns (r: Result<SshPermissions, AuthError>)
    ensures var k := LastIndex(cfg.users, user);
      r.Success? <==> k >= 0 && cfg.users[k].password == password
    ensures r.Success? ==> r.value == SshPermissions(map["username" := user])
    ensures r.Failure? ==> r.error == PasswordRejected(user)
  {
    var users := cfg.users;
    var userMap: map<string, string> := map[];
    var i := 0;
    while i < |users|
      invariant 0 <= i <= |users|
      invariant forall name :: name in userMap <==> LastIndex(users[..i], name) >= 0
      invariant forall name :: name in userMap ==>
        userMap[name] == users[LastIndex(users[..i], name)].password
    {
      assert users[..i + 1][..i] == users[..i];
      userMap := userMap[users[i].username := users[i].password];
      i := i + 1;
    }
    assert users[..i] == users;
    if user in userMap && userMap[user] == password {
      return Success(SshPermissions(map["username" := user]));
    }
    return Failure(PasswordRejected(user));
  }

  /** A user who can log in always has a configuration. */
  lemma AuthenticatedUserIsKnown(cfg: Config, user: string, password: string)
    requires var k := LastIndex(cfg.users, user); k >= 0 && cfg.users[k].password == password
    ensures FirstIndex(cfg.users, user) >= 0
  {
    FirstLastAgree(cfg.users, user);
  }

  // ---------------------------------------------------------------------------
  // Per-session handler
  // ---------------------------------------------------------------------------

  /** Linear search for the first user named `username`. */
  method GetUserConfig(cfg: Config, username: string) returns (r: Option<UserConfig>)
    ensures var k := FirstIndex(cfg.users, username);
      r == if k < 0 then None else Some(cfg.users[k])
  {
    var i := 0;
    while i < |cfg.users|
      invariant 0 <= i <= |cfg.users|
      invariant forall j :: 0 <= j < i ==> cfg.users[j].username != username
    {
      if cfg.users[i].username == username {
        return Some(cfg.users[i]);
      }
      i := i + 1;
    }
    return None;
  }

  /** The four handler slots of one SFTP session. */
  datatype Handlers = Handlers(
    fileGet: Handler.PermissionHandler,
    filePut: Handler.PermissionHandler,
    fileCmd: Handler.PermissionHandler,
    fileList: Handler.PermissionHandler)

  /**
   * One handler in all four slots. An unknown user gets a handler with no
   * configuration, an empty root and no permission; a known user gets the
   * root joined with the user's name and the flags of the first permission
   * entry, its path ignored.
   */
  method NewPermissionHandler(cfg: Config, username: string) returns (hs: Handlers)
    requires var k := FirstIndex(cfg.users, username);
      k >= 0 ==> |cfg.users[k].permissions| > 0
    ensures fresh(hs.fileGet)
    ensures hs.filePut == hs.fileGet && hs.fileCmd == hs.fileGet && hs.fileList == hs.fileGet
    ensures var k := FirstIndex(cfg.users, username);
      var h := hs.fileGet;
      && (k < 0 ==>
            && h.userConfig == None && h.rootPath == ""
            && !h.readPerm && !h.writePerm && !h.cmdPerm && !h.listPerm)
      && (k >= 0 ==>
            var p := cfg.users[k].permissions[0];
            && h.userConfig == Some(cfg.users[k])
            && h.rootPath == Paths.Join(cfg.server.rootPath, username)
            && h.readPerm == p.read && h.writePerm == p.write
            && h.cmdPerm == p.cmd && h.listPerm == p.list)
  {
    var userConfig := GetUserConfig(cfg, username);
    if userConfig.None? {
      var denyHandler := new Handler.PermissionHandler(None, "", false, false, false, false);
      return Handlers(denyHandler, denyHandler, denyHandler, denyHandler);
    }
    var p := userConfig.value.permissions[0];
    var ph := new Handler.PermissionHandler(userConfig, Paths.Join(cfg.server.rootPath, username),
                                            p.read, p.write, p.cmd, p.list);
    return Handlers(ph, ph, ph, ph);
  }

  /** The deny handler refuses every request, whatever the flag passed. */
  lemma DenyHandlerRefuses(h: Handler.PermissionHandler, path: string, hasPermission: bool)
    requires h.userConfig.None?
    ensures h.CheckPermission(path, hasPermission) == Fail(Handler.ErrPermission)
  {
  }

  // ---------------------------------------------------------------------------
  // Channels and channel requests
  // ---------------------------------------------------------------------------

  const Session: string := "session"
  const Subsystem: string := "subsystem"
  /** The bytes of "sftp". */
  const SftpName: seq<byte> := [0x73, 0x66, 0x74, 0x70]

  /** Accepts exactly the channels of type "session", rejecting the rest and going on. */
  method HandleChannels(channelTypes: seq<string>) returns (accepted: seq<nat>)
    ensures forall i: nat :: i in accepted <==> i < |channelTypes| && channelTypes[i] == Session
    ensures forall a, b :: 0 <= a < b < |accepted| ==> accepted[a] < accepted[b]
  {
    accepted := [];
    var i := 0;
    while i < |channelTypes|
      invariant 0 <= i <= |channelTypes|
      invariant forall j: nat :: j in accepted <==> j < i && channelTypes[j] == Session
      invariant forall a, b :: 0 <= a < b < |accepted| ==> accepted[a] < accepted[b]
      invariant forall a :: 0 <= a < |accepted| ==> accepted[a] < i
    {
      if channelTypes[i] != Session {
        i := i + 1;
        continue;
      }
      accepted := accepted + [i];
      i := i + 1;
    }
  }

  datatype ChannelRequest = ChannelRequest(reqType: string, payload: seq<byte>)

  /** What one channel request does to the session. */
  datatype RequestAction =
    | StartSftp      // reply true and serve SFTP on the channel
    | Skip           // go on with the next request
    | SlicePanic     // the payload is too short to drop its first four bytes

  /**
   * Only a "subsystem" request whose payload, after its first four bytes,
   * reads "sftp" starts a session; the four bytes are never read.
   */
  function ActionOf(req: ChannelRequest): (a: RequestAction)
    ensures a == SlicePanic <==> req.reqType == Subsystem && |req.payload| < 4
    ensures a == StartSftp <==>
      req.reqType == Subsystem && |req.payload| >= 4 && req.payload[4..] == SftpName
  {
    if req.reqType != Subsystem then Skip
    else if |req.payload| < 4 then SlicePanic
    else if req.payload[4..] == SftpName then StartSftp
    else Skip
  }

  datatype SessionEnd =
    | Served(at: nat)      // the request at this index started SFTP
    | Crashed(at: nat)     // the request at this index panicked
    | Drained              // no request started SFTP

  /** Handles requests in order until one starts SFTP (or panics). */
  method HandleChannelRequests(reqs: seq<ChannelRequest>) returns (e: SessionEnd)
    ensures e.Served? ==> e.at < |reqs| && ActionOf(reqs[e.at]) == StartSftp
    ensures e.Crashed? ==> e.at < |reqs| && ActionOf(reqs[e.at]) == SlicePanic
    ensures var stop := if e.Drained? then |reqs| else e.at;
      forall j :: 0 <= j < stop ==> ActionOf(reqs[j]) == Skip
  {
    var i := 0;
    while i < |reqs|
      invariant 0 <= i <= |reqs|
      invariant forall j :: 0 <= j < i ==> ActionOf(reqs[j]) == Skip
    {
      var req := reqs[i];
      if req.reqType == Subsystem {
        if |req.payload| < 4 {
          return Crashed(i);
        }
        if req.payload[4..] == SftpName {
          return Served(i);
        }
      }
      i := i + 1;
    }
    return Drained;
  }

  /** The SSH wire form of a string: a four-byte big-endian length, then the bytes. */
  function SshString(s: seq<byte>): (w: seq<byte>)
    requires |s| < 0x1_0000_0000
    ensures |w| == 4 + |s| && w[4..] == s
  {
    var n := |s|;
    [n / 0x100_0000, (n / 0x1_0000) % 0x100, (n / 0x100) % 0x100, n % 0x100] + s
  }

  /** A well-formed subsystem request starts SFTP exactly when it names "sftp". */
  lemma SubsystemRequest(name: seq<byte>)
    requires |name| < 0x1_0000_0000
    ensures ActionOf(ChannelRequest(Subsystem, SshString(name))) == StartSftp <==> name == SftpName
  {
    assert SshString(name)[4..] == name;
  }

  /** Any four leading bytes are accepted, even a length that does not match. */
  lemma LengthPrefixIgnored(prefix: seq<byte>)
    requires |prefix| == 4
    ensures ActionOf(ChannelRequest(Subsystem, prefix + SftpName)) == StartSftp
  {
    assert (prefix + SftpName)[4..] == SftpName;
  }
}
