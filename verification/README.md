# SFTP server with per-user permissions, and its configuration loader

This project models, in Dafny, the core of a small Go SFTP server. An SSH
client logs in with a password that is checked against a list of configured
users. On a "session" channel it asks for the "sftp" subsystem and then gets
one permission handler. That handler joins every request path onto the user's
root directory and refuses the request unless the user's read, write, command
or list flag allows it. Beside the server sits the repository's application
configuration package. It picks a default configuration file, and it
"decrypts" the stored database and Redis passwords. That decryption is plain
standard base64 (section 4 of RFC 4648, with `=` padding).

Modules, one per file:

- `Wrappers`: `Option`, `Result` and `Outcome`.
- `Bytes`: the octet type shared by the codec, the filesystem and the SSH
  models.
- `Base64`: Go's `StdEncoding`. Encoding pads to whole groups. Decoding
  skips CR and LF anywhere in the text and does not require the unused
  padding bits to be zero.
- `Secrets`: `Decrypt` and `Encrypt`.
- `Settings`: the configuration records, `DecryptSecrets`, the search for
  the default path and `LoadConfig`. Reading the file, parsing YAML and
  testing whether a file exists are parameters.
- `SftpConfig`: the server's configuration records.
- `Paths`: the Unix behaviour of Go's `filepath.Clean`, `Join`, `Rel` and
  `Dir`, including `Rel` keeping a "." target as it is ("../."). It works on path elements, with the lemmas the permission check
  relies on.
- `Storage`: an abstract filesystem. It is a map from path to file,
  directory or symbolic link, plus a trace of every call made on it. The
  trace lets the handlers state which calls they made, and that a refused
  request made none.
- `Handler`: the permission handler (`checkPermission`, `Fileread`,
  `Filewrite`, `Filecmd`, `Filelist`) and the directory lister `ListAt`.
- `SftpServer`: password authentication, user lookup, handler
  construction, and the decisions on channel types and channel requests.

Where the code departs from the intended design, the model follows the code:

- Requests are meant to stay inside the user's root. The check computes the
  path relative to the root (sftp/sftp_server/handler.go:136) but never looks
  at it. A request for "../x" under the root "/r" is allowed and works on
  "/x" (`Handler.EscapeAllowed`). Confinement holds only for request paths
  without ".." elements (`Handler.AllowedPathConfined`).
- Only the source path of a Rename is checked. Its target is joined onto the
  root and used as it is (`Handler.PermissionHandler.Filecmd`).
- Duplicate user names are not rejected. Authentication uses the last entry
  with the name, while the session's configuration comes from the first
  (`SftpServer.DuplicateUsersSplit`).

## Model

| member | source | states |
|---|---|---|
| Base64.DecodeEncode | config/decrypt.go:11 | decoding the standard encoding of any bytes gives those bytes back |
| Base64.DecodeSucceedsIff | config/decrypt.go:11-14 | decoding succeeds exactly when the text, with CR and LF removed, is whole padded groups of alphabet symbols |
| Base64.EncodeDecode | config/decrypt.go:11 | on canonical text (no CR or LF, zero padding bits), encoding the decoded bytes gives the text back |
| Base64.LenientDecoding | config/decrypt.go:11 | "AB==" and "AA\r\n==" both decode to the single byte 0, while 0 encodes as "AA==" |
| Base64.EncodeShape | config/decrypt.go:25 | the encoding is 4 * ceil(n / 3) characters: alphabet symbols, then the 0, 1 or 2 `=` that complete the last group |
| Base64.EncodeHasNoNewlines | config/decrypt.go:25 | encoded text never contains CR or LF |
| Base64.EncodeIsCanonical | config/decrypt.go:25 | every encoded text is canonical: no CR or LF, whole padded groups, and zero padding bits |
| Base64.RoundTripIffCanonical | config/decrypt.go:11 | decoding a text and encoding the result gives the text back exactly when the text is canonical |
| Secrets.Decrypt | config/decrypt.go:9-19 | no error exactly when the text is padded base64 once CR and LF are removed; on error the returned string is empty |
| Secrets.Encrypt | config/decrypt.go:22-26 | never fails; the text has length 4 * ceil(n / 3), symbols first and `=` padding last |
| Secrets.DecryptEncrypt | config/decrypt.go:9-26 | decrypting an encryption gives the plaintext back with no error |
| Secrets.EncryptDecrypt | config/decrypt.go:9-26 | a canonical text decrypts without error, and encrypting the result gives the same text |
| Secrets.TestVectors | config/decrypt.go:25 | the encodings of "", "f", "fo", "foo", "foob", "fooba" and "foobar" are the test vectors of section 10 of RFC 4648 |
| Settings.Config.constructor | config/config.go:62-63 | a configuration holds the parsed document's four sections |
| Settings.Config.DecryptSecrets | config/config.go:76-96 | the database secret is handled first. An empty password leaves its decrypted field alone. A failure stores the empty string, returns the database error and leaves the Redis section untouched. Otherwise the Redis secret is handled the same way. No other field changes |
| Settings.FirstExisting | config/config.go:109-113 | the index of the first path whose stat succeeds (none before it does), or the count when none does |
| Settings.FirstExistingIsFirst | config/config.go:109-113 | an existing candidate with no existing predecessor is the one the search finds |
| Settings.GetDefaultConfigPath | config/config.go:99-117 | tries the five candidates in order and returns the first that exists, or "conf/conf.yaml" when none does; the result is always a candidate |
| Settings.LoadConfig | config/config.go:49-73 | an empty path means the default path. A read failure and a parse failure each end the load with their own error. The load succeeds exactly when both stored secrets are empty or decrypt. A database secret that fails gives the database error, else a failing Redis secret gives the Redis error. On success the configuration is the document with each non-empty password's decryption stored beside it, every other field unchanged |
| Paths.Clean | sftp/sftp_server/handler.go:51 | the cleaned path is never empty |
| Paths.Join | sftp/sftp_server/handler.go:135 | the joined path is empty exactly when both parts are empty |
| Paths.CleanIdempotent | sftp/sftp_server/handler.go:135 | cleaning a cleaned path changes nothing |
| Paths.JoinResolves | sftp/sftp_server/handler.go:135 | joining a path onto a non-empty root resolves the path's elements, ".." included, against the root's cleaned elements |
| Paths.RelOfJoinSucceeds | sftp/sftp_server/handler.go:135-139 | for a non-empty root, the root-relative form of any path joined onto that root always exists, so the error branch of the check is never taken |
| Paths.JoinConfined | sftp/sftp_server/handler.go:135-136 | a path without ".." elements, joined onto a non-empty root, stays at or under the root, and its relative form does not climb |
| Paths.RelDotTarget | sftp/sftp_server/handler.go:136 | the relative form of "." from "a" is "../.", with the "." target kept as it is |
| Paths.EscapeExample | sftp/sftp_server/handler.go:135-136 | "../x" joined onto "/r" is "/x", which is outside "/r"; its relative form "../x" exists and climbs |
| Storage.FileSystem.Readdir | sftp/sftp_server/handler.go:105 | a directory yields every child exactly once; a missing path and a file each fail with their own error |
| Handler.PermissionHandler.CheckPermission | sftp/sftp_server/handler.go:129-147 | the only error is the permission error. A handler with no user always refuses. With a user, it allows exactly when the flag is set and the joined path has a form relative to the root |
| Handler.CheckDecidedByFlag | sftp/sftp_server/handler.go:129-147 | for a configured user with a non-empty root, the flag alone decides |
| Handler.AllowedPathConfined | sftp/sftp_server/handler.go:129-147 | an allowed path without ".." elements names something at or under the root |
| Handler.EscapeAllowed | sftp/sftp_server/handler.go:129-147 | with the read flag set under root "/r", "../x" is allowed and names "/x", which is outside the root |
| Handler.PermissionHandler.Fileread | sftp/sftp_server/handler.go:32-40 | a refused read returns the permission error and touches nothing. An allowed read makes exactly one open of the root-joined path. It returns a handle when that path exists, and the not-exist error otherwise |
| Handler.PermissionHandler.Filewrite | sftp/sftp_server/handler.go:43-56 | a refused write touches nothing. An allowed write first creates the parent directories and then creates the file. When creating the parents fails, nothing is created and that error is returned |
| Handler.PermissionHandler.Filecmd | sftp/sftp_server/handler.go:59-89 | a refused command touches nothing. Remove, Rename, Mkdir, Stat, Lstat and Readlink each make exactly their own call on the root-joined path, and Rename's target is joined but not checked. Any other method, once allowed, returns "operation unsupported" and touches nothing |
| Handler.PermissionHandler.Filelist | sftp/sftp_server/handler.go:92-111 | a refused listing touches nothing. An allowed one opens the path, then reads the directory, and lists every child exactly once. A missing path fails at the open, and a file fails at the read |
| Handler.DirLister.ListAt | sftp/sftp_server/handler.go:117-126 | from an offset at or past the end: 0 entries and EOF, page untouched. Otherwise the next min(page size, remaining) entries are copied into the front of the page, the rest of the page is untouched, and EOF comes exactly when the page was not filled |
| SftpServer.LastIndex | sftp/sftp_server/sftp_server.go:62-66 | the index of the last user with the name (none after it has it), or -1; this is the entry the password map keeps |
| SftpServer.FirstIndex | sftp/sftp_server/sftp_server.go:251-258 | the index of the first user with the name (none before it has it), or -1 |
| SftpServer.FirstLastAgree | sftp/sftp_server/sftp_server.go:61-78 | a name has a first entry exactly when it has a last one, and the first is never after the last |
| SftpServer.DuplicateUsersSplit | sftp/sftp_server/sftp_server.go:61-78 | with two entries of the same name, the password is checked against the later entry while the configuration comes from the earlier |
| SftpServer.AuthenticateUser | sftp/sftp_server/sftp_server.go:61-78 | the login succeeds exactly when the last entry with the name has exactly this password. Success carries only the extension "username" set to the name; failure is the single "password rejected" error |
| SftpServer.AuthenticatedUserIsKnown | sftp/sftp_server/sftp_server.go:214-216 | a user who can log in always has a configuration, so the deny handler is never built for a logged-in user |
| SftpServer.GetUserConfig | sftp/sftp_server/sftp_server.go:251-258 | the first entry with the name, or none |
| SftpServer.NewPermissionHandler | sftp/sftp_server/sftp_server.go:214-249 | the same new handler fills all four slots. An unknown user gets no configuration, an empty root and all four flags false. A known user gets their first entry, the server root joined with the name, and the flags of the first permission entry |
| SftpServer.DenyHandlerRefuses | sftp/sftp_server/sftp_server.go:216-231 | the handler without a configuration refuses every path, whatever flag it is given |
| SftpServer.HandleChannels | sftp/sftp_server/sftp_server.go:169-182 | exactly the channels of type "session" are accepted, in arrival order; the others are rejected and the loop goes on |
| SftpServer.ActionOf | sftp/sftp_server/sftp_server.go:191-209 | a request starts SFTP exactly when it is a "subsystem" request whose payload, after four bytes, is "sftp". A shorter subsystem payload panics, and every other request is skipped |
| SftpServer.HandleChannelRequests | sftp/sftp_server/sftp_server.go:191-210 | requests are handled in order. Every request before the first one that starts SFTP or panics is skipped, and handling stops there |
| SftpServer.SubsystemRequest | sftp/sftp_server/sftp_server.go:194 | a subsystem request encoded as an SSH string (section 6.5 of RFC 4254) starts SFTP exactly when the name is "sftp" |
| SftpServer.LengthPrefixIgnored | sftp/sftp_server/sftp_server.go:194 | any four leading bytes followed by "sftp" start SFTP, even a length that does not match |

## Left out

- Listening, the SSH handshake, `Start`, `handleConnection`'s accept loop, goroutines, `GetStatus` and `Stop` are left out: they are network I/O and concurrency. Only the channel-type and channel-request decisions are modelled, each over a sequence of inputs.
- Channel `Accept` failures (logged, then the loop goes on) and serving SFTP on an accepted channel are not modelled; `SftpServer.HandleChannels` returns the channels it accepts.
- Host key generation and loading (`private.go`) is left out: it is cryptography and file I/O.
- The SFTP client, the example programs and the YAML parser are left out, and so is the server's own `LoadConfig` (sftp/config/config.go), which only reads and parses a file. `Settings.LoadConfig` takes reading, parsing and the existence test as parameters.
- Logging and `Printf` lines are not modelled. The denial log lines in the handlers read `userConfig.Username` and would panic on the handler with no configuration. A logged-in user always has a configuration (`SftpServer.AuthenticatedUserIsKnown`), so the model returns the permission error on that path.
- Handler.DirLister.ListAt: requires a non-negative offset, because Go panics when it slices with a negative one.
- SftpServer.NewPermissionHandler: requires a known user to have at least one permission entry, because Go panics when it indexes an empty list. Only the first entry is read, and its `path` field is ignored.
- SftpServer.AuthenticateUser: the password is compared as a string. The SSH library's timing and retry limits are not modelled.
- Storage.FileSystem: real operating-system semantics are not modelled. Mode bits, ownership and file contents beyond creation are left out. Rename moves one entry and does not carry a directory's descendants. Stat does not follow symbolic links. Opened files are not closed.
- The request path cleaning done by the SFTP library before it calls the handler is not part of this model, so the handlers receive request paths unchanged.
- Paths: only the Unix behaviour of `filepath` is modelled; volume names and Windows separators are left out.
- Base64: the byte offset carried by Go's `CorruptInputError` is not modelled, because callers only test whether the error is nil.
