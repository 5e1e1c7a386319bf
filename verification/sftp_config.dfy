/** The records of the SFTP server's configuration, as the YAML parser fills them. */
module SftpConfig {

  /** One permission entry; only the first entry of a user is ever consulted. */
  datatype Permissions = Permissions(path: string, read: bool, write: bool, cmd: bool, list: bool)

  datatype UserConfig = UserConfig(username: string, password: string, permissions: seq<Permissions>)

  datatype ServerConfig = ServerConfig(host: string, port: int, rootPath: string)

  datatype Config = Config(server: ServerConfig, users: seq<UserConfig>)
}
