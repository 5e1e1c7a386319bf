/**
 * The application configuration of the repository-level `config` package:
 * its records, the in-place decryption of the two stored secrets, the search
 * for a default configuration file and the loading sequence around them.
 * Reading the file and parsing YAML are parameters (`readFile`, `parseYaml`);
 * whether a candidate file exists is the parameter `statSucceeds`.
 */
module Settings {
  import opened Wrappers
  import opened Bytes
  import opened Secrets

  datatype AppConfig = AppConfig(name: string, port: int, debug: bool)

  /** `password` is the encrypted text; `decryptedPassword` is never read from YAML. */
  datatype DatabaseConfig = DatabaseConfig(
    host: string, port: int, username: string,
    password: string, decryptedPassword: seq<byte>, name: string)

  datatype RedisConfig = RedisConfig(host: string, port: int, password: string, decryptedPassword: seq<byte>)

  datatype EncryptionConfig = EncryptionConfig(algorithm: string)

  /** What the YAML parser yields for one configuration file. */
  datatype Document = Document(app: AppConfig, database: DatabaseConfig, redis: RedisConfig, encryption: EncryptionConfig)

  datatype SecretsError =
    | DatabasePasswordFailed(cause: SecretError)
    | RedisPasswordFailed(cause: SecretError)

  datatype LoadError = ReadFailed | ParseFailed | DecryptFailed(cause: SecretsError)

  /** A stored secret is acceptable when it is absent or decrypts. */
  predicate Decrypts(password: string) {
    password == "" || Decrypt(password).1.None?
  }

  /** The decrypted field after decryption: untouched for an empty password. */
  function Decrypted(password: string, previous: seq<byte>): seq<byte> {
    if password == "" then previous else Decrypt(password).0
  }

  class Config {
    var app: AppConfig
    var database: DatabaseConfig
    var redis: RedisConfig
    var encryption: EncryptionConfig

    constructor (doc: Document)
      ensures app == doc.app && database == doc.database
      ensures redis == doc.redis && encryption == doc.encryption
    {
      app, database, redis, encryption := doc.app, doc.database, doc.redis, doc.encryption;
    }

    /**
     * `DecryptSecrets`: the database secret first, then the Redis secret. An
     * empty password leaves its decrypted field alone; a failing one stores
     * the empty string `Decrypt` returns and stops before the next secret.
     */
    method DecryptSecrets() returns (err: Option<SecretsError>)
      modifies this
      ensures app == old(app) && encryption == old(encryption)
      ensures database.(decryptedPassword := old(database.decryptedPassword)) == old(database)
      ensures redis.(decryptedPassword := old(redis.decryptedPassword)) == old(redis)
      ensures database.decryptedPassword ==
        if database.password == "" then old(database.decryptedPassword) else Decrypt(database.password).0
      ensures !Decrypts(database.password) ==>
        && err == Some(DatabasePasswordFailed(Decrypt(database.password).1.value))
        && database.decryptedPassword == []
        && redis == old(redis)
      ensures Decrypts(database.password) ==>
        && redis.decryptedPassword ==
          (if redis.password == "" then old(redis.decryptedPassword) else Decrypt(redis.password).0)
        && (err.Some? <==> !Decrypts(redis.password))
        && (err.Some? ==> err == Some(RedisPasswordFailed(Decrypt(redis.password).1.value)))
    {
      if database.password != "" {
        var (plain, e) := Decrypt(database.password);
        database := database.(decryptedPassword := plain);
        if e.Some? {
          return Some(DatabasePasswordFailed(e.value));
        }
      }
      if redis.password != "" {
        var (plain, e) := Decrypt(redis.password);
        redis := redis.(decryptedPassword := plain);
        if e.Some? {
          return Some(RedisPasswordFailed(e.value));
        }
      }
      return None;
    }
  }

  /** The candidate locations, tried in this order. */
  const CandidatePaths: seq<string> :=
    ["conf/conf.yaml", "conf.yaml", "./conf/conf.yaml", "../conf/conf.yaml", "../../conf/conf.yaml"]

  /** The path returned when no candidate exists. */
  const FallbackPath: string := "conf/conf.yaml"

  /** The index of the first path whose stat succeeds, or |paths| when none does. */
  function FirstExisting(paths: seq<string>, statSucceeds: string -> bool): (k: nat)
    ensures k <= |paths|
    ensures k < |paths| ==> statSucceeds(paths[k])
    ensures forall j :: 0 <= j < k ==> !statSucceeds(paths[j])
    decreases |paths|
  {
    if |paths| == 0 then 0
    else if statSucceeds(paths[0]) then 0
    else 1 + FirstExisting(paths[1..], statSucceeds)
  }

  /** The file `LoadConfig` reads: the given path, or the default when it is empty. */
  function ResolveConfigPath(configPath: string, statSucceeds: string -> bool): string {
    if configPath != "" then configPath
    else
      var k := FirstExisting(CandidatePaths, statSucceeds);
      if k < |CandidatePaths| then CandidatePaths[k] else FallbackPath
  }

  /** `getDefaultConfigPath`: the first candidate that exists, else "conf/conf.yaml". */
  method GetDefaultConfigPath(statSucceeds: string -> bool) returns (path: string)
    ensures path == ResolveConfigPath("", statSucceeds)
    ensures path in CandidatePaths
    ensures statSucceeds(path) || forall j :: 0 <= j < |CandidatePaths| ==> !statSucceeds(CandidatePaths[j])
  {
    var i := 0;
    while i < |CandidatePaths|
      invariant 0 <= i <= |CandidatePaths|
      invariant forall j :: 0 <= j < i ==> !statSucceeds(CandidatePaths[j])
    {
      if statSucceeds(CandidatePaths[i]) {
        FirstExistingIsFirst(CandidatePaths, statSucceeds, i);
        return CandidatePaths[i];
      }
      i := i + 1;
    }
    FirstExistingIsFirst(CandidatePaths, statSucceeds, |CandidatePaths|);
    return FallbackPath;
  }

  /** Any index that exists and has no existing predecessor is the first one. */
  lemma {:induction false} FirstExistingIsFirst(paths: seq<string>, statSucceeds: string -> bool, i: nat)
    requires i <= |paths|
    requires i < |paths| ==> statSucceeds(paths[i])
    requires forall j :: 0 <= j < i ==> !statSucceeds(paths[j])
    ensures FirstExisting(paths, statSucceeds) == i
    decreases |paths|
  {
    if |paths| > 0 && i > 0 {
      FirstExistingIsFirst(paths[1..], statSucceeds, i - 1);
    }
  }

  /**
   * `LoadConfig`: resolve the path, read, parse, then decrypt the secrets;
   * each step's failure ends the load with that step's error.
   */
  method LoadConfig(
    configPath: string,
    statSucceeds: string -> bool,
    readFile: string -> Option<seq<byte>>,
    parseYaml: seq<byte> -> Option<Document>
  ) returns (r: Result<Config, LoadError>)
    ensures var data := readFile(ResolveConfigPath(configPath, statSucceeds));
      && (data.None? ==> r == Failure(ReadFailed))
      && (data.Some? && parseYaml(data.value).None? ==> r == Failure(ParseFailed))
      && (data.Some? && parseYaml(data.value).Some? ==>
            var doc := parseYaml(data.value).value;
            && (r.Success? <==> Decrypts(doc.database.password) && Decrypts(doc.redis.password))
            && (!Decrypts(doc.database.password) ==>
                  r == Failure(DecryptFailed(DatabasePasswordFailed(Decrypt(doc.database.password).1.value))))
            && (Decrypts(doc.database.password) && !Decrypts(doc.redis.password) ==>
                  r == Failure(DecryptFailed(RedisPasswordFailed(Decrypt(doc.redis.password).1.value))))
            && (r.Success? ==>
                  && fresh(r.value)
                  && r.value.app == doc.app && r.value.encryption == doc.encryption
                  && r.value.database == doc.database.(decryptedPassword := Decrypted(doc.database.password, doc.database.decryptedPassword))
                  && r.value.redis == doc.redis.(decryptedPassword := Decrypted(doc.redis.password, doc.redis.decryptedPassword))))
  {
    var path := configPath;
    if path == "" {
      path := GetDefaultConfigPath(statSucceeds);
    }
    var data := readFile(path);
    if data.None? {
      return Failure(ReadFailed);
    }
    var doc := parseYaml(data.value);
    if doc.None? {
      return Failure(ParseFailed);
    }
    var config := new Config(doc.value);
    var err := config.DecryptSecrets();
    if err.Some? {
      return Failure(DecryptFailed(err.value));
    }
    return Success(config);
  }
}
