/** The application configuration: a store of named string properties kept per mode, with
    the database settings resolved through "option" properties that say where each
    database value comes from. Reading and writing the configuration file and asking the
    user in a dialog are outside the model; what they supply is given as inputs. */
module Configuration {
  import opened Wrappers
  import JavaText

  /** The mode the application runs in; each mode has its own configuration file. */
  datatype Mode = Normal | Development | Test

  /** The properties the configuration answers for. */
  datatype Key =
    | DbUsername | DbUsernameOption | DbUsernameSpecified
    | DbPassword | DbPasswordOption | DbPasswordSpecified
    | DbDriver | DbConnectionUrl | DbSchema | DataOrigin
    | NameInDatabase | NameInDatabaseOption | NameInDatabaseSpecified
    | ResultsFilePath | ImportFilePath | AnalysisFilePath | SaveCsvFilePath
    | AppPosX | AppPosY | AppMaximised | AppWidth | AppHeight
    | FileEditor | WebBrowser

  /** The name a key is stored under in the configuration file; the three computed keys
      have none. */
  function ResourceKey(k: Key): (r: Option<string>)
    ensures r.None? <==> k == DbUsername || k == DbPassword || k == NameInDatabase
  {
    match k
    case DbUsername => None
    case DbUsernameOption => Some("database.username")
    case DbUsernameSpecified => Some("database.username.specified")
    case DbPassword => None
    case DbPasswordOption => Some("database.password")
    case DbPasswordSpecified => Some("database.password.specified")
    case DbDriver => Some("database.driver")
    case DbConnectionUrl => Some("database.connection.url")
    case DbSchema => Some("database.schema")
    case DataOrigin => Some("database.dataorigin")
    case NameInDatabase => None
    case NameInDatabaseOption => Some("database.storedname")
    case NameInDatabaseSpecified => Some("database.storedname.specified")
    case ResultsFilePath => Some("results.filepath")
    case ImportFilePath => Some("import.filepath")
    case AnalysisFilePath => Some("analysis.filepath")
    case SaveCsvFilePath => Some("savecsv.filepath")
    case AppPosX => Some("application.location.x")
    case AppPosY => Some("application.location.y")
    case AppMaximised => Some("application.maximised")
    case AppWidth => Some("application.width")
    case AppHeight => Some("application.height")
    case FileEditor => Some("application.fileEditor")
    case WebBrowser => Some("application.webBrowser")
  }

  /** The database settings consulted for the `FROM_DATABASE` options and the fixed
      database values. Any of them may be null. */
  datatype DatabaseProperties = DatabaseProperties(
    connectionUrl: Option<string>,
    driverName: Option<string>,
    schema: Option<string>,
    userName: Option<string>,
    password: Option<string>)

  /** What the configuration reads from outside the program: the `user.name` system
      property and the answers given in the username and password dialogs (the dialogs
      ask again until the answer is non-empty, so an answer is the first non-empty one). */
  datatype Environment = Environment(
    systemUserName: Option<string>,
    askedUserName: string,
    askedPassword: string)

  datatype Config = Config(db: DatabaseProperties, mode: Mode, properties: map<string, string>)

  /** `properties.getProperty(name)`: null when nothing is stored. */
  function Stored(c: Config, name: string): (r: Option<string>)
    ensures r.Some? <==> name in c.properties
  {
    if name in c.properties then Some(c.properties[name]) else None
  }

  /** `setProperty(name, value)`: a computed key has no name to store under and is an
      `IllegalArgumentException`; a null value is rejected by the underlying table with a
      `NullPointerException`. */
  function SetProperty(c: Config, k: Key, value: Option<string>): (r: Result<Config>)
    ensures r.Success? <==> ResourceKey(k).Some? && value.Some?
    ensures r.Success? ==> r.value.db == c.db && r.value.mode == c.mode
  {
    match ResourceKey(k)
    case None => Failure("IllegalArgumentException: Cannot set property")
    case Some(name) =>
      if value.None? then Failure("NullPointerException")
      else Success(c.(properties := c.properties[name := value.value]))
  }

  /** The keys `getProperty` computes rather than looks up. */
  predicate Computed(k: Key) {
    k == DbConnectionUrl || k == NameInDatabase || k == DbUsername || k == DbPassword
    || k == DbDriver || k == DbSchema
  }

  /** The suffix the schema name carries in each mode. */
  function SchemaSuffix(m: Mode): (r: string)
    ensures m == Normal <==> r == []
  {
    match m
    case Development => "_dev"
    case Normal => ""
    case Test => "_test"
  }

  /** `Enum.valueOf` for an option property: a null name is a `NullPointerException` and a
      name that is not a constant of the enum an `IllegalArgumentException`. */
  datatype UsernameOption = UserFromEnvironment | UserAskOnConnect | UserFromDatabase | UserSpecified
  datatype PasswordOption = PasswordNone | PasswordAskOnConnect | PasswordFromDatabase | PasswordSpecified
  datatype NameInDbOption = NameFromEnvironment | NameSameAsUsername | NameSpecified

  function UsernameOptionOf(s: Option<string>): (r: Result<UsernameOption>)
    ensures r.Success? ==> s.Some?
  {
    match s
    case None => Failure("NullPointerException: Name is null")
    case Some(n) =>
      if n == "FROM_ENVIRONMENT" then Success(UserFromEnvironment)
      else if n == "ASK_ON_CONNECT" then Success(UserAskOnConnect)
      else if n == "FROM_DATABASE" then Success(UserFromDatabase)
      else if n == "USER_SPECIFIED" then Success(UserSpecified)
      else Failure("IllegalArgumentException: No enum constant")
  }

  function PasswordOptionOf(s: Option<string>): (r: Result<PasswordOption>)
    ensures r.Success? ==> s.Some?
  {
    match s
    case None => Failure("NullPointerException: Name is null")
    case Some(n) =>
      if n == "NONE" then Success(PasswordNone)
      else if n == "ASK_ON_CONNECT" then Success(PasswordAskOnConnect)
      else if n == "FROM_DATABASE" then Success(PasswordFromDatabase)
      else if n == "USER_SPECIFIED" then Success(PasswordSpecified)
      else Failure("IllegalArgumentException: No enum constant")
  }

  function NameInDbOptionOf(s: Option<string>): (r: Result<NameInDbOption>)
    ensures r.Success? ==> s.Some?
  {
    match s
    case None => Failure("NullPointerException: Name is null")
    case Some(n) =>
      if n == "FROM_ENVIRONMENT" then Success(NameFromEnvironment)
      else if n == "SAME_AS_USERNAME" then Success(NameSameAsUsername)
      else if n == "USER_SPECIFIED" then Success(NameSpecified)
      else Failure("IllegalArgumentException: No enum constant")
  }

  /** The value stored for a key that has a resource name. */
  function StoredKey(c: Config, k: Key): (r: Option<string>)
    requires ResourceKey(k).Some?
  {
    Stored(c, ResourceKey(k).value)
  }

  /** `getUserName()`: from where the username option says. */
  function UserName(c: Config, env: Environment): (r: Result<Option<string>>)
  {
    var option :- UsernameOptionOf(StoredKey(c, DbUsernameOption));
    match option
    case UserAskOnConnect => Success(Some(env.askedUserName))
    case UserFromEnvironment => Success(env.systemUserName)
    case UserFromDatabase => Success(c.db.userName)
    case UserSpecified => Success(StoredKey(c, DbUsernameSpecified))
  }

  /** `getPassword()`: from where the password option says; no password is null. */
  function Password(c: Config, env: Environment): (r: Result<Option<string>>)
  {
    var option :- PasswordOptionOf(StoredKey(c, DbPasswordOption));
    match option
    case PasswordAskOnConnect => Success(Some(env.askedPassword))
    case PasswordFromDatabase => Success(c.db.password)
    case PasswordSpecified => Success(StoredKey(c, DbPasswordSpecified))
    case PasswordNone => Success(None)
  }

  /** `getNameInDatabase()`: from where the stored-name option says; the environment's
      user name defaults to the empty string here. */
  function NameInDb(c: Config, env: Environment): (r: Result<Option<string>>)
  {
    var option :- NameInDbOptionOf(StoredKey(c, NameInDatabaseOption));
    match option
    case NameFromEnvironment => Success(Some(if env.systemUserName.Some? then env.systemUserName.value else ""))
    case NameSameAsUsername => UserName(c, env)
    case NameSpecified => Success(StoredKey(c, NameInDatabaseSpecified))
  }

  /** `getProperty(name)`: the database keys are computed, every other key is looked up
      under its name and is null when nothing is stored. */
  function GetProperty(c: Config, k: Key, env: Environment): (r: Result<Option<string>>)
    ensures !Computed(k) ==> ResourceKey(k).Some? && r == Success(Stored(c, ResourceKey(k).value))
    ensures k == DbSchema ==> r.Success? && (r.value.None? <==> c.mode == Normal && c.db.schema.None?)
    ensures k == DbSchema && c.db.schema.Some? ==> r == Success(Some(c.db.schema.value + SchemaSuffix(c.mode)))
  {
    match k
    case DbConnectionUrl => Success(c.db.connectionUrl)
    case NameInDatabase => NameInDb(c, env)
    case DbUsername => UserName(c, env)
    case DbPassword => Password(c, env)
    case DbDriver => Success(c.db.driverName)
    case DbSchema =>
      // Only the suffixed schemas are built by concatenation, which turns a null schema
      // into the text "null"; the normal mode hands the schema back as it is.
      if c.mode == Normal then
        assert c.db.schema.Some? ==> c.db.schema.value + SchemaSuffix(Normal) == c.db.schema.value;
        Success(c.db.schema)
      else Success(Some(JavaText.NullText(c.db.schema) + SchemaSuffix(c.mode)))
    case _ => Success(StoredKey(c, k))
  }

  /** A stored key reads back what was last set for it. */
  lemma SetThenGet(c: Config, k: Key, v: string, env: Environment)
    requires !Computed(k) && ResourceKey(k).Some?
    ensures SetProperty(c, k, Some(v)).Success?
    ensures GetProperty(SetProperty(c, k, Some(v)).value, k, env) == Success(Some(v))
  {
  }

  /** Setting a key leaves every key stored under another name as it was. */
  lemma SetKeepsOthers(c: Config, k: Key, v: string, k2: Key, env: Environment)
    requires ResourceKey(k).Some? && !Computed(k2) && ResourceKey(k2) != ResourceKey(k)
    ensures GetProperty(SetProperty(c, k, Some(v)).value, k2, env) == GetProperty(c, k2, env)
  {
  }

  /** The computed keys cannot be set. */
  lemma ComputedNotSettable(c: Config, v: Option<string>)
    ensures SetProperty(c, DbUsername, v).Failure?
    ensures SetProperty(c, DbPassword, v).Failure?
    ensures SetProperty(c, NameInDatabase, v).Failure?
  {
  }

  /** The schema is the database schema with the mode's suffix, so the three modes use
      three different schemas; in the normal mode it is the database schema itself, null
      included. */
  lemma SchemaPerMode(c: Config, env: Environment, m1: Mode, m2: Mode)
    requires m1 != m2
    ensures GetProperty(c.(mode := m1), DbSchema, env) != GetProperty(c.(mode := m2), DbSchema, env)
    ensures c.mode == Normal ==> GetProperty(c, DbSchema, env) == Success(c.db.schema)
  {
    var base := JavaText.NullText(c.db.schema);
    assert base + [] == base;
    var r1, r2 := GetProperty(c.(mode := m1), DbSchema, env), GetProperty(c.(mode := m2), DbSchema, env);
    if r1.value.Some? && r2.value.Some? {
      assert r1.value.value == base + SchemaSuffix(m1);
      assert r2.value.value == base + SchemaSuffix(m2);
      assert |SchemaSuffix(m1)| != |SchemaSuffix(m2)|;
    }
  }

  /** With the password option `NONE` there is no password; with `USER_SPECIFIED` the
      password is the one set as the specified password. */
  lemma PasswordFromOption(c: Config, p: string, env: Environment)
    ensures var c1 := SetProperty(c, DbPasswordOption, Some("NONE")).value;
            GetProperty(c1, DbPassword, env) == Success(None)
    ensures var c1 := SetProperty(c, DbPasswordOption, Some("USER_SPECIFIED")).value;
            var c2 := SetProperty(c1, DbPasswordSpecified, Some(p)).value;
            GetProperty(c2, DbPassword, env) == Success(Some(p))
  {
    assert "database.password" != "database.password.specified";
  }

  /** Without a password option the password cannot be read. */
  lemma PasswordUnset(c: Config, env: Environment)
    requires "database.password" !in c.properties
    ensures GetProperty(c, DbPassword, env).Failure?
  {
  }

  /** The copy constructor: the same database settings, mode and properties. */
  function Copy(other: Config): (r: Config)
  {
    Config(other.db, other.mode, map name | name in other.properties :: other.properties[name])
  }

  /** `updateFrom(other)`: the properties replaced by the other's; the database settings
      and mode stay. */
  function UpdateFrom(c: Config, other: Config): (r: Config)
    ensures r.db == c.db && r.mode == c.mode
  {
    c.(properties := map name | name in other.properties :: other.properties[name])
  }

  /** After an update every stored key reads as it does in the source of the update, and
      a copy reads as the original for every key. */
  lemma UpdateFromReads(c: Config, other: Config, k: Key, env: Environment)
    ensures !Computed(k) ==> GetProperty(UpdateFrom(c, other), k, env) == GetProperty(other, k, env)
    ensures GetProperty(Copy(other), k, env) == GetProperty(other, k, env)
  {
    assert UpdateFrom(c, other).properties == other.properties;
    assert Copy(other) == other;
  }

  const ConfigDirectory := ".PMAT"
  const ConfigExtension := ".cfg.xml"

  function ModeFile(m: Mode): string {
    match m
    case Normal => "user"
    case Development => "dev"
    case Test => "test"
  }

  /** `configFileName()`: the mode's file in the configuration directory. */
  function ConfigFileName(m: Mode): (r: string)
    ensures JavaText.StartsWith(r, ConfigDirectory + "/")
    ensures JavaText.EndsWith(r, ConfigExtension)
  {
    var r := ConfigDirectory + "/" + ModeFile(m) + ConfigExtension;
    assert r[..|ConfigDirectory + "/"|] == ConfigDirectory + "/";
    assert r[|r| - |ConfigExtension|..] == ConfigExtension;
    r
  }

  /** Each mode has a file of its own. */
  lemma ConfigFileNamesDistinct(m1: Mode, m2: Mode)
    requires m1 != m2
    ensures ConfigFileName(m1) != ConfigFileName(m2)
  {
    var a, b := ConfigFileName(m1), ConfigFileName(m2);
    if |a| == |b| {
      assert {m1, m2} == {Normal, Test};
      assert a[6] != b[6];
    }
  }
}
