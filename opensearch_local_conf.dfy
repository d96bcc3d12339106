/**
 The connection configuration of the OpenSearch source (`OpenSearchLocalConf`):
 its ten fields with their defaults, the constraints the configuration framework
 checks on them, the JDBC connection string, the driver properties assembled by
 `newDataSource` together with the arguments it hands to the connection-pool
 factory, and the dialect shared by every instance.
 */
module OpenSearchLocalConf {
  import opened JavaText

  /** A Java `int`. */
  newtype int32 = x: int | -0x8000_0000 <= x < 0x8000_0000

  const ArpFileName: string := "arp/implementation/opensearchlocal-arp.yaml"
  const Driver: string := "org.opensearch.jdbc.Driver"
  const UrlPrefix: string := "jdbc:opensearch://"

  const MinPort: int32 := 1
  const MaxPort: int32 := 65535

  /** The fields of one configured source, in their declaration order. */
  datatype Config = Config(
    hostname: JavaString,
    port: int32,
    fetchSize: int32,
    username: JavaString,
    password: JavaString,
    useSSL: bool,
    trustSelfSigned: bool,
    hostnameVerification: bool,
    maxIdleConns: int32,
    idleTimeSec: int32)

  /** A freshly constructed instance: the field initialisers, and null where a field has none. */
  const Default: Config := Config(
    hostname := Null,
    port := 9200,
    fetchSize := 0,
    username := Null,
    password := Null,
    useSSL := true,
    trustSelfSigned := false,
    hostnameVerification := true,
    maxIdleConns := 8,
    idleTimeSec := 60)

  // ---------------------------------------------------------------------------
  // Field constraints
  // ---------------------------------------------------------------------------

  /** `@NotBlank`: not null, and something is left after trimming. */
  predicate NotBlank(s: JavaString) {
    s.Str? && Trim(s.value) != []
  }

  /** The declared constraints: `@NotBlank` hostname, `@Min(1) @Max(65535)` port. */
  predicate Valid(c: Config) {
    NotBlank(c.hostname) && MinPort <= c.port <= MaxPort
  }

  /** Valid, stated on characters: a hostname with a char above U+0020 and a TCP port number. */
  lemma ValidIff(c: Config)
    ensures Valid(c) <==>
      && c.hostname.Str?
      && (exists k :: 0 <= k < |c.hostname.value| && !IsTrimmable(c.hostname.value[k]))
      && 1 <= c.port as int <= 65535
  {
  }

  /** The defaults satisfy every constraint except the hostname, which has no default. */
  lemma DefaultsValidOnceHostnameSet(h: JavaString)
    ensures !Valid(Default)
    ensures Valid(Default.(hostname := h)) <==> NotBlank(h)
  {
  }

  /**
   An empty hostname, an all-blank hostname, port 70000 and port 0 are each
   rejected; `es.local` on the default port is accepted.
   */
  lemma RejectedExamples()
    ensures !Valid(Default.(hostname := Str("")))
    ensures !Valid(Default.(hostname := Str("   ")))
    ensures !Valid(Default.(hostname := Str("es.local"), port := 70000))
    ensures !Valid(Default.(hostname := Str("es.local"), port := 0))
    ensures Valid(Default.(hostname := Str("es.local")))
  {
  }

  // ---------------------------------------------------------------------------
  // Connection string
  // ---------------------------------------------------------------------------

  /** What `%s` prints for a possibly null string. */
  function HostText(h: JavaString): string {
    match h
    case Null => "null"
    case Str(s) => s
  }

  /** `toJdbcConnectionString`: the URL prefix, host, a colon, the port in decimal and one space. */
  function ConnectionString(c: Config): (url: string)
    ensures |url| >= |UrlPrefix| + 3
    ensures url[..|UrlPrefix|] == UrlPrefix
    ensures url[|url| - 1] == ' ' && IsDigit(url[|url| - 2])
  {
    UrlPrefix + HostText(c.hostname) + ":" + FormatDecimal(c.port as int) + " "
  }

  /** The host and port a connection string names. */
  datatype Endpoint = Endpoint(host: string, port: int)

  /**
   Reads a connection string back: the prefix, then everything up to the last
   colon as the host, a decimal port, and one final space.
   */
  function ParseConnectionString(url: string): Option<Endpoint> {
    if |url| < |UrlPrefix| + 1 || url[..|UrlPrefix|] != UrlPrefix || url[|url| - 1] != ' ' then None
    else
      var authority := url[|UrlPrefix|..|url| - 1];
      var colon := LastIndexOf(authority, ':');
      if colon < 0 then None
      else
        match ParseDecimal(authority[colon + 1..])
        case None => None
        case Some(p) => Some(Endpoint(authority[..colon], p))
  }

  /** The connection string carries the host and the port and nothing else. */
  lemma ConnectionStringRoundTrip(c: Config)
    ensures ParseConnectionString(ConnectionString(c)) == Some(Endpoint(HostText(c.hostname), c.port as int))
  {
    var url := ConnectionString(c);
    var host := HostText(c.hostname);
    var digits := FormatDecimal(c.port as int);
    var authority := url[|UrlPrefix|..|url| - 1];
    assert authority == host + ":" + digits;
    var colon := LastIndexOf(authority, ':');
    assert authority[|host|] == ':';
    forall k | |host| < k < |authority| ensures authority[k] != ':' {
      assert authority[k] == digits[k - |host| - 1];
    }
    assert colon == |host|;
    assert authority[colon + 1..] == digits;
    assert authority[..colon] == host;
    FormatDecimalRoundTrip(c.port as int);
  }

  /** Two configurations give the same connection string exactly when they name the same host text and port. */
  lemma ConnectionStringOnlyHostAndPort(c1: Config, c2: Config)
    ensures ConnectionString(c1) == ConnectionString(c2) <==>
      HostText(c1.hostname) == HostText(c2.hostname) && c1.port == c2.port
  {
    if ConnectionString(c1) == ConnectionString(c2) {
      ConnectionStringRoundTrip(c1);
      ConnectionStringRoundTrip(c2);
    }
  }

  /** Host es.local on port 9201 gives the URL with that host, port and trailing space. */
  lemma ConnectionStringExample()
    ensures ConnectionString(Default.(hostname := Str("es.local"), port := 9201)) == "jdbc:opensearch://es.local:9201 "
  {
  }

  // ---------------------------------------------------------------------------
  // Driver properties and the pool-factory call
  // ---------------------------------------------------------------------------

  /** A value in the driver's `Properties`: a boxed `Boolean` or a `String`. */
  datatype PropValue = BoolV(b: bool) | StrV(s: string)

  const UseSslKey: string := "useSSL"
  const TrustSelfSignedKey: string := "trustSelfSigned"
  const HostnameVerificationKey: string := "hostnameVerification"
  const UserKey: string := "user"
  const PasswordKey: string := "password"

  const FlagKeys: set<string> := {UseSslKey, TrustSelfSignedKey, HostnameVerificationKey}
  const CredentialKeys: set<string> := {UserKey, PasswordKey}

  /** The pool factory's commit-mode argument; this source always passes the driver's own. */
  datatype CommitMode = DriverSpecifiedCommitMode

  /** The arguments of one call to the generic connection-pool factory. */
  datatype PoolRequest = PoolRequest(
    driver: string,
    url: string,
    user: JavaString,
    password: JavaString,
    properties: map<string, PropValue>,
    commitMode: CommitMode,
    maxIdleConns: int32,
    idleTimeSec: int32)

  /** Credentials are sent when both are present and each holds a char above U+0020. */
  predicate HasUsableCredentials(username: JavaString, password: JavaString) {
    && username.Str? && (exists k :: 0 <= k < |username.value| && !IsTrimmable(username.value[k]))
    && password.Str? && (exists k :: 0 <= k < |password.value| && !IsTrimmable(password.value[k]))
  }

  /** The credential test is the `@NotBlank` test applied to both halves. */
  lemma CredentialsUsableIffNotBlank(username: JavaString, password: JavaString)
    ensures HasUsableCredentials(username, password) <==> NotBlank(username) && NotBlank(password)
  {
  }

  /** Examples: admin/secret is usable; an empty, blank or missing half is not. */
  lemma CredentialExamples()
    ensures HasUsableCredentials(Str("admin"), Str("secret"))
    ensures HasUsableCredentials(Str(" admin "), Str("s e"))
    ensures !HasUsableCredentials(Str(""), Str("secret"))
    ensures !HasUsableCredentials(Str("admin"), Str(" \t "))
    ensures !HasUsableCredentials(Null, Str("secret"))
    ensures !HasUsableCredentials(Str("admin"), Null)
  {
    assert Str("admin").value[0] == 'a';
    assert Str("secret").value[0] == 's';
    assert Str(" admin ").value[1] == 'a';
    assert Str("s e").value[0] == 's';
    assert Str(" \t ").value[0] == ' ' && Str(" \t ").value[1] == '\t' && Str(" \t ").value[2] == ' ';
  }

  /**
   `newDataSource`: fills a fresh property map with the three flags and, when
   both credentials survive trimming, the untrimmed user name and password; then
   records the pool-factory call, which gets no separate user or password.
   */
  method NewDataSource(c: Config) returns (request: PoolRequest)
    ensures request.driver == Driver
    ensures request.url == ConnectionString(c)
    ensures request.user == Null && request.password == Null
    ensures request.commitMode == DriverSpecifiedCommitMode
    ensures request.maxIdleConns == c.maxIdleConns && request.idleTimeSec == c.idleTimeSec
    ensures request.properties.Keys ==
      FlagKeys + (if HasUsableCredentials(c.username, c.password) then CredentialKeys else {})
    ensures request.properties[UseSslKey] == BoolV(c.useSSL)
    ensures request.properties[TrustSelfSignedKey] == BoolV(c.trustSelfSigned)
    ensures request.properties[HostnameVerificationKey] == BoolV(c.hostnameVerification)
    ensures UserKey in request.properties <==> PasswordKey in request.properties
    ensures HasUsableCredentials(c.username, c.password) ==>
      && request.properties[UserKey] == StrV(c.username.value)
      && request.properties[PasswordKey] == StrV(c.password.value)
  {
    var properties: map<string, PropValue> := map[];
    properties := properties[UseSslKey := BoolV(c.useSSL)];
    properties := properties[TrustSelfSignedKey := BoolV(c.trustSelfSigned)];
    properties := properties[HostnameVerificationKey := BoolV(c.hostnameVerification)];
    if c.username != Null && Trim(c.username.value) != [] && c.password != Null && Trim(c.password.value) != [] {
      properties := properties[UserKey := StrV(c.username.value)];
      properties := properties[PasswordKey := StrV(c.password.value)];
    }
    request := PoolRequest(Driver, ConnectionString(c), Null, Null, properties,
      DriverSpecifiedCommitMode, c.maxIdleConns, c.idleTimeSec);
  }

  // ---------------------------------------------------------------------------
  // Dialect and plugin configuration
  // ---------------------------------------------------------------------------

  /** The SQL dialect, known only by the definition file it is loaded from. */
  datatype ArpDialect = ArpDialect(definitionFile: string)

  /** The one dialect value, loaded when the class is initialised. */
  const SharedDialect: ArpDialect := ArpDialect(ArpFileName)

  /** `getDialectSingleton`: the shared dialect, loaded from the source's ARP file. */
  function GetDialectSingleton(): (d: ArpDialect)
    ensures d.definitionFile == ArpFileName
  {
    SharedDialect
  }

  /** `getDialect`: whatever the instance, the same value as `getDialectSingleton`. */
  function GetDialect(c: Config): (d: ArpDialect)
    ensures d == GetDialectSingleton()
  {
    SharedDialect
  }

  /** What `buildPluginConfig` hands to the plugin-config builder. */
  datatype PluginConfig = PluginConfig(
    dialect: ArpDialect,
    fetchSize: int32,
    datasourceFactory: Config)  // `this::newDataSource`: the configuration whose NewDataSource runs later

  /** `buildPluginConfig`: the shared dialect, the configured fetch size and this configuration's factory. */
  function BuildPluginConfig(c: Config): (pc: PluginConfig)
    ensures pc.dialect == GetDialect(c) && pc.dialect.definitionFile == ArpFileName
    ensures pc.fetchSize == c.fetchSize
    ensures pc.datasourceFactory == c
  {
    PluginConfig(GetDialect(c), c.fetchSize, c)
  }
}
