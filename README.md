# OpenSearchLocalConf, modelled in Dafny

This project models the connection configuration of Dremio's OpenSearch JDBC
source, `OpenSearchLocalConf`. That class holds ten user-supplied fields. The
configuration framework checks two of them against declared constraints. The
class turns the fields into a JDBC connection string and a bag of driver
properties, and hands both to a generic connection-pool factory. Every instance
shares one SQL dialect.

Files:

- `java_text.dfy` (module `JavaText`) models the java.lang behaviour the class
  depends on. That covers nullable strings, `String.trim()` and the `%d`
  conversion of `String.format`. It also holds `lastIndexOf(char)`, which the
  connection-string parser uses. `trim()` and `%d` each have an independent
  partner: the character-level meaning of trimming for `trim()`, and a decimal
  parser with round-trip lemmas in both directions for `%d`.
- `opensearch_local_conf.dfy` (module `OpenSearchLocalConf`) holds the
  configuration itself:
  - a `Config` datatype and its defaults;
  - the `Valid` predicate for the field constraints;
  - `ConnectionString`, with a parser and lemmas showing that the string
    carries only the host and the port;
  - `NewDataSource`, a method that fills the property map one `put` at a time
    and returns the recorded pool-factory call as a `PoolRequest`;
  - the shared dialect and `BuildPluginConfig`.

`Config` is a value, not a class, because no method of the Java class writes
its fields: the framework sets them when it deserializes a configuration. So
building a data source never changes a configuration field. The model holds
this by construction.

The connection string keeps the trailing space the source writes
(`"jdbc:opensearch://%s:%d "`). A null hostname prints as `null`, as `%s` does.

## Model

| member | source | states |
|---|---|---|
| `JavaText.Trim` | src/main/java/com/dremio/exec/store/jdbc/conf/OpenSearchLocalConf.java:121 | `trim()` yields the empty string exactly when every char is at or below U+0020; otherwise the result starts and ends with a char above U+0020 and is no longer than the input |
| `JavaText.TrimOfPadded` | src/main/java/com/dremio/exec/store/jdbc/conf/OpenSearchLocalConf.java:121 | `trim()` removes exactly the blank padding on both sides and keeps the core, interior blanks included |
| `JavaText.TrimIdempotent` | src/main/java/com/dremio/exec/store/jdbc/conf/OpenSearchLocalConf.java:121 | trimming an already trimmed string changes nothing |
| `JavaText.NatToDecimal` | src/main/java/com/dremio/exec/store/jdbc/conf/OpenSearchLocalConf.java:99 | the digits of a natural number are non-empty, all decimal digits, and have no leading zero: zero prints as `0` alone |
| `JavaText.DecimalRoundTrip` | src/main/java/com/dremio/exec/store/jdbc/conf/OpenSearchLocalConf.java:99 | reading the digits back gives the number again |
| `JavaText.FormatDecimal` | src/main/java/com/dremio/exec/store/jdbc/conf/OpenSearchLocalConf.java:99 | `%d` of an int is a minus sign exactly for negative values, followed by digits, and always ends in a digit; it has no leading zero (zero prints as `0`) and never prints `-0` |
| `JavaText.FormatDecimalRoundTrip` | src/main/java/com/dremio/exec/store/jdbc/conf/OpenSearchLocalConf.java:99 | the `%d` text of every int parses back to that int under a parser that accepts only the canonical form (no leading zero, no `-0`) |
| `JavaText.CanonicalUnique` | src/main/java/com/dremio/exec/store/jdbc/conf/OpenSearchLocalConf.java:99 | a digit string without leading zeros is exactly the digits printed for its value |
| `JavaText.ParseDecimalOnlyFormatted` | src/main/java/com/dremio/exec/store/jdbc/conf/OpenSearchLocalConf.java:99 | any text that parses as an int is that int's `%d` text, so `%d` gives each int one spelling |
| `OpenSearchLocalConf.ValidIff` | src/main/java/com/dremio/exec/store/jdbc/conf/OpenSearchLocalConf.java:49-58 | a configuration is valid exactly when the hostname is non-null with a char above U+0020 and 1 <= port <= 65535 |
| `OpenSearchLocalConf.DefaultsValidOnceHostnameSet` | src/main/java/com/dremio/exec/store/jdbc/conf/OpenSearchLocalConf.java:49-94 | with the field defaults (port 9200, fetchSize 0, useSSL true, trustSelfSigned false, hostnameVerification true, maxIdleConns 8, idleTimeSec 60, null strings) the configuration is invalid, and it becomes valid exactly when a non-blank hostname is set |
| `OpenSearchLocalConf.RejectedExamples` | src/main/java/com/dremio/exec/store/jdbc/conf/OpenSearchLocalConf.java:49-58 | an empty or all-blank hostname is rejected; port 70000 and port 0 are rejected; `es.local` with the default port is accepted |
| `OpenSearchLocalConf.ConnectionString` | src/main/java/com/dremio/exec/store/jdbc/conf/OpenSearchLocalConf.java:97-100 | the connection string starts with `jdbc:opensearch://` and ends in one space preceded by a digit of the port |
| `OpenSearchLocalConf.ConnectionStringRoundTrip` | src/main/java/com/dremio/exec/store/jdbc/conf/OpenSearchLocalConf.java:97-100 | splitting the connection string at its last colon gives back exactly the printed hostname and the port |
| `OpenSearchLocalConf.ConnectionStringOnlyHostAndPort` | src/main/java/com/dremio/exec/store/jdbc/conf/OpenSearchLocalConf.java:97-100 | two configurations have the same connection string if and only if they have the same printed hostname and the same port, so no other field reaches the URL |
| `OpenSearchLocalConf.ConnectionStringExample` | src/main/java/com/dremio/exec/store/jdbc/conf/OpenSearchLocalConf.java:99 | host `es.local` with port 9201 gives `jdbc:opensearch://es.local:9201 ` |
| `OpenSearchLocalConf.CredentialsUsableIffNotBlank` | src/main/java/com/dremio/exec/store/jdbc/conf/OpenSearchLocalConf.java:121 | the credential test holds exactly when both username and password pass the same not-blank test as the hostname |
| `OpenSearchLocalConf.CredentialExamples` | src/main/java/com/dremio/exec/store/jdbc/conf/OpenSearchLocalConf.java:121 | admin/secret is usable, and so are padded values; an empty, blank or null username or password is not |
| `OpenSearchLocalConf.NewDataSource` | src/main/java/com/dremio/exec/store/jdbc/conf/OpenSearchLocalConf.java:115-128 | the properties always hold `useSSL`, `trustSelfSigned` and `hostnameVerification` as booleans equal to the fields. `user` and `password` are added together, with the untrimmed values, exactly when both credentials are non-null and non-blank after trimming. No other key is set. The pool factory gets the fixed driver, the connection string, null user and password, the driver-specified commit mode, and `maxIdleConns` and `idleTimeSec` unchanged |
| `OpenSearchLocalConf.GetDialectSingleton` | src/main/java/com/dremio/exec/store/jdbc/conf/OpenSearchLocalConf.java:135-138 | the static accessor returns the shared dialect loaded from `arp/implementation/opensearchlocal-arp.yaml` |
| `OpenSearchLocalConf.GetDialect` | src/main/java/com/dremio/exec/store/jdbc/conf/OpenSearchLocalConf.java:130-133 | every instance returns the same dialect as the static accessor, whatever its fields |
| `OpenSearchLocalConf.BuildPluginConfig` | src/main/java/com/dremio/exec/store/jdbc/conf/OpenSearchLocalConf.java:104-113 | the builder is given the shared dialect, the configured fetch size, and this configuration as its data-source factory |

## Left out

- The connection-pool factory (`DataSources.newGenericConnectionPoolDataSource`) and the `CloseableDataSource` it returns are not modelled. They do network I/O and manage threads. `NewDataSource` returns the factory's arguments as a `PoolRequest`. Failures raised by the factory are not modelled either.
- The dialect is opaque. `AbstractArpConf.loadArpFile` and the contents of `ArpDialect` are resource loading and YAML parsing in code that is not part of this model. The dialect is represented only by the file it is loaded from.
- GetDialect: Java returns one shared object, compared by reference. The model states equality of values, not object identity.
- BuildPluginConfig: the `JdbcPluginConfig.Builder` chain is a foreign builder. The model keeps only what the chain is given. The unused `CredentialsService` and `OptionManager` arguments are dropped. The deferred callback `this::newDataSource` is represented by the configuration it would run on. In Java the callback holds a reference to an object with public fields, so a later write to a field reaches the callback. The model freezes the field values at the time `BuildPluginConfig` runs and does not capture that aliasing.
- Serialization and UI metadata annotations (`@Tag`, `@DisplayMetadata`, `@Secret`, `@NotMetadataImpacting`, `@SourceType`) are not modelled. They have no behaviour in this class.
- Thread-safety is not modelled: neither the static dialect initialisation nor concurrent `newDataSource` calls.
- NotBlank: `@NotBlank` is modelled as Hibernate Validator checks it, "not null and `trim()` leaves something". Bean Validation's wording speaks of whitespace characters, and that notion of Unicode whitespace is not modelled.
- FormatDecimal: `%d` is modelled with ASCII digits and no grouping. That is what Java prints in any locale whose zero digit is `0`. Locales with other native digits are not modelled.
- Trim: Java strings are UTF-16 code units, while Dafny chars are Unicode scalar values. Surrogates all lie above U+0020, so `trim()` keeps or drops the same characters in both.
