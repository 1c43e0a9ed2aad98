# Set-Cookie and table-driven dissectors, modelled in Dafny

This project models two leaf dissectors of a log-parsing framework. A
dissector takes one typed raw value out of a parsed record and adds named,
typed sub-fields ("dissections") back into that record.

- **ResponseSetCookieDissector** accepts the input type `HTTP.SETCOOKIE`.
  It advertises four STRING outputs. It answers every cast negotiation with
  "string only". In `dissect` it reads the field's value and returns at once
  when the value is null or empty. Otherwise it has the header parsed into
  cookies. For each cookie, in order, it adds five STRING dissections:
  `value`, `expires`, `path`, `domain` and `comment`. `expires` is the
  decimal text of `nowSeconds + maxAge`, and `nowSeconds` is read from the
  clock once per call.
- **UltimateDummyDissector** is a test dissector driven by a table. A static
  table maps six `"<TYPE>:<name>"` keys to cast sets, and every instance
  shares it. An instance holds only its input type. That type is `"INPUT"`
  by default, or the constructor's argument. `initializeFromSettingsParameter`
  overwrites it with the settings string and always succeeds.

Layout:

- `casts.dfy` (module `Casts`): the representations STRING, LONG and DOUBLE,
  and the four named cast sets.
- `record.dfy` (module `Record`): the record a dissector writes into. The
  class `Parsable` holds the raw field values and the sequence of
  `(inputname, type, name, value)` dissections added so far.
- `decimal.dfy` (module `Decimal`): `Long.toString` as `DecimalString`,
  with the inverse parser `ParseDecimal` and a round-trip proof.
- `set_cookie.dfy` (module `SetCookie`): the Set-Cookie dissector. Its
  constant answers are functions. `dissect` is a method whose loop appends to
  the record. `Emitted` and `Added` are the functions that specify it.
- `dummy_dissector.dfy` (module `DummyDissector`): the static table, built
  as the six successive `put` calls (`PutAll`). The class has a mutable
  `inputType` field and a `config` constant that refers to the shared table.

Behaviour of the code worth knowing, all stated in the model:

- A missing path, domain or comment stays null (`None`); it is not
  defaulted to empty text.
- `comment` is emitted for every cookie but is not among the outputs
  `getPossibleOutput` advertises. See Findings.
- `dissect` itself never raises a dissection failure; only the cookie
  parser can throw.
- An absent Max-Age is not special-cased; the parser's `maxAge` is added to
  the clock reading as is.

## Model

| member | source | states |
|---|---|---|
| `Casts.NamedCastSetsAdmitString` | parser-core/src/test/java/nl/basjes/parse/core/test/UltimateDummyDissector.java:32-37 | every named cast set (STRING_ONLY, STRING_OR_LONG, STRING_OR_DOUBLE, STRING_OR_LONG_OR_DOUBLE) contains STRING |
| `Decimal.DecimalString` | httpdlog/httpdlog-parser/src/main/java/nl/basjes/parse/httpdlog/dissectors/ResponseSetCookieDissector.java:97-98 | the text `Long.toString` gives: a leading '-' exactly for negative numbers, then decimal digits with no leading zero (the number 0 is exactly "0") |
| `Decimal.DecimalRoundTrip` | httpdlog/httpdlog-parser/src/main/java/nl/basjes/parse/httpdlog/dissectors/ResponseSetCookieDissector.java:97-98 | reading the `expires` text back with `ParseDecimal` gives the number it was made from, for every integer |
| `Decimal.DecimalStringInjective` | httpdlog/httpdlog-parser/src/main/java/nl/basjes/parse/httpdlog/dissectors/ResponseSetCookieDissector.java:97-98 | two `expires` texts are equal exactly when their numbers are equal |
| `SetCookie.InputType` | httpdlog/httpdlog-parser/src/main/java/nl/basjes/parse/httpdlog/dissectors/ResponseSetCookieDissector.java:33-38 | the accepted input type is always `"HTTP.SETCOOKIE"` |
| `SetCookie.PossibleOutput` | httpdlog/httpdlog-parser/src/main/java/nl/basjes/parse/httpdlog/dissectors/ResponseSetCookieDissector.java:42-51 | the advertised outputs are four distinct entries, the i-th being `"STRING:"` plus the i-th emitted name (value, expires, path, domain), and `"STRING:comment"` is not among them |
| `SetCookie.InitializeFromSettingsParameter` | httpdlog/httpdlog-parser/src/main/java/nl/basjes/parse/httpdlog/dissectors/ResponseSetCookieDissector.java:55-58 | every settings string is accepted; as a function of the string alone it changes nothing |
| `SetCookie.PrepareForDissect` | httpdlog/httpdlog-parser/src/main/java/nl/basjes/parse/httpdlog/dissectors/ResponseSetCookieDissector.java:68-72 | for every (input, output) pair, advertised or not, the cast set is STRING_ONLY: STRING and neither LONG nor DOUBLE |
| `SetCookie.DissectionType` | httpdlog/httpdlog-parser/src/main/java/nl/basjes/parse/httpdlog/dissectors/ResponseSetCookieDissector.java:107-113 | every dissection's type is `"STRING"`, whatever the base name and name |
| `SetCookie.NowSeconds` | httpdlog/httpdlog-parser/src/main/java/nl/basjes/parse/httpdlog/dissectors/ResponseSetCookieDissector.java:92 | the clock reading in whole seconds, truncated toward zero as Java's `long` division does (bounds on both sides for either sign) |
| `SetCookie.CookieGroupFacts` | httpdlog/httpdlog-parser/src/main/java/nl/basjes/parse/httpdlog/dissectors/ResponseSetCookieDissector.java:96-101 | about `CookieGroup`, the five `addDissection` calls of one iteration: one cookie yields five STRING dissections of the same input named value, expires, path, domain, comment in that order; `expires` is exactly `Long.toString` of clock + Max-Age and reads back as that number; value, path, domain and comment are copied without defaulting |
| `SetCookie.Emitted` | httpdlog/httpdlog-parser/src/main/java/nl/basjes/parse/httpdlog/dissectors/ResponseSetCookieDissector.java:95-102 | the loop over n parsed cookies adds exactly 5·n dissections |
| `SetCookie.EmittedUniform` | httpdlog/httpdlog-parser/src/main/java/nl/basjes/parse/httpdlog/dissectors/ResponseSetCookieDissector.java:95-102 | every dissection of one call carries the call's input name and type `"STRING"` |
| `SetCookie.EmittedGroup` | httpdlog/httpdlog-parser/src/main/java/nl/basjes/parse/httpdlog/dissectors/ResponseSetCookieDissector.java:95-102 | dissections 5i to 5i+4 are exactly the i-th parsed cookie's group, so groups appear in parse order and do not interleave |
| `SetCookie.CookieDissections` | httpdlog/httpdlog-parser/src/main/java/nl/basjes/parse/httpdlog/dissectors/ResponseSetCookieDissector.java:92-101 | for the i-th cookie: value, path, domain and comment equal the cookie's own; `expires` is the decimal text of, and reads back as, the single shared clock reading plus that cookie's Max-Age |
| `SetCookie.ClockShift` | httpdlog/httpdlog-parser/src/main/java/nl/basjes/parse/httpdlog/dissectors/ResponseSetCookieDissector.java:92-98 | the same cookies dissected at two clock readings give identical value, path, domain and comment; each `expires` differs by exactly the difference of the readings |
| `SetCookie.Added` | httpdlog/httpdlog-parser/src/main/java/nl/basjes/parse/httpdlog/dissectors/ResponseSetCookieDissector.java:84-93 | a null or empty field value adds nothing; a non-empty one adds five dissections per parsed cookie |
| `SetCookie.Dissect` | httpdlog/httpdlog-parser/src/main/java/nl/basjes/parse/httpdlog/dissectors/ResponseSetCookieDissector.java:83-103 | the record afterwards is the old record followed by `Added` of the field's value: unchanged for a null or empty value, otherwise the cookies' groups appended in order |
| `SetCookie.TwoCookieExample` | httpdlog/httpdlog-parser/src/main/java/nl/basjes/parse/httpdlog/dissectors/ResponseSetCookieDissector.java:84-102 | cookies ("1", Max-Age 60) and ("2", Max-Age -1, path "/x", domain "example.com") at second 1000 give ten dissections: expires "1060" and "999", and null for unset attributes |
| `SetCookie.CommentNotAdvertised` | httpdlog/httpdlog-parser/src/main/java/nl/basjes/parse/httpdlog/dissectors/ResponseSetCookieDissector.java:44-51 | as written, any call that finds a cookie adds a dissection whose `TYPE:name` (`STRING:comment`) is not advertised |
| `SetCookie.CompletePossibleOutput` | httpdlog/httpdlog-parser/src/main/java/nl/basjes/parse/httpdlog/dissectors/ResponseSetCookieDissector.java:44-51 | the corrected output list: one distinct `"STRING:"` entry per emitted name, in emission order, extending the written list by `comment` |
| `SetCookie.EmittedAdvertised` | httpdlog/httpdlog-parser/src/main/java/nl/basjes/parse/httpdlog/dissectors/ResponseSetCookieDissector.java:95-102 | with the corrected list, every dissection any call adds is advertised |
| `DummyDissector.PutAll` | parser-core/src/test/java/nl/basjes/parse/core/test/UltimateDummyDissector.java:30-38 | successive `put` calls on an empty map leave exactly the put keys |
| `DummyDissector.PutAllLookup` | parser-core/src/test/java/nl/basjes/parse/core/test/UltimateDummyDissector.java:32-37 | when no key is put twice, each key maps to the cast set it was put with |
| `DummyDissector.DissectorConfigContents` | parser-core/src/test/java/nl/basjes/parse/core/test/UltimateDummyDissector.java:30-38 | the table has exactly the keys ANY:any, STRING:string, INT:int, LONG:long, FLOAT:float, DOUBLE:double, mapped to STRING_OR_LONG_OR_DOUBLE, STRING_ONLY, STRING_OR_LONG, STRING_OR_LONG, STRING_OR_DOUBLE, STRING_OR_DOUBLE |
| `DummyDissector.ConfigAdmitsString` | parser-core/src/test/java/nl/basjes/parse/core/test/UltimateDummyDissector.java:32-37 | every cast set in the table contains STRING and is one of the named sets |
| `DummyDissector.UltimateDummyDissector.constructor` | parser-core/src/test/java/nl/basjes/parse/core/test/UltimateDummyDissector.java:40-42 | the no-argument constructor sets the input type to `"INPUT"` and uses the shared table |
| `DummyDissector.UltimateDummyDissector.WithInputType` | parser-core/src/test/java/nl/basjes/parse/core/test/UltimateDummyDissector.java:44-46 | the one-argument constructor sets the input type to its argument and uses the same shared table |
| `DummyDissector.UltimateDummyDissector.InitializeFromSettingsParameter` | parser-core/src/test/java/nl/basjes/parse/core/test/UltimateDummyDissector.java:48-52 | always returns true; afterwards the input type is the settings string verbatim and the table is the shared one |
| `DummyDissector.SharedConfig` | parser-core/src/test/java/nl/basjes/parse/core/test/UltimateDummyDissector.java:30-46 | any two instances, however built or reconfigured, see the same table |

## Left out

- `java.net.HttpCookie.parse` (the Set-Cookie grammar) is not part of this model. `Dissect` receives it as the total function `parse`. The exception it throws on a malformed header is not modelled, and neither is how it picks `maxAge` for an absent Max-Age.
- `System.currentTimeMillis()` is wall-clock input; it is the parameter `clockMillis`.
- SetCookie.Dissect: `nowSeconds + maxAge` is computed on unbounded integers. Java's 64-bit `long` wrap-around for sums beyond its range is not modelled.
- SetCookie.NowSeconds: the millisecond reading is an unbounded integer, not a Java `long`.
- SetCookie.DissectionType: `getDissectionType` is meant to be overridden by subclasses; subclass overrides are not modelled, so every type is `"STRING"` and `PossibleOutput` uses the `STRING:` prefix.
- `initializeNewInstance` and `prepareForRun` of the Set-Cookie dissector have empty bodies. The modelled dissector has no state for them to change.
- The framework classes `Dissector`, `SimpleDissector`, `Parsable`, `ParsedField` and `Casts` are not part of this model. `Record.Parsable` is a minimal stand-in: a map of raw values and a sequence of added dissections.
- A field that `getParsableField` does not find at all (Java would fail with a null dereference) is treated like a null value, so nothing is added.
- How `SimpleDissector` derives the dummy dissector's advertised outputs, cast negotiation and input-type getter from the table is not shown. It is not modelled.
- `HashMap` iteration order is unspecified, so no order of the table's keys is stated.
- `UltimateDummyDissector` is an abstract Java class. It is modelled as a concrete class because none of its shown members is abstract.
- Thread safety of the static table, and concurrency in the engine, are left out; the shown code has no concurrency logic.

## Findings

| source | as written | input that shows it | evidently intended | confidence | as-written member | corrected member |
|---|---|---|---|---|---|---|
| httpdlog/httpdlog-parser/src/main/java/nl/basjes/parse/httpdlog/dissectors/ResponseSetCookieDissector.java:44-51 | `getPossibleOutput` lists `STRING:value`, `STRING:expires`, `STRING:path` and `STRING:domain`, but `dissect` also adds `comment` (line 101) | any non-empty Set-Cookie value that parses into at least one cookie, e.g. `a=1`: its fifth dissection `STRING:comment` is not advertised | `STRING:comment` advertised too, so that every output a call can produce is declared ahead of time | not executed; the asymmetry is certain, its effect on the engine is not shown | `SetCookie.CommentNotAdvertised` | `SetCookie.EmittedAdvertised` |
