# env: loading `KEY=VALUE` files into the environment, and typed getters

A Dafny model of the Go package `env` (csothen/env). Its `Parser` loads a
file of `KEY=VALUE` lines into the process environment (`Load`) and reads
values back as a string, a Go `int`, `int32`, `int64` or `bool`, falling back
to a caller-supplied default when the variable is unset, empty, or does not
parse. utils.go holds the same coercions as package-level helpers.

Modules, one per concern:

- `Wrappers` (wrappers.dfy): `Option` (a Go pointer that may be nil, or a
  `(value, err)` pair whose error is collapsed) and `Result`.
- `GoTypes` (gotypes.dfy): Go's `int32` and `int64` as newtypes; Go's `int`
  is taken to be 64 bits.
- `Strings` (strings.dfy): `strings.Split` on a one-character separator,
  proved against `Join` and `Count`.
- `Strconv` (strconv.dfy): the assumed behaviour of Go's
  `strconv.ParseInt(s, 10, bits)`, `strconv.Atoi` and `strconv.ParseBool`,
  written out as grammars, with `FormatInt` and `FormatBool` as inverses.
- `Os` (os.dfy): the assumed Unix behaviour of `os.Setenv` and
  `os.LookupEnv`. `Setenv` refuses an empty key, a key holding `=` or NUL,
  and a value holding NUL. `LookupEnv` reports an empty key as not set.
  An environment is valid when every entry is one `Setenv` would accept.
- `Utils` (utils.dfy): `toInt`, `toInt32`, `toInt64`, `toBool`, `loadEnv`.
- `Env` (env.dfy): the `Parser` class. Its `env` field is the process
  environment, a `map<string, string>`. Its invariant `Valid()` says that
  this environment is valid; the constructor requires it and `Load` keeps
  it. `Load` is a method that updates it in place, one line at a time. The getters are functions that only read it.
  A line's fate is `ParseLine`. `FirstRejected` is the index where loading
  stops. `Assign` is the old environment overridden by the accepted lines, in
  order.
- `EnvProperties` (env_properties.dfy): lemmas about loading, about reading
  back, and about the agreement of the `Parser` getters with utils.go.

How the loader treats a line:

- A line is split on EVERY `=`. It must give exactly two parts, so `K=a=b`
  is rejected with `ErrWrongFormat`. A value cannot contain `=`.
- Nothing is trimmed: the line " K = v " sets the key " K " to the value
  " v " (both spaces kept).
- A blank line is rejected with `ErrWrongFormat`, because splitting `""`
  gives one part. Blank lines are not skipped.
- A well-shaped line whose pair `os.Setenv` refuses (an empty key, as in
  `=v`, or a NUL in the key or the value) stops the load with `ErrSetenv`.
  As in Go, that error says only that the environment refused the write
  (`EINVAL`); the key and the value go to the log alone.
- There is no cache. Every getter reads the environment directly.

## Model

| member | source | states |
|---|---|---|
| `Strings.Split` | env.go:49 | `strings.Split` on `=` gives one more piece than there are `=` characters, and no piece contains `=` |
| `Strings.JoinSplit` | env.go:49 | joining the pieces of a split back with `=` gives the original line |
| `Strings.SplitJoin` | env.go:49 | splitting a join of `=`-free pieces gives those pieces back |
| `Os.SetenvOk` | env.go:55-59 | the pairs `os.Setenv` accepts: a non-empty key with no `=` or NUL, and a value with no NUL; an accepted key is never empty |
| `Os.LookupEnv` | env.go:170 | `os.LookupEnv` finds a key exactly when it is non-empty and set, and then gives its value |
| `Os.SetenvThenLookupEnv` | env.go:55 | a pair `Setenv` accepts is read back by `LookupEnv`, other keys keep what they had, and a valid environment stays valid |
| `Strconv.ParseDecimal` | env.go:100 | the decimal grammar: a result only for a string that starts with a digit or a sign, and a negative result only after `-` |
| `Strconv.ParseInt` | env.go:100 | `ParseInt(s, 10, bits)` succeeds only with a value inside the signed `bits` range, and that value is what the decimal grammar reads; a decimal it refuses is out of range |
| `Strconv.Atoi` | utils.go:9 | `strconv.Atoi` on 64 bits, fast path (1 to 18 characters, no range check) and slow path alike, equals `ParseInt(s, 10, 64)` |
| `Strconv.FastPathInRange` | utils.go:9 | a decimal of at most 18 characters always lies in the int64 range, which is why Atoi's fast path needs no range check |
| `Strconv.ParseFormatInt` | env.go:115 | every integer written in decimal parses back to itself |
| `Strconv.ParseIntFormatInt` | env.go:100-115 | the decimal spelling of a value is accepted by `ParseInt` exactly when the value fits the bit width, and then gives that value |
| `Strconv.LeadingZeros` | env.go:100 | leading zeros and a leading `+` do not change the value read |
| `Strconv.ParseBool` | env.go:160 | accepted exactly the six spellings of each boolean (the word in lower, upper and capitalised case, its first letter in either case, and the digit), and each gives the boolean it spells |
| `Strconv.ParseFormatBool` | env.go:160 | `ParseBool` reads back `true` and `false` as written by `FormatBool` |
| `Strconv.NumbersAreNotBools` | env.go:160 | no integer other than 0 and 1, written in decimal, is a boolean literal (so `8080` is not) |
| `Utils.ToInt` | utils.go:8-14 | the result is the default or the value the string denotes; a decimal within the int64 range gives its value; a non-decimal gives the default |
| `Utils.ToInt32` | utils.go:16-23 | the same with the int32 range |
| `Utils.ToInt64` | utils.go:25-32 | the same with the int64 range |
| `Utils.ToBool` | utils.go:52-59 | `1 t T TRUE true True` give true, `0 f F FALSE false False` give false, any other string gives the default |
| `Utils.LoadEnv` | utils.go:61-72 | nil exactly when the key is empty, unset, or set to the empty value, otherwise the stored value |
| `Utils.ToInt32FormatInt` | utils.go:16-23 | every int32 written in decimal is read back; every integer outside the int32 range gives the default |
| `Utils.ToInt64FormatInt` | utils.go:25-32 | the same for the int64 range |
| `Utils.ToIntFormatInt` | utils.go:8-14 | the same for Go's `int`, taken as 64 bits |
| `Utils.ToBoolFormatBool` | utils.go:52-59 | `FormatBool(b)` is read back as `b` |
| `Utils.ToBoolNumber` | utils.go:52-59 | a number other than 0 and 1, written in decimal, gives the default |
| `Env.ParseLine` | env.go:49-59 | a line is `ErrWrongFormat` exactly when it does not hold exactly one `=`; an accepted pair is one the environment takes |
| `Env.FirstRejected` | env.go:48-53 | the index where loading stops: every line before it is accepted and the line at it, if any, is not |
| `Env.FirstRejectedAt` | env.go:48-53 | that index is the unique one with all lines before it accepted and the line at it rejected |
| `Env.Assign` | env.go:48-60 | the effect of the accepted lines: the old environment overridden in order by their pairs; a valid environment stays valid |
| `Env.Parser.constructor` | env.go:31-34 | a parser over a given valid environment |
| `Env.Parser.Load` | env.go:38-68 | validity is kept; the environment becomes the old one overridden, in order, by the lines before the first rejected line; the error is nil when every line is accepted, otherwise that line's error (`ErrWrongFormat`, or `ErrSetenv` for a pair `Setenv` refuses) |
| `Env.Parser.LoadEnv` | env.go:169-182 | nil exactly when the key is unset or its value is empty, otherwise the stored value |
| `Env.Parser.String` | env.go:70-77 | the stored value verbatim when it is set and non-empty, the default otherwise; the result is empty only if the default is |
| `Env.Parser.Int` | env.go:79-92 | the stored value read as a 64-bit decimal when it parses, the default when it is unset, empty or does not parse |
| `Env.Parser.Int32` | env.go:94-107 | the same with the int32 range |
| `Env.Parser.Int64` | env.go:109-122 | the same with the int64 range |
| `Env.Parser.Bool` | env.go:154-167 | true for the true literals, false for the false literals, the default for an unset key or any other string |
| `EnvProperties.AcceptedLineIsVerbatim` | env.go:49-55 | an accepted line is exactly its key, one `=`, and its value: nothing is trimmed and neither part holds `=` |
| `EnvProperties.KeyValueLine` | env.go:49-59 | `key=value` with no `=` in either part sets exactly that pair when `Setenv` accepts it, and otherwise fails with `ErrSetenv` |
| `EnvProperties.SpacesKept` | env.go:49-55 | the line " K = v " sets the key " K " to the value " v ", spaces kept |
| `EnvProperties.ExtraSeparatorRejected` | env.go:49-53 | `K=a=b` is wrongly formatted |
| `EnvProperties.LineWithoutSeparatorRejected` | env.go:49-53 | a line without `=`, and the blank line in particular, is wrongly formatted |
| `EnvProperties.AssignLastWins` | env.go:48-60 | after loading, a key maps to the value of the last line that sets it |
| `EnvProperties.AssignUntouched` | env.go:48-60 | a key that no line sets keeps its old binding, or stays unset |
| `EnvProperties.LoadStopsAtFirstRejected` | env.go:48-59 | no rollback and nothing past the failure: a key set only from the first rejected line onward keeps its old binding |
| `EnvProperties.MalformedLineStopsLoad` | env.go:49-53 | a line without `=` (such as `FOO`) at any index stops the load there or earlier, and exactly there with `ErrWrongFormat` when every line before it is accepted |
| `EnvProperties.LoadEnvAgrees` | utils.go:61-72 | the parser's `loadEnv` and the free `loadEnv` agree on every valid environment, which is every environment a parser can hold |
| `EnvProperties.GettersAgree` | utils.go:8-59 | with a non-empty string at the key, `Int`, `Int32`, `Int64` and `Bool` equal `toInt`, `toInt32`, `toInt64` and `toBool` of that string |
| `EnvProperties.GettersDefault` | env.go:169-182 | with the key unset or empty, every getter returns its default |
| `EnvProperties.StringAfterLoad` | env.go:54-77 | after loading, `String` returns the value of the last line that sets the key, verbatim, when that value is non-empty, and the default when it is empty |
| `EnvProperties.Int32AfterLoad` | env.go:94-107 | after loading, an int32 written in decimal by the last line that sets the key is what `Int32` returns |
| `EnvProperties.LoadOneNumber` | env.go:38-92 | loading a one-line file `KEY=<decimal>`, such as `PORT=8080`, succeeds; `Int` reads the number back; `Bool` gives its default unless the number is 0 or 1 |

## Left out

- Opening and scanning the file (`os.Open`, `bufio.Scanner`, `f.Close`, env.go:39-47 and 62-65) is I/O. `Load` takes the scanned lines as its input, so the open error and the scan error are not modelled. The scan-error branch also wraps the earlier `err` rather than the scanner's error.
- The scanner's own limits are not modelled. Lines longer than its buffer and the stripping of `\r` are out of scope.
- Logging (`*log.Logger` and every `Printf`) has no effect on results, given a non-nil logger: the model assumes `NewParser` receives one. With a nil logger every `Printf` on Load's error paths and on each getter's fallback path panics, which is not modelled. `NewParser`'s logger argument is therefore dropped.
- `Float32`, `Float64`, `toFloat32` and `toFloat64` (env.go:124-152, utils.go:34-50) parse and round floating point. The model has no floating point. Note that `toFloat64` parses with bit size 32 (utils.go:44).
- The process environment is global in Go and shared by every parser. Here it is the `env` field of one `Parser`, so sharing between parsers is not modelled.
- The parser's environment is required to be valid, as a real process environment is. `Utils.LoadEnv` takes any map and applies Go's empty-key rule itself.
- `os.Setenv` is modelled by `SetenvOk` with Go's Unix rules. Other platforms' rules are not modelled. The text of the wrapped error ("could not set environment variable: setenv: invalid argument") is modelled only as the constructor `ErrSetenv`.
- `Strconv.ParseInt`: Go's distinction between a syntax error and a range error is collapsed into `None`. Every caller falls back to its default on either error.
- `Utils.ToInt`: Go's `int` is modelled as 64 bits. A 32-bit platform, where `Atoi` has the int32 range, is not modelled.
- Text is a sequence of characters, not bytes. Go splits and parses bytes; for `=`, the digits and the signs this makes no difference.
- test.go calls a few getters and checks nothing, so it is not modelled.
