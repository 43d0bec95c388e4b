/** env.go: the `Parser`, which loads `KEY=VALUE` lines into the process
    environment and reads typed values back with a default.

    Go keeps the environment process-wide and the parser holds only a
    logger; here the environment is the `env` field of the parser, which
    `Load` updates in place and every getter only reads. The file is given
    as the sequence of lines the scanner would produce. Logging has no
    effect on results and is left out. */
module Env {
  import opened Wrappers
  import opened GoTypes
  import opened Strings
  import opened Strconv
  import opened Os

  /** Why `Load` stopped: a line that does not split into exactly two parts
      on `=` (`ErrWrongFormat`), or a pair the environment refused
      (`ErrSetenv`, which like Go's wrapped `EINVAL` does not name the pair). */
  datatype LoadError = ErrWrongFormat | ErrSetenv

  /** What one iteration of the loading loop does with a line: the pair it
      sets, or the error that ends the load. */
  function ParseLine(line: string): (r: Result<(string, string), LoadError>)
    ensures r == Failure(ErrWrongFormat) <==> Count(line, '=') != 1
    ensures r.Success? ==> SetenvOk(r.value.0, r.value.1)
  {
    var parts := Split(line, '=');
    if |parts| != 2 then Failure(ErrWrongFormat)
    else if !SetenvOk(parts[0], parts[1]) then Failure(ErrSetenv)
    else Success((parts[0], parts[1]))
  }

  predicate Accepted(line: string) {
    ParseLine(line).Success?
  }

  predicate AllAccepted(lines: seq<string>) {
    forall j :: 0 <= j < |lines| ==> Accepted(lines[j])
  }

  /** The key and value an accepted line sets. */
  function Pair(line: string): (string, string)
    requires Accepted(line)
  {
    ParseLine(line).value
  }

  /** Index of the first line that is not accepted, or the number of lines. */
  function FirstRejected(lines: seq<string>): (i: nat)
    ensures i <= |lines|
    ensures AllAccepted(lines[..i])
    ensures i < |lines| ==> !Accepted(lines[i])
  {
    if lines == [] then 0
    else if !Accepted(lines[0]) then 0
    else
      var i := 1 + FirstRejected(lines[1..]);
      assert forall j :: 1 <= j < i ==> lines[..i][j] == lines[1..][..i - 1][j - 1];
      i
  }

  /** The environment `env` overridden, in order, by the pairs of `lines`.
      Every pair set is one `Setenv` accepts, so a valid environment stays
      valid. */
  function Assign(env: map<string, string>, lines: seq<string>): (r: map<string, string>)
    requires AllAccepted(lines)
    ensures ValidEnv(env) ==> ValidEnv(r)
  {
    if lines == [] then env
    else
      var kv := Pair(lines[|lines| - 1]);
      Assign(env, lines[..|lines| - 1])[kv.0 := kv.1]
  }

  class Parser {
    /** The process environment. */
    var env: map<string, string>

    /** Every entry is one the process environment can hold. */
    ghost predicate Valid()
      reads this
    {
      ValidEnv(env)
    }

    constructor (environment: map<string, string>)
      requires ValidEnv(environment)
      ensures Valid() && env == environment
    {
      env := environment;
    }

    /** `Load`: sets each line's pair in turn and stops at the first line
        that is not accepted. The lines before it stay applied and none
        after it is; on success every pair is applied. */
    method Load(lines: seq<string>) returns (err: Option<LoadError>)
      requires Valid()
      modifies this
      ensures Valid()
      ensures var i := FirstRejected(lines);
              env == Assign(old(env), lines[..i]) &&
              err == if i == |lines| then None else Some(ParseLine(lines[i]).error)
    {
      var i := 0;
      while i < |lines|
        invariant i <= |lines|
        invariant AllAccepted(lines[..i])
        invariant env == Assign(old(env), lines[..i])
        invariant Valid()
      {
        var line := Split(lines[i], '=');
        if |line| != 2 {
          FirstRejectedAt(lines, i);
          return Some(ErrWrongFormat);
        }
        var key, value := line[0], line[1];
        if !SetenvOk(key, value) {
          FirstRejectedAt(lines, i);
          return Some(ErrSetenv);
        }
        env := env[key := value];
        assert lines[..i + 1][..i] == lines[..i];
        i := i + 1;
      }
      assert lines[..i] == lines;
      FirstRejectedAt(lines, i);
      err := None;
    }

    /** `loadEnv`: the value set for `key`, or nil when it is unset or empty. */
    function LoadEnv(key: string): (r: Option<string>)
      requires Valid()
      reads this
      ensures r.None? <==> key !in env || env[key] == ""
      ensures r.Some? ==> key in env && r.value == env[key]
    {
      match LookupEnv(env, key)
      case None => None
      case Some(v) => if |v| == 0 then None else Some(v)
    }

    /** `String`: the value set for `key` verbatim, or the default when it
        is unset or empty. */
    function String(key: string, defaultValue: string): (r: string)
      requires Valid()
      reads this
      ensures key in env && env[key] != "" ==> r == env[key]
      ensures key !in env || env[key] == "" ==> r == defaultValue
      ensures r == "" ==> defaultValue == ""
    {
      match LoadEnv(key)
      case None => defaultValue
      case Some(s) => s
    }

    /** `Int`: the value set for `key` read as a decimal Go `int` (64 bits),
        or the default when it is unset, empty, not a decimal or out of range. */
    function Int(key: string, defaultValue: int64): (r: int64)
      requires Valid()
      reads this
      ensures key in env && ParseInt(env[key], 64).Some? ==> r as int == ParseInt(env[key], 64).value
      ensures key !in env || ParseInt(env[key], 64).None? ==> r == defaultValue
    {
      match LoadEnv(key)
      case None => defaultValue
      case Some(s) =>
        match Atoi(s)
        case None => defaultValue
        case Some(v) => v as int64
    }

    /** `Int32`: as `Int`, with the int32 range. */
    function Int32(key: string, defaultValue: int32): (r: int32)
      requires Valid()
      reads this
      ensures key in env && ParseInt(env[key], 32).Some? ==> r as int == ParseInt(env[key], 32).value
      ensures key !in env || ParseInt(env[key], 32).None? ==> r == defaultValue
    {
      match LoadEnv(key)
      case None => defaultValue
      case Some(s) =>
        match ParseInt(s, 32)
        case None => defaultValue
        case Some(v) => v as int32
    }

    /** `Int64`: as `Int`, with the int64 range. */
    function Int64(key: string, defaultValue: int64): (r: int64)
      requires Valid()
      reads this
      ensures key in env && ParseInt(env[key], 64).Some? ==> r as int == ParseInt(env[key], 64).value
      ensures key !in env || ParseInt(env[key], 64).None? ==> r == defaultValue
    {
      match LoadEnv(key)
      case None => defaultValue
      case Some(s) =>
        match ParseInt(s, 64)
        case None => defaultValue
        case Some(v) => v as int64
    }

    /** `Bool`: the value set for `key` read as a Go boolean literal, or the
        default when it is unset, empty or any other string. */
    function Bool(key: string, defaultValue: bool): (r: bool)
      requires Valid()
      reads this
      ensures key in env && env[key] in {"1", "t", "T", "TRUE", "true", "True"} ==> r
      ensures key in env && env[key] in {"0", "f", "F", "FALSE", "false", "False"} ==> !r
      ensures key !in env || ParseBool(env[key]).None? ==> r == defaultValue
    {
      match LoadEnv(key)
      case None => defaultValue
      case Some(s) =>
        match ParseBool(s)
        case None => defaultValue
        case Some(b) => b
    }
  }

  /** The first rejected line is the unique one with every line before it
      accepted. */
  lemma {:induction false} FirstRejectedAt(lines: seq<string>, i: nat)
    requires i <= |lines| && AllAccepted(lines[..i])
    requires i < |lines| ==> !Accepted(lines[i])
    ensures FirstRejected(lines) == i
  {
    if i > 0 {
      assert lines[..i][0] == lines[0];
      assert forall j :: 1 <= j < i ==> lines[..i][j] == lines[1..][..i - 1][j - 1];
      FirstRejectedAt(lines[1..], i - 1);
    }
  }
}
