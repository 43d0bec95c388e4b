/** Properties of the loader and the accessors of env.go, and their
    agreement with the helpers of utils.go. */
module EnvProperties {
  import opened Wrappers
  import opened GoTypes
  import opened Strings
  import opened Strconv
  import opened Os
  import opened Env
  import Utils

  // ---------------------------------------------------------------------
  // One line

  /** An accepted line is exactly its key, one `=`, and its value: nothing
      is trimmed and neither part contains `=`. */
  lemma AcceptedLineIsVerbatim(line: string)
    requires Accepted(line)
    ensures line == Pair(line).0 + "=" + Pair(line).1
    ensures '=' !in Pair(line).0 && '=' !in Pair(line).1
  {
    JoinSplit(line, '=');
    var parts := Split(line, '=');
    assert Join(parts, '=') == parts[0] + "=" + Join(parts[1..], '=');
  }

  /** Conversely, a key and a value without `=` form a line that sets
      exactly that pair, spaces included, when `Setenv` accepts it, and that
      stops the load with `ErrSetenv` otherwise (an empty key, or a NUL in
      the key or the value). */
  lemma KeyValueLine(key: string, value: string)
    requires '=' !in key && '=' !in value
    ensures ParseLine(key + "=" + value) ==
              if SetenvOk(key, value) then Success((key, value)) else Failure(ErrSetenv)
  {
    SplitJoin([key, value], '=');
    assert Join([key, value], '=') == key + "=" + value;
  }

  /** Spaces around `=` are part of the key and the value. */
  lemma SpacesKept()
    ensures ParseLine(" K = v ") == Success((" K ", " v "))
  {
    KeyValueLine(" K ", " v ");
    assert " K " + "=" + " v " == " K = v ";
  }

  /** A line whose value holds a further `=` is wrongly formatted. */
  lemma ExtraSeparatorRejected(key: string, a: string, b: string)
    ensures ParseLine(key + "=" + a + "=" + b) == Failure(ErrWrongFormat)
  {
    CountConcat(key + "=" + a, "=" + b, '=');
    CountConcat(key, "=" + a, '=');
    CountConcat("=", a, '=');
    CountConcat("=", b, '=');
    assert key + "=" + a + "=" + b == (key + "=" + a) + ("=" + b);
    assert key + "=" + a == key + ("=" + a);
  }

  /** A blank line is wrongly formatted, and so is a line without `=`. */
  lemma LineWithoutSeparatorRejected(line: string)
    requires '=' !in line
    ensures ParseLine(line) == Failure(ErrWrongFormat)
    ensures ParseLine("") == Failure(ErrWrongFormat)
  {
  }

  // ---------------------------------------------------------------------
  // Several lines

  /** The value of a key after the lines are applied is the value of the
      last line that sets it. */
  lemma {:induction false} AssignLastWins(env: map<string, string>, lines: seq<string>, i: nat)
    requires AllAccepted(lines) && i < |lines|
    requires forall j :: i < j < |lines| ==> Pair(lines[j]).0 != Pair(lines[i]).0
    ensures Pair(lines[i]).0 in Assign(env, lines)
    ensures Assign(env, lines)[Pair(lines[i]).0] == Pair(lines[i]).1
  {
    var n := |lines| - 1;
    if i < n {
      var prefix := lines[..n];
      assert forall j :: 0 <= j < |prefix| ==> prefix[j] == lines[j];
      AssignLastWins(env, prefix, i);
    }
  }

  /** A key that no line sets keeps its binding (or stays unbound). */
  lemma {:induction false} AssignUntouched(env: map<string, string>, lines: seq<string>, key: string)
    requires AllAccepted(lines)
    requires forall j :: 0 <= j < |lines| ==> Pair(lines[j]).0 != key
    ensures key in Assign(env, lines) <==> key in env
    ensures key in env ==> Assign(env, lines)[key] == env[key]
  {
    if lines != [] {
      var prefix := lines[..|lines| - 1];
      assert forall j :: 0 <= j < |prefix| ==> prefix[j] == lines[j];
      AssignUntouched(env, prefix, key);
    }
  }

  /** Partial application: when line `i` is the first one rejected, a key
      that only lines from `i` on would set keeps its old binding, even if
      a later line would have set it. */
  lemma LoadStopsAtFirstRejected(env: map<string, string>, lines: seq<string>, key: string)
    requires forall j :: 0 <= j < FirstRejected(lines) ==> Pair(lines[j]).0 != key
    ensures var after := Assign(env, lines[..FirstRejected(lines)]);
            (key in after <==> key in env) && (key in env ==> after[key] == env[key])
  {
    var i := FirstRejected(lines);
    assert forall j :: 0 <= j < i ==> lines[..i][j] == lines[j];
    AssignUntouched(env, lines[..i], key);
  }

  lemma AcceptedBefore(lines: seq<string>, i: nat, k: nat)
    requires k < i <= |lines| && AllAccepted(lines[..i])
    ensures Accepted(lines[k])
  {
    assert lines[..i][k] == lines[k];
  }

  /** A line without `=` (such as `FOO`, or a blank line) anywhere in the
      file stops the load there or earlier; when every line before it is
      accepted, the load stops exactly there with `ErrWrongFormat`, so
      nothing from that line on is applied. */
  lemma MalformedLineStopsLoad(lines: seq<string>, k: nat)
    requires k < |lines| && '=' !in lines[k]
    ensures FirstRejected(lines) <= k
    ensures AllAccepted(lines[..k]) ==>
              FirstRejected(lines) == k && ParseLine(lines[k]) == Failure(ErrWrongFormat)
  {
    LineWithoutSeparatorRejected(lines[k]);
    var i := FirstRejected(lines);
    if k < i {
      AcceptedBefore(lines, i, k);
      assert false;
    }
    if AllAccepted(lines[..k]) {
      FirstRejectedAt(lines, k);
    }
  }

  // ---------------------------------------------------------------------
  // The accessors of env.go agree with the helpers of utils.go

  lemma LoadEnvAgrees(p: Parser, key: string)
    requires p.Valid()
    ensures p.LoadEnv(key) == Utils.LoadEnv(p.env, key)
  {
  }

  /** With a non-empty string at `key`, each getter is the matching
      coercion of utils.go applied to it. */
  lemma GettersAgree(p: Parser, key: string, di: int64, d32: int32, d64: int64, db: bool)
    requires p.Valid() && key in p.env && p.env[key] != ""
    ensures p.Int(key, di) == Utils.ToInt(p.env[key], di)
    ensures p.Int32(key, d32) == Utils.ToInt32(p.env[key], d32)
    ensures p.Int64(key, d64) == Utils.ToInt64(p.env[key], d64)
    ensures p.Bool(key, db) == Utils.ToBool(p.env[key], db)
  {
  }

  /** With nothing usable at `key`, every getter gives its default. */
  lemma GettersDefault(p: Parser, key: string, ds: string, di: int64, d32: int32, d64: int64, db: bool)
    requires p.Valid() && (key !in p.env || p.env[key] == "")
    ensures p.String(key, ds) == ds && p.Int(key, di) == di && p.Int32(key, d32) == d32
    ensures p.Int64(key, d64) == d64 && p.Bool(key, db) == db
  {
  }

  // ---------------------------------------------------------------------
  // Loading, then reading back

  /** After the lines are applied, `String` returns the value of the last
      line that sets the key, verbatim, or the default when that value is
      empty (an empty variable reads as unset). */
  lemma StringAfterLoad(p: Parser, env: map<string, string>, lines: seq<string>, i: nat, defaultValue: string)
    requires p.Valid() && AllAccepted(lines) && p.env == Assign(env, lines) && i < |lines|
    requires forall j :: i < j < |lines| ==> Pair(lines[j]).0 != Pair(lines[i]).0
    ensures p.String(Pair(lines[i]).0, defaultValue)
            == if Pair(lines[i]).1 != "" then Pair(lines[i]).1 else defaultValue
  {
    AssignLastWins(env, lines, i);
  }

  /** After the lines are applied, an int32 written in decimal by the last
      line that sets the key is what `Int32` returns. */
  lemma Int32AfterLoad(p: Parser, env: map<string, string>, lines: seq<string>, i: nat,
                       x: int32, defaultValue: int32)
    requires p.Valid() && AllAccepted(lines) && p.env == Assign(env, lines) && i < |lines|
    requires forall j :: i < j < |lines| ==> Pair(lines[j]).0 != Pair(lines[i]).0
    requires Pair(lines[i]).1 == FormatInt(x as int)
    ensures p.Int32(Pair(lines[i]).0, defaultValue) == x
  {
    AssignLastWins(env, lines, i);
    ParseIntFormatInt(x as int, 32);
  }

  /** A decimal spelling holds no `=` and no NUL. */
  lemma FormatIntHasNoSeparator(n: int)
    ensures '=' !in FormatInt(n) && '\0' !in FormatInt(n)
  {
    var s := FormatInt(n);
    if n < 0 {
      assert s == "-" + FormatNat(-n);
      assert forall j :: 1 <= j < |s| ==> s[j] == FormatNat(-n)[j - 1];
    }
  }

  /** Loading a one-line file `KEY=<decimal>` into an environment (for
      instance `PORT=8080`): the load succeeds, `Int` reads the number back,
      and `Bool` falls back to its default unless the number is 0 or 1,
      which it reads as false and true. */
  method LoadOneNumber(environment: map<string, string>, key: string, n: int64, d: int64, b: bool)
    returns (err: Option<LoadError>, number: int64, flag: bool)
    requires ValidEnv(environment)
    requires |key| > 0 && '=' !in key && '\0' !in key
    ensures err == None && number == n
    ensures n as int != 0 && n as int != 1 ==> flag == b
    ensures n as int == 0 ==> !flag
    ensures n as int == 1 ==> flag
  {
    var p := new Parser(environment);
    var value := FormatInt(n as int);
    FormatIntHasNoSeparator(n as int);
    KeyValueLine(key, value);
    var lines := [key + "=" + value];
    FirstRejectedAt(lines, 1);
    err := p.Load(lines);
    assert lines[..1] == lines && lines[..0] == [];
    assert p.env == environment[key := value];
    ParseIntFormatInt(n as int, 64);
    if n as int != 0 && n as int != 1 {
      NumbersAreNotBools(n as int);
    }
    number := p.Int(key, d);
    flag := p.Bool(key, b);
  }
}
