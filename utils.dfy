/** The package-level helpers of utils.go: string-to-type coercions that fall
    back to a default, and a lookup in the process environment that treats an
    empty value as unset. The process environment is passed in as a map. */
module Utils {
  import opened Wrappers
  import opened GoTypes
  import opened Strconv
  import Os

  /** `toInt`: `strconv.Atoi`, or the default when it fails. */
  function ToInt(value: string, defaultValue: int64): (r: int64)
    ensures r == defaultValue || ParseDecimal(value) == Some(r as int)
    ensures ParseDecimal(value).Some? && Int64Min <= ParseDecimal(value).value <= Int64Max ==>
              r as int == ParseDecimal(value).value
    ensures ParseDecimal(value).None? ==> r == defaultValue
  {
    match Atoi(value)
    case None => defaultValue
    case Some(v) => v as int64
  }

  /** `toInt32`: `strconv.ParseInt(value, 10, 32)`, or the default. */
  function ToInt32(value: string, defaultValue: int32): (r: int32)
    ensures r == defaultValue || ParseDecimal(value) == Some(r as int)
    ensures ParseDecimal(value).Some? && Int32Min <= ParseDecimal(value).value <= Int32Max ==>
              r as int == ParseDecimal(value).value
    ensures ParseDecimal(value).None? ==> r == defaultValue
  {
    match ParseInt(value, 32)
    case None => defaultValue
    case Some(v) => v as int32
  }

  /** `toInt64`: `strconv.ParseInt(value, 10, 64)`, or the default. */
  function ToInt64(value: string, defaultValue: int64): (r: int64)
    ensures r == defaultValue || ParseDecimal(value) == Some(r as int)
    ensures ParseDecimal(value).Some? && Int64Min <= ParseDecimal(value).value <= Int64Max ==>
              r as int == ParseDecimal(value).value
    ensures ParseDecimal(value).None? ==> r == defaultValue
  {
    match ParseInt(value, 64)
    case None => defaultValue
    case Some(v) => v as int64
  }

  /** `toBool`: `strconv.ParseBool`, or the default. */
  function ToBool(value: string, defaultValue: bool): (r: bool)
    ensures value in {"1", "t", "T", "TRUE", "true", "True"} ==> r
    ensures value in {"0", "f", "F", "FALSE", "false", "False"} ==> !r
    ensures ParseBool(value).None? ==> r == defaultValue
  {
    match ParseBool(value)
    case None => defaultValue
    case Some(b) => b
  }

  /** `loadEnv`: the value set for `key`, or nil when it is unset or empty.
      An empty key is never set (see `Os.LookupEnv`). */
  function LoadEnv(env: map<string, string>, key: string): (r: Option<string>)
    ensures r.None? <==> key == "" || key !in env || env[key] == ""
    ensures r.Some? ==> key in env && r.value == env[key]
  {
    match Os.LookupEnv(env, key)
    case None => None
    case Some(v) => if |v| == 0 then None else Some(v)
  }

  /** Every int32, written in decimal, is read back by `toInt32`; every
      integer outside the int32 range gives the default. */
  lemma ToInt32FormatInt(n: int, defaultValue: int32)
    ensures ToInt32(FormatInt(n), defaultValue) as int ==
              if Int32Min <= n <= Int32Max then n else defaultValue as int
  {
    ParseIntFormatInt(n, 32);
  }

  /** The same for `toInt64` and the int64 range. */
  lemma ToInt64FormatInt(n: int, defaultValue: int64)
    ensures ToInt64(FormatInt(n), defaultValue) as int ==
              if Int64Min <= n <= Int64Max then n else defaultValue as int
  {
    ParseIntFormatInt(n, 64);
  }

  /** The same for `toInt`, with Go's `int` taken as 64 bits. */
  lemma ToIntFormatInt(n: int, defaultValue: int64)
    ensures ToInt(FormatInt(n), defaultValue) as int ==
              if Int64Min <= n <= Int64Max then n else defaultValue as int
  {
    ParseIntFormatInt(n, 64);
  }

  /** `toBool` reads back what `FormatBool` writes. */
  lemma ToBoolFormatBool(b: bool, defaultValue: bool)
    ensures ToBool(FormatBool(b), defaultValue) == b
  {
    ParseFormatBool(b);
  }

  /** A number other than 0 and 1, in decimal, gives the default. */
  lemma ToBoolNumber(n: int, defaultValue: bool)
    requires n != 0 && n != 1
    ensures ToBool(FormatInt(n), defaultValue) == defaultValue
  {
    NumbersAreNotBools(n);
  }
}
