/** The behaviour of Go's `strconv` functions that the accessors rely on,
    written out as the grammar they accept (assumed from Go's documented
    behaviour; the library itself is not part of this model).

    - `ParseInt(s, 10, bitSize)`: an optional `+` or `-`, then one or more
      ASCII digits `0`-`9` (no underscores, no spaces, no other characters);
      the value must lie in the signed range of `bitSize` bits.
    - `Atoi(s)`: on a 64-bit platform, the same as `ParseInt(s, 10, 64)`.
    - `ParseBool(s)`: exactly one of `1 t T TRUE true True` (true) or
      `0 f F FALSE false False` (false).

    Go tells a syntax error from a range error; every caller here falls back
    to its default on either, so both are `None`. `FormatInt` and
    `FormatBool` (Go's `strconv.FormatInt(i, 10)` and `strconv.FormatBool`)
    are the inverses the parsers are proved against. */
module Strconv {
  import opened Wrappers
  import opened GoTypes

  predicate IsDigit(c: char) {
    '0' <= c <= '9'
  }

  predicate AllDigits(s: string) {
    forall j :: 0 <= j < |s| ==> IsDigit(s[j])
  }

  /** Value of a digit string, accumulated most significant digit first
      (`n = n*10 + d`) as Go's `ParseUint` does. */
  function DigitsValue(s: string): nat
    requires AllDigits(s)
  {
    if s == [] then 0
    else DigitsValue(s[..|s| - 1]) * 10 + (s[|s| - 1] as int - '0' as int)
  }

  /** A decimal integer literal: an optional sign, then at least one digit. */
  function ParseDecimal(s: string): (r: Option<int>)
    ensures r.Some? ==> s != [] && (IsDigit(s[0]) || s[0] == '+' || s[0] == '-')
    ensures r.Some? && r.value < 0 ==> s[0] == '-'
  {
    if s == [] then None
    else
      var digits := if s[0] == '+' || s[0] == '-' then s[1..] else s;
      if digits == [] || !AllDigits(digits) then None
      else
        var u: int := DigitsValue(digits);
        Some(if s[0] == '-' then -u else u)
  }

  function MinInt(bitSize: nat): int
    requires bitSize == 32 || bitSize == 64
  {
    if bitSize == 32 then Int32Min else Int64Min
  }

  function MaxInt(bitSize: nat): int
    requires bitSize == 32 || bitSize == 64
  {
    if bitSize == 32 then Int32Max else Int64Max
  }

  /** `strconv.ParseInt(s, 10, bitSize)`, with any error as `None`. */
  function ParseInt(s: string, bitSize: nat): (r: Option<int>)
    requires bitSize == 32 || bitSize == 64
    ensures r.Some? ==> MinInt(bitSize) <= r.value <= MaxInt(bitSize)
    ensures r.Some? ==> ParseDecimal(s) == r
    ensures r.None? && ParseDecimal(s).Some? ==>
              ParseDecimal(s).value < MinInt(bitSize) || MaxInt(bitSize) < ParseDecimal(s).value
  {
    match ParseDecimal(s)
    case None => None
    case Some(v) => if MinInt(bitSize) <= v <= MaxInt(bitSize) then Some(v) else None
  }

  /** `strconv.Atoi(s)` on a 64-bit platform. A string of 1 to 18
      characters takes Go's fast path, which reads the sign and the digits
      with no range check; any other string goes through `ParseInt(s, 10, 0)`.
      Both paths agree with `ParseInt(s, 10, 64)`. */
  function Atoi(s: string): (r: Option<int>)
    ensures r == ParseInt(s, 64)
  {
    if 0 < |s| < 19 then
      FastPathInRange(s);
      ParseDecimal(s)
    else ParseInt(s, 64)
  }

  function Pow10(k: nat): (p: nat)
    ensures p >= 1
  {
    if k == 0 then 1 else 10 * Pow10(k - 1)
  }

  lemma {:induction false} DigitsValueBound(s: string)
    requires AllDigits(s)
    ensures DigitsValue(s) < Pow10(|s|)
  {
    if s != [] {
      DigitsValueBound(s[..|s| - 1]);
    }
  }

  lemma {:induction false} Pow10Monotone(j: nat, k: nat)
    requires j <= k
    ensures Pow10(j) <= Pow10(k)
  {
    if j < k {
      Pow10Monotone(j, k - 1);
    }
  }

  /** At most 18 digits never overflow 64 bits. */
  lemma FastPathInRange(s: string)
    requires |s| < 19
    ensures ParseDecimal(s).Some? ==> Int64Min <= ParseDecimal(s).value <= Int64Max
  {
    if ParseDecimal(s).Some? {
      var digits := if s[0] == '+' || s[0] == '-' then s[1..] else s;
      DigitsValueBound(digits);
      Pow10Monotone(|digits|, 18);
      assert Pow10(18) == 1_000_000_000_000_000_000 by {
        assert Pow10(6) == 1_000_000;
        assert Pow10(12) == 1_000_000_000_000 by { Pow10Add(6, 6); }
        Pow10Add(12, 6);
      }
    }
  }

  lemma {:induction false} Pow10Add(j: nat, k: nat)
    ensures Pow10(j + k) == Pow10(j) * Pow10(k)
  {
    if k > 0 {
      Pow10Add(j, k - 1);
    }
  }

  /** ASCII upper case of a letter; other characters are unchanged. */
  function Upper(c: char): char {
    if 'a' <= c <= 'z' then (c as int - 32) as char else c
  }

  /** The spellings `ParseBool` accepts for `b`: the word in lower case,
      upper case and capitalised, its first letter in either case, and the
      digit. */
  function Spellings(b: bool): set<string> {
    var w := FormatBool(b);
    {w, seq(|w|, j requires 0 <= j < |w| => Upper(w[j])), [Upper(w[0])] + w[1..],
     w[..1], [Upper(w[0])], if b then "1" else "0"}
  }

  lemma SpellingsListed()
    ensures Spellings(true) == {"true", "TRUE", "True", "t", "T", "1"}
    ensures Spellings(false) == {"false", "FALSE", "False", "f", "F", "0"}
  {
    var t := FormatBool(true);
    assert seq(|t|, j requires 0 <= j < |t| => Upper(t[j])) == "TRUE";
    assert [Upper(t[0])] + t[1..] == "True";
    assert t[..1] == "t" && [Upper(t[0])] == "T";
    var f := FormatBool(false);
    assert seq(|f|, j requires 0 <= j < |f| => Upper(f[j])) == "FALSE";
    assert [Upper(f[0])] + f[1..] == "False";
    assert f[..1] == "f" && [Upper(f[0])] == "F";
  }

  /** `strconv.ParseBool(s)`, with the error as `None`. */
  function ParseBool(s: string): (r: Option<bool>)
    ensures r.Some? <==> s in Spellings(true) + Spellings(false)
    ensures r.Some? ==> s in Spellings(r.value)
  {
    SpellingsListed();
    match s
    case "1" | "t" | "T" | "TRUE" | "true" | "True" => Some(true)
    case "0" | "f" | "F" | "FALSE" | "false" | "False" => Some(false)
    case _ => None
  }

  function DigitChar(d: nat): (c: char)
    requires d < 10
    ensures IsDigit(c) && c as int - '0' as int == d
  {
    ('0' as int + d) as char
  }

  /** Shortest decimal spelling of a natural number. */
  function FormatNat(n: nat): (s: string)
    ensures s != [] && AllDigits(s)
    ensures n > 0 ==> s[0] != '0'
  {
    if n < 10 then [DigitChar(n)] else FormatNat(n / 10) + [DigitChar(n % 10)]
  }

  /** `strconv.FormatInt(n, 10)`. */
  function FormatInt(n: int): string
  {
    if n < 0 then "-" + FormatNat(-n) else FormatNat(n)
  }

  lemma {:induction false} DigitsValueFormatNat(n: nat)
    ensures DigitsValue(FormatNat(n)) == n
  {
    if n >= 10 {
      var s := FormatNat(n);
      assert s[..|s| - 1] == FormatNat(n / 10);
      DigitsValueFormatNat(n / 10);
    }
  }

  /** Every integer, written out in decimal, parses back to itself. */
  lemma ParseFormatInt(n: int)
    ensures ParseDecimal(FormatInt(n)) == Some(n)
  {
    var s := FormatInt(n);
    if n < 0 {
      var m: nat := -n;
      DigitsValueFormatNat(m);
      assert s == "-" + FormatNat(m);
      assert s[0] == '-' && s[1..] == FormatNat(m);
    } else {
      DigitsValueFormatNat(n);
      assert s == FormatNat(n);
      assert IsDigit(s[0]);
    }
  }

  /** The decimal spelling of a value is accepted by `ParseInt` exactly when
      the value fits the bit width. */
  lemma ParseIntFormatInt(n: int, bitSize: nat)
    requires bitSize == 32 || bitSize == 64
    ensures ParseInt(FormatInt(n), bitSize) ==
              if MinInt(bitSize) <= n <= MaxInt(bitSize) then Some(n) else None
  {
    ParseFormatInt(n);
  }

  /** Leading zeros and an explicit `+` do not change the value. */
  lemma {:induction false} LeadingZeros(zeros: nat, s: string)
    requires s != [] && AllDigits(s)
    ensures ParseDecimal(Zeros(zeros) + s) == ParseDecimal(s)
    ensures ParseDecimal("+" + s) == ParseDecimal(s)
  {
    ZerosValue(zeros, s);
    assert ("+" + s)[1..] == s;
  }

  function Zeros(k: nat): (s: string)
    ensures |s| == k && AllDigits(s)
  {
    if k == 0 then "" else "0" + Zeros(k - 1)
  }

  lemma {:induction false} ZerosValue(k: nat, s: string)
    requires AllDigits(s)
    ensures AllDigits(Zeros(k) + s) && DigitsValue(Zeros(k) + s) == DigitsValue(s)
    decreases |s|
  {
    var t := Zeros(k) + s;
    if s == [] {
      assert t == Zeros(k);
      ZerosValueAlone(k);
    } else {
      assert t[..|t| - 1] == Zeros(k) + s[..|s| - 1];
      ZerosValue(k, s[..|s| - 1]);
    }
  }

  lemma {:induction false} ZerosValueAlone(k: nat)
    ensures DigitsValue(Zeros(k)) == 0
  {
    if k > 0 {
      var z := Zeros(k);
      assert z == Zeros(k - 1) + "0" by { ZerosSnoc(k); }
      assert z[..|z| - 1] == Zeros(k - 1);
      ZerosValueAlone(k - 1);
    }
  }

  lemma {:induction false} ZerosSnoc(k: nat)
    requires k > 0
    ensures Zeros(k) == Zeros(k - 1) + "0"
  {
    if k > 1 {
      ZerosSnoc(k - 1);
    }
  }

  /** `strconv.FormatBool(b)`. */
  function FormatBool(b: bool): string
  {
    if b then "true" else "false"
  }

  /** `FormatBool` and `ParseBool` are inverse. */
  lemma ParseFormatBool(b: bool)
    ensures ParseBool(FormatBool(b)) == Some(b)
  {
  }

  /** Only `0` and `1` among the numbers are boolean literals: any other
      integer, in decimal, is not a boolean (so `8080` is rejected). */
  lemma NumbersAreNotBools(n: int)
    requires n != 0 && n != 1
    ensures ParseBool(FormatInt(n)).None?
  {
    var s := FormatInt(n);
    if n < 0 {
      assert s[0] == '-';
    } else if n < 10 {
      assert s == [DigitChar(n)];
    } else {
      assert |s| >= 2 && IsDigit(s[0]) && IsDigit(s[1]);
    }
  }
}
