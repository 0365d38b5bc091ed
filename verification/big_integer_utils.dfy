/**
 * BigInteger helpers: integral strings are normalised by stripping leading
 * zeros and the resulting values are kept in a cache keyed by their text;
 * every arithmetic result is also cached under its decimal string.
 * BigInteger values are mathematical integers.
 */
module BigIntegerUtils {
  import opened Wrappers
  import StringUtils
  import Decimal

  /** A Java long. */
  newtype Long = x: int | -0x8000_0000_0000_0000 <= x < 0x8000_0000_0000_0000

  datatype MathError =
    | InvalidArgument                       // AssertUtils: not an integral string
    | NumberFormat(e: Decimal.FormatError)  // new BigInteger(String)
    | Arithmetic                            // division by zero, non-positive modulus

  /** The number of '0' characters at the start of `s`. */
  function LeadingZeros(s: string): (n: nat)
    ensures n <= |s|
    ensures forall i :: 0 <= i < n ==> s[i] == '0'
    ensures n < |s| ==> s[n] != '0'
  {
    if |s| == 0 || s[0] != '0' then 0 else 1 + LeadingZeros(s[1..])
  }

  /** The text valueOf(String) hands to new BigInteger: for input longer than one
    * character, the leading '0's are removed (all of them, if that is all there is). */
  function Stripped(s: string): string {
    if |s| > 1 then s[LeadingZeros(s)..] else s
  }

  /** valueOf(String)'s strip loop, keeping the index of the last leading '0'. */
  method StripLeadingZeros(integer: string) returns (t: string)
    ensures t == Stripped(integer)
  {
    t := integer;
    var length := |integer|;
    if length > 1 {
      var lastOfZeroIndex: Option<nat> := None;
      var i := 0;
      while i < length
        invariant 0 <= i <= length
        invariant forall k :: 0 <= k < i ==> integer[k] == '0'
        invariant lastOfZeroIndex == if i == 0 then None else Some(i - 1)
      {
        if integer[i] != '0' {
          break;
        }
        lastOfZeroIndex := Some(i);
        i := i + 1;
      }
      assert i == LeadingZeros(integer) by {
        LeadingZerosIsRun(integer, i);
      }
      if lastOfZeroIndex.Some? {
        t := integer[lastOfZeroIndex.value + 1..];
      }
    }
  }

  lemma {:induction false} LeadingZerosIsRun(s: string, n: nat)
    requires n <= |s| && (forall k :: 0 <= k < n ==> s[k] == '0') && (n < |s| ==> s[n] != '0')
    ensures LeadingZeros(s) == n
  {
    if n > 0 {
      LeadingZerosIsRun(s[1..], n - 1);
    }
  }

  /** "0" alone is kept; a negative number is never stripped. */
  lemma StrippedKeeps(s: string)
    ensures s == "0" ==> Stripped(s) == "0"
    ensures |s| > 0 && s[0] == '-' ==> Stripped(s) == s
  {
  }

  /** An all-zero string longer than one character strips to the empty string. */
  lemma AllZerosStripToEmpty(s: string)
    requires |s| > 1 && forall i :: 0 <= i < |s| ==> s[i] == '0'
    ensures Stripped(s) == ""
  {
  }

  /** What valueOf(String) returns (the cache does not change the value): a
    * non-integral string is refused, and otherwise the value is the one the
    * stripped text parses to. */
  function ValueOf(s: string): (r: Result<int, MathError>)
    ensures r == Err(InvalidArgument) <==> !StringUtils.Integral(s)
    ensures r.Ok? ==> Decimal.ParseInteger(Stripped(s)) == Ok(r.value)
  {
    if !StringUtils.Integral(s) then Err(InvalidArgument)
    else match Decimal.ParseInteger(Stripped(s))
      case Ok(v) => Ok(v)
      case Err(e) => Err(NumberFormat(e))
  }

  /** Stripping does not change the value of an integral string that has a
    * non-zero digit: "007" and "7" give the same value. */
  lemma {:induction false} StrippingKeepsValue(s: string)
    requires StringUtils.Integral(s) && exists i :: 0 <= i < |s| && '1' <= s[i] <= '9'
    ensures ValueOf(s) == match Decimal.ParseInteger(s) case Ok(v) => Ok(v) case Err(e) => Err(NumberFormat(e))
    ensures ValueOf(s).Ok?
  {
    var z := LeadingZeros(s);
    if |s| > 1 && s[0] != '-' {
      var t := s[z..];
      assert Decimal.AllDigits(s);
      assert z < |s|;
      assert Decimal.AllDigits(t);
      assert s == Decimal.Zeros(z) + t;
      Decimal.LeadingZerosValue(z, t);
      assert t[0] != '-' && t[0] != '+';
    } else if |s| > 1 {
      assert Decimal.AllDigits(s[1..]);
    }
  }

  /** The input that shows it: "00" is integral, yet strips to "", which
    * new BigInteger rejects. */
  lemma ValueOfDoubleZeroFails()
    ensures StringUtils.Integral("00")
    ensures ValueOf("00") == Err(NumberFormat(Decimal.ZeroLength))
  {
    assert LeadingZeros("00") == 2 by {
      assert "00"[1..] == "0";
      assert "0"[1..] == "";
    }
  }

  /** valueOf(String) corrected: the last character is never stripped, so an
    * all-zero string keeps one '0'. */
  function StrippedCorrected(s: string): (t: string)
    ensures |s| > 0 ==> |t| > 0
  {
    if |s| > 1 then
      var z := LeadingZeros(s);
      if z == |s| then s[z - 1..] else s[z..]
    else s
  }

  function ValueOfCorrected(s: string): Result<int, MathError> {
    if !StringUtils.Integral(s) then Err(InvalidArgument)
    else match Decimal.ParseInteger(StrippedCorrected(s))
      case Ok(v) => Ok(v)
      case Err(e) => Err(NumberFormat(e))
  }

  /** With the correction every integral string has a value, and it is the value
    * new BigInteger gives the unstripped string. */
  lemma CorrectedValueOf(s: string)
    requires StringUtils.Integral(s)
    ensures Decimal.ParseInteger(s).Ok?
    ensures ValueOfCorrected(s) == Ok(Decimal.ParseInteger(s).value)
  {
    if s[0] == '-' {
      assert Decimal.AllDigits(s[1..]);
    } else {
      CorrectedValueOfUnsigned(s);
    }
  }

  /** The unsigned case: the zeros stripped in front do not count. */
  lemma CorrectedValueOfUnsigned(s: string)
    requires StringUtils.Integral(s) && s[0] != '-'
    ensures Decimal.ParseInteger(s).Ok?
    ensures Decimal.ParseInteger(StrippedCorrected(s)) == Decimal.ParseInteger(s)
  {
    assert Decimal.AllDigits(s);
    assert s[0] != '+';
    assert Decimal.ParseInteger(s) == Ok(Decimal.DigitsValue(s));
    if |s| > 1 {
      var z := LeadingZeros(s);
      var keep := if z == |s| then z - 1 else z;
      var t := s[keep..];
      assert StrippedCorrected(s) == t;
      ZerosPrefixValue(s, keep);
      assert t[0] != '-' && t[0] != '+';
      assert Decimal.ParseInteger(t) == Ok(Decimal.DigitsValue(t));
    }
  }

  /** Zeros in front of a digit string do not change its value. */
  lemma ZerosPrefixValue(s: string, keep: nat)
    requires Decimal.AllDigits(s) && keep <= |s| && forall i :: 0 <= i < keep ==> s[i] == '0'
    ensures Decimal.AllDigits(s[keep..]) && Decimal.DigitsValue(s) == Decimal.DigitsValue(s[keep..])
  {
    assert s == Decimal.Zeros(keep) + s[keep..];
    Decimal.LeadingZerosValue(keep, s[keep..]);
  }

  /** Java BigInteger.divide: the quotient rounded toward zero. */
  function TruncDiv(x: int, y: int): int
    requires y != 0
  {
    if (x >= 0) == (y > 0) then
      (if x >= 0 then x else -x) / (if y > 0 then y else -y)
    else
      -((if x >= 0 then x else -x) / (if y > 0 then y else -y))
  }

  /** The truncated quotient leaves a remainder of the dividend's sign, smaller than the divisor. */
  lemma TruncDivRemainder(x: int, y: int)
    requires y != 0
    ensures var r := x - TruncDiv(x, y) * y;
      (if r >= 0 then r else -r) < (if y > 0 then y else -y)
      && (r == 0 || (r > 0) == (x > 0))
  {
    var ax, ay := if x >= 0 then x else -x, if y > 0 then y else -y;
    var q := ax / ay;
    assert ax == q * ay + ax % ay;
    if (x >= 0) == (y > 0) {
      if x >= 0 {
        assert x - q * y == ax % ay;
      } else {
        assert x - q * y == -(ax % ay);
      }
    } else {
      if x >= 0 {
        assert x - (-q) * y == ax % ay;
      } else {
        assert x - (-q) * y == -(ax % ay);
      }
    }
  }

  datatype Op = Add | Subtract | Multiply | Divide | Mod | Min | Max

  /** The BigInteger operation: divide throws for a zero divisor, mod for a non-positive modulus. */
  function Compute(op: Op, x: int, y: int): (r: Result<int, MathError>)
    ensures r.Err? <==> (op == Divide && y == 0) || (op == Mod && y <= 0)
    ensures op == Mod && y > 0 ==> 0 <= r.value < y
    ensures op == Min ==> r.value <= x && r.value <= y && (r.value == x || r.value == y)
    ensures op == Max ==> r.value >= x && r.value >= y && (r.value == x || r.value == y)
  {
    match op
      case Add => Ok(x + y)
      case Subtract => Ok(x - y)
      case Multiply => Ok(x * y)
      case Divide => if y == 0 then Err(Arithmetic) else Ok(TruncDiv(x, y))
      case Mod => if y <= 0 then Err(Arithmetic) else Ok(x % y)
      case Min => Ok(if x <= y then x else y)
      case Max => Ok(if x >= y then x else y)
  }

  /** mod leaves the non-negative remainder of the floored division. */
  lemma ModIsRemainder(x: int, y: int)
    requires y > 0
    ensures Compute(Mod, x, y) == Ok(x - (x / y) * y)
  {
  }

  /** The CACHE map of the utility class. */
  class Cache {
    var cache: map<string, int>

    /** Every key reads back as the value cached under it. */
    ghost predicate Valid()
      reads this
    {
      forall k :: k in cache ==> Decimal.ParseInteger(k) == Ok(cache[k])
    }

    /** The class initialiser: ZERO = valueOf("0") puts "0" in the cache. */
    constructor ()
      ensures Valid()
      ensures cache == map["0" := 0]
    {
      cache := map["0" := 0];
      assert Decimal.ParseInteger("0") == Ok(0) by {
        assert Decimal.DigitsValue("0"[..0]) == 0;
      }
    }

    /** valueOf(String): computeIfAbsent under the stripped text. */
    method ValueOfString(integer: string) returns (r: Result<int, MathError>)
      requires Valid()
      modifies this
      ensures Valid()
      ensures r == ValueOf(integer)
      ensures r.Ok? ==> cache == old(cache)[Stripped(integer) := r.value]
      ensures r.Err? ==> cache == old(cache)
    {
      var integral := StringUtils.IsIntegral(Some(integer));
      if !integral {
        return Err(InvalidArgument);
      }
      var key := StripLeadingZeros(integer);
      if key in cache {
        return Ok(cache[key]);
      }
      match Decimal.ParseInteger(key)
      case Err(e) =>
        return Err(NumberFormat(e));
      case Ok(v) =>
        cache := cache[key := v];
        return Ok(v);
    }

    /** valueOf(long): computeIfAbsent under String.valueOf. */
    method ValueOfLong(integer: Long) returns (v: int)
      requires Valid()
      modifies this
      ensures Valid()
      ensures v == integer as int
      ensures cache == old(cache)[Decimal.IntString(v) := v]
    {
      var key := Decimal.IntString(integer as int);
      Decimal.IntStringRoundTrip(integer as int);
      if key !in cache {
        cache := cache[key := integer as int];
      }
      v := cache[key];
    }

    /** CACHE.putIfAbsent(ret.toString(), ret). */
    method Remember(ret: int)
      requires Valid()
      modifies this
      ensures Valid()
      ensures cache == old(cache)[Decimal.IntString(ret) := ret]
    {
      var key := Decimal.IntString(ret);
      Decimal.IntStringRoundTrip(ret);
      if key !in cache {
        cache := cache[key := ret];
      }
    }

    /** add, subtract, multiply, divide, mod, min and max on two BigIntegers. */
    method ApplyValues(op: Op, integer: int, other: int) returns (r: Result<int, MathError>)
      requires Valid()
      modifies this
      ensures Valid()
      ensures r == Compute(op, integer, other)
      ensures r.Ok? ==> cache == old(cache)[Decimal.IntString(r.value) := r.value]
      ensures r.Err? ==> cache == old(cache)
    {
      r := Compute(op, integer, other);
      if r.Ok? {
        Remember(r.value);
      }
    }

    /** The String overloads: both strings are checked, read through valueOf
      * (which caches them), and the result is cached under its decimal text. */
    method ApplyStrings(op: Op, integer: string, other: string) returns (r: Result<int, MathError>)
      requires Valid()
      modifies this
      ensures Valid()
      ensures r == ApplyStringsSpec(op, integer, other)
      ensures r.Ok? ==> Decimal.IntString(r.value) in cache && cache[Decimal.IntString(r.value)] == r.value
      ensures !StringUtils.Integral(integer) || !StringUtils.Integral(other) ==> cache == old(cache)
      ensures cache == CacheAfterStrings(old(cache), op, integer, other)
    {
      var a := StringUtils.IsIntegral(Some(integer));
      var b := StringUtils.IsIntegral(Some(other));
      if !a || !b {
        return Err(InvalidArgument);
      }
      var x := ValueOfString(integer);
      if x.Err? {
        return Err(x.error);
      }
      var y := ValueOfString(other);
      if y.Err? {
        return Err(y.error);
      }
      r := ApplyValues(op, x.value, y.value);
    }
  }

  /** The cache after a String overload: nothing when an operand is not
    * integral; otherwise each operand that was read is cached under its
    * stripped text, in order, and a successful result under its decimal
    * text. */
  function CacheAfterStrings(cache: map<string, int>, op: Op, integer: string, other: string): map<string, int> {
    if !StringUtils.Integral(integer) || !StringUtils.Integral(other) || ValueOf(integer).Err? then cache
    else
      var first := cache[Stripped(integer) := ValueOf(integer).value];
      if ValueOf(other).Err? then first
      else
        var both := first[Stripped(other) := ValueOf(other).value];
        var ret := Compute(op, ValueOf(integer).value, ValueOf(other).value);
        if ret.Ok? then both[Decimal.IntString(ret.value) := ret.value] else both
  }

  /** The result of a String overload. */
  function ApplyStringsSpec(op: Op, integer: string, other: string): Result<int, MathError> {
    if !StringUtils.Integral(integer) || !StringUtils.Integral(other) then Err(InvalidArgument)
    else if ValueOf(integer).Err? then ValueOf(integer)
    else if ValueOf(other).Err? then ValueOf(other)
    else Compute(op, ValueOf(integer).value, ValueOf(other).value)
  }
}
