/** The cache-freshness rule of both front ends: the local snapshot is stale once
    the current time is past its modification time plus a time-to-live, all in
    integer milliseconds, with JavaScript's NaN propagating through the sum. */
module Freshness {
  import opened Dicts
  import Numerals

  /** A JavaScript number as far as this rule needs it: an integer or NaN. */
  datatype Num = NaN | Int(value: int)

  /** Thirty days in milliseconds: the TTL used when no `cache` parameter is given. */
  const DefaultCacheTime: nat := 30 * 24 * 60 * 60 * 1000

  /** The TTL hard-coded by the older front end. */
  const LegacyCacheTime: nat := 60

  /** ECMAScript's StrWhiteSpaceChar: WhiteSpace (tab, vertical tab, form feed,
      no-break space, byte-order mark and every Zs space) or LineTerminator. */
  predicate IsJsWhitespace(c: char)
  {
    var n := c as int;
    n == 0x09 || n == 0x0B || n == 0x0C || n == 0x20 || n == 0xA0 || n == 0xFEFF
    || n == 0x1680 || (0x2000 <= n <= 0x200A) || n == 0x202F || n == 0x205F || n == 0x3000
    || n == 0x0A || n == 0x0D || n == 0x2028 || n == 0x2029
  }

  /** The number of leading whitespace characters. */
  function LeadingSpace(s: string): (k: nat)
    ensures k <= |s|
    ensures forall i :: 0 <= i < k ==> IsJsWhitespace(s[i])
    ensures k < |s| ==> !IsJsWhitespace(s[k])
    decreases |s|
  {
    if s != [] && IsJsWhitespace(s[0]) then 1 + LeadingSpace(s[1..]) else 0
  }

  /** The length of the longest prefix made of digits of the radix. */
  function DigitRun(s: string, radix: nat): (k: nat)
    ensures k <= |s|
    ensures forall i :: 0 <= i < k ==> Numerals.IsDigitIn(s[i], radix)
    ensures k < |s| ==> !Numerals.IsDigitIn(s[k], radix)
    decreases |s|
  {
    if s != [] && Numerals.IsDigitIn(s[0], radix) then 1 + DigitRun(s[1..], radix) else 0
  }

  /** The text `parseInt` reads its digits from: `s` after the leading whitespace
      and one optional sign. */
  function Unsigned(s: string): string
  {
    var t := s[LeadingSpace(s)..];
    if |t| > 0 && (t[0] == '-' || t[0] == '+') then t[1..] else t
  }

  /** A `0x` or `0X` prefix, which selects radix 16. */
  predicate HexPrefixed(u: string)
  {
    |u| >= 2 && u[0] == '0' && (u[1] == 'x' || u[1] == 'X')
  }

  /** No digit follows the whitespace, the sign and any `0x` prefix: ".5", "v2",
      "-x1", "0x" and "0xg" are such strings. */
  predicate NoLeadingDigit(s: string)
  {
    var u := Unsigned(s);
    if HexPrefixed(u) then |u| == 2 || !Numerals.IsDigitIn(u[2], 16)
    else u == [] || !Numerals.IsDecimalDigit(u[0])
  }

  /** `parseInt(s)` with no radix argument: skip leading whitespace, take one
      optional sign, then a `0x`/`0X` prefix selects radix 16 (otherwise 10), and
      the longest run of digits that follows is the value; no digits give NaN. */
  function ParseInt(s: string): Num
  {
    var t := s[LeadingSpace(s)..];
    var negative := |t| > 0 && t[0] == '-';
    var u := Unsigned(s);
    var hex := HexPrefixed(u);
    var radix := if hex then 16 else 10;
    var w := if hex then u[2..] else u;
    var digits := w[..DigitRun(w, radix)];
    var magnitude: int := Numerals.Value(digits, radix);
    if digits == [] then NaN
    else if negative then Int(-magnitude)
    else Int(magnitude)
  }

  /** `parseInt` gives NaN exactly when no digit follows the whitespace, the sign
      and any `0x` prefix. */
  lemma ParseIntIsNaN(s: string)
    ensures ParseInt(s) == NaN <==> NoLeadingDigit(s)
  {
    var u := Unsigned(s);
    var w := if HexPrefixed(u) then u[2..] else u;
    var radix := if HexPrefixed(u) then 16 else 10;
    assert DigitRun(w, radix) == 0 <==> w == [] || !Numerals.IsDigitIn(w[0], radix);
  }

  /** `parseInt(String(i))` is `i`: printing an integer and parsing it back loses nothing. */
  lemma ParseIntOfIntString(i: int)
    ensures ParseInt(Numerals.IntString(i)) == Int(i)
  {
    var s := Numerals.IntString(i);
    var n: nat := if i < 0 then -i else i;
    var d := Numerals.DecimalString(n);
    assert !IsJsWhitespace(s[0]);
    assert LeadingSpace(s) == 0;
    var u := if i < 0 then s[1..] else s;
    assert u == d;
    assert !(|u| >= 2 && u[1] == 'x') && !(|u| >= 2 && u[1] == 'X') by {
      if |u| >= 2 { assert Numerals.IsDecimalDigit(u[1]); }
    }
    assert DigitRun(d, 10) == |d|;
    assert d[..|d|] == d;
    Numerals.ValueOfDecimalString(n);
  }

  /** A string without a single decimal digit parses to NaN: it can carry neither
      a `0x` prefix nor a decimal digit. */
  lemma NoDigitsIsNaN(s: string)
    requires forall i :: 0 <= i < |s| ==> !Numerals.IsDecimalDigit(s[i])
    ensures ParseInt(s) == NaN
  {
    var t := s[LeadingSpace(s)..];
    var u := if |t| > 0 && (t[0] == '-' || t[0] == '+') then t[1..] else t;
    assert forall i :: 0 <= i < |u| ==> !Numerals.IsDecimalDigit(u[i]);
    if |u| > 0 {
      assert !Numerals.IsDigitIn(u[0], 10);
    }
  }

  /** `new URLSearchParams(location.search).get('cache') || 30 * 24 * 60 * 60 * 1000`,
      then `parseInt`: an absent or empty parameter gives the 30-day default, any
      other parameter is parsed. */
  function CacheTtl(param: Option<string>): (ttl: Num)
    ensures param == None || param == Some("") ==> ttl == Int(2592000000)
    ensures param.Some? && param.value != "" ==> ttl == ParseInt(param.value)
  {
    if param.Some? && param.value != "" then ParseInt(param.value)
    else
      ParseIntOfIntString(DefaultCacheTime);
      ParseInt(Numerals.IntString(DefaultCacheTime))
  }

  /** `nowTime > fileTime + ttl`. A NaN on either side of the sum makes the sum NaN
      and the comparison false, so the snapshot counts as fresh. */
  predicate IsStale(now: int, fileTime: Num, ttl: Num)
  {
    match (fileTime, ttl)
    case (Int(f), Int(t)) => now > f + t
    case _ => false
  }

  /** The freshness rule as the modern front end applies it to a `cache` parameter:
      stale exactly when both the modification time and the parameter are numbers
      and `now` is strictly past their sum; at the boundary the data is fresh. */
  lemma {:induction false} StaleRule(now: int, fileTime: int, param: Option<string>)
    ensures IsStale(now, Int(fileTime), CacheTtl(param)) <==>
      CacheTtl(param).Int? && now > fileTime + CacheTtl(param).value
    ensures param == None ==> (IsStale(now, Int(fileTime), CacheTtl(param)) <==> now > fileTime + DefaultCacheTime)
    ensures CacheTtl(param).Int? ==> !IsStale(fileTime + CacheTtl(param).value, Int(fileTime), CacheTtl(param))
  {
  }

  /** `?cache=0` is truthy, so it is parsed and gives a TTL of zero: stale as soon
      as any time has passed. */
  lemma ZeroParameter(now: int, fileTime: int)
    ensures CacheTtl(Some("0")) == Int(0)
    ensures IsStale(now, Int(fileTime), CacheTtl(Some("0"))) <==> now > fileTime
  {
    ParseIntOfIntString(0);
    assert Numerals.IntString(0) == "0";
  }

  /** A `cache` parameter with no digit after its whitespace, sign and `0x` prefix
      parses to NaN, and the snapshot is then fresh whatever the times are. */
  lemma NonNumericParameterIsFresh(s: string, now: int, fileTime: Num)
    requires s != [] && NoLeadingDigit(s)
    ensures CacheTtl(Some(s)) == NaN
    ensures !IsStale(now, fileTime, CacheTtl(Some(s)))
  {
    ParseIntIsNaN(s);
  }
}
