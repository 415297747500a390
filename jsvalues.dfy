/**
 * The JavaScript value semantics the services rely on: the JSON value stored
 * in an answer, truthiness, `Number(...)`, `parseFloat`, `parseInt`,
 * `String(...)`, `toLowerCase`, `===`, `includes`, `split(/\s+/)` and
 * `Math.round`, all stated over exact numbers.
 */
module JsValues {
  import opened Wrappers

  /** The JSON value held in the `answer` column of a user answer. */
  datatype Answer = Null | Bool(b: bool) | Num(n: int) | Str(s: string) | Items(xs: seq<string>)

  /** `!value` in JavaScript: null, false, 0 and the empty string are falsy; arrays never are. */
  predicate IsFalsy(a: Answer)
  {
    match a
    case Null => true
    case Bool(b) => !b
    case Num(n) => n == 0
    case Str(s) => s == ""
    case Items(_) => false
  }

  /** A string that is neither null nor empty, as `x && ...` tests it. */
  predicate Truthy(o: Option<string>)
  {
    o.Some? && o.value != ""
  }

  // ---------------------------------------------------------------- characters

  predicate IsWhitespace(c: char)
  {
    c == ' ' || c == '\t' || c == '\n' || c == '\r'
  }

  predicate IsDigit(c: char)
  {
    '0' <= c <= '9'
  }

  predicate AllDigits(s: string)
  {
    forall i :: 0 <= i < |s| ==> IsDigit(s[i])
  }

  /** The value of a decimal digit; only ever applied to digits. */
  function DigitValue(c: char): (d: nat)
    ensures d < 10
  {
    if IsDigit(c) then (c as int) - ('0' as int) else 0
  }

  function DigitChar(d: nat): (c: char)
    requires d < 10
    ensures IsDigit(c) && DigitValue(c) == d
  {
    (('0' as int) + d) as char
  }

  /** Drops the leading whitespace, as number parsing does. */
  function TrimStart(s: string): (r: string)
    ensures |r| <= |s|
    ensures r == [] || !IsWhitespace(r[0])
    ensures |s| > 0 && IsWhitespace(s[0]) ==> |r| < |s|
  {
    if |s| > 0 && IsWhitespace(s[0]) then TrimStart(s[1..]) else s
  }

  /** Drops the trailing whitespace. */
  function TrimEnd(s: string): (r: string)
    ensures |r| <= |s|
    ensures r == [] || !IsWhitespace(r[|r| - 1])
  {
    if |s| > 0 && IsWhitespace(s[|s| - 1]) then TrimEnd(s[..|s| - 1]) else s
  }

  /** The longest run of decimal digits at the start of `s`. */
  function DigitPrefix(s: string): (r: string)
    ensures |r| <= |s|
  {
    if |s| > 0 && IsDigit(s[0]) then [s[0]] + DigitPrefix(s[1..]) else []
  }

  /** The natural number a run of decimal digits denotes. */
  function DigitsValue(ds: string): nat
  {
    if ds == [] then 0 else 10 * DigitsValue(ds[..|ds| - 1]) + DigitValue(ds[|ds| - 1])
  }

  /** The value of the digits written after a decimal point: `0.ds`. */
  function FractionValue(ds: string): real
  {
    if ds == [] then 0.0 else (DigitValue(ds[0]) as real + FractionValue(ds[1..])) / 10.0
  }

  // ---------------------------------------------------------------- numbers from text

  /**
   * Reads `[sign] digits [. digits]` at the start of `t`. Gives the value read
   * and the number of characters consumed, or None when no digit is read.
   */
  function DecimalPrefix(t: string): (r: Option<(real, nat)>)
    ensures r.Some? ==> 0 < r.value.1 <= |t|
  {
    var k := if |t| > 0 && (t[0] == '+' || t[0] == '-') then 1 else 0;
    var ip := DigitPrefix(t[k..]);
    var j := k + |ip|;
    var dot := j < |t| && t[j] == '.';
    var fp := if dot then DigitPrefix(t[j + 1..]) else [];
    if |ip| == 0 && |fp| == 0 then None
    else
      var magnitude := DigitsValue(ip) as real + FractionValue(fp);
      Some((if k == 1 && t[0] == '-' then -magnitude else magnitude, if dot then j + 1 + |fp| else j))
  }

  /** `parseFloat(s)`: the longest decimal prefix after leading whitespace; None is NaN. */
  function ParseFloat(s: string): Option<real>
  {
    match DecimalPrefix(TrimStart(s))
    case None => None
    case Some(p) => Some(p.0)
  }

  /** `parseInt(s)`: the longest signed digit run after leading whitespace; None is NaN. */
  function ParseInt(s: string): Option<int>
  {
    var t := TrimStart(s);
    var k := if |t| > 0 && (t[0] == '+' || t[0] == '-') then 1 else 0;
    var ds := DigitPrefix(t[k..]);
    if ds == [] then None
    else Some(if k == 1 && t[0] == '-' then -(DigitsValue(ds) as int) else DigitsValue(ds))
  }

  /** `parseFloat(value)` on an answer, which first turns it into `String(value)`. */
  function ParseFloatAnswer(a: Answer): Option<real>
  {
    match a
    case Num(n) => Some(n as real)
    case Str(s) => ParseFloat(s)
    case Items(xs) => ParseFloat(Join(xs, ","))
    case _ => None
  }

  /** `Number(s)`: the whole trimmed string must be a decimal; the empty string is 0. */
  function StringToNumber(s: string): Option<real>
  {
    var t := TrimEnd(TrimStart(s));
    if t == [] then Some(0.0)
    else match DecimalPrefix(t)
      case Some(p) => if p.1 == |t| then Some(p.0) else None
      case None => None
  }

  /** The numeric coercion applied by `a - b` to an answer. */
  function ToNumber(a: Answer): Option<real>
  {
    match a
    case Null => Some(0.0)
    case Bool(b) => Some(if b then 1.0 else 0.0)
    case Num(n) => Some(n as real)
    case Str(s) => StringToNumber(s)
    case Items(xs) =>
      if |xs| == 0 then Some(0.0) else if |xs| == 1 then StringToNumber(xs[0]) else None
  }

  // ---------------------------------------------------------------- text from values

  function NatToString(n: nat): (s: string)
    ensures |s| > 0
    decreases n
  {
    if n < 10 then [DigitChar(n)] else NatToString(n / 10) + [DigitChar(n % 10)]
  }

  function IntToString(n: int): string
  {
    if n < 0 then "-" + NatToString(-n) else NatToString(n)
  }

  /** `xs.join(sep)`. */
  function Join(xs: seq<string>, sep: string): string
  {
    if xs == [] then "" else if |xs| == 1 then xs[0] else xs[0] + sep + Join(xs[1..], sep)
  }

  /** `String(a)`: arrays render as their comma-joined elements. */
  function AsString(a: Answer): string
  {
    match a
    case Null => "null"
    case Bool(b) => if b then "true" else "false"
    case Num(n) => IntToString(n)
    case Str(s) => s
    case Items(xs) => Join(xs, ",")
  }

  function LowerChar(c: char): char
  {
    if 'A' <= c <= 'Z' then ((c as int) + 32) as char else c
  }

  /** `s.toLowerCase()` on the ASCII letters. */
  function ToLower(s: string): (r: string)
    ensures |r| == |s|
  {
    if s == [] then [] else [LowerChar(s[0])] + ToLower(s[1..])
  }

  /** Lower-casing works character by character. */
  lemma {:induction false} ToLowerAt(s: string)
    ensures forall i :: 0 <= i < |s| ==> ToLower(s)[i] == LowerChar(s[i])
  {
    if s != [] {
      ToLowerAt(s[1..]);
      assert forall i :: 1 <= i < |s| ==> ToLower(s)[i] == ToLower(s[1..])[i - 1];
    }
  }

  /** `a === b`: two arrays read from different records are never the same object. */
  predicate StrictEquals(a: Answer, b: Answer)
  {
    match (a, b)
    case (Null, Null) => true
    case (Bool(x), Bool(y)) => x == y
    case (Num(x), Num(y)) => x == y
    case (Str(x), Str(y)) => x == y
    case _ => false
  }

  /** `hay.includes(needle)` on strings. */
  predicate Contains(hay: string, needle: string)
  {
    needle <= hay || (|hay| > 0 && Contains(hay[1..], needle))
  }

  /** Index of the first whitespace character of `s`, or `|s|`. */
  function FirstWhitespace(s: string): (i: nat)
    ensures i <= |s|
    ensures i < |s| ==> IsWhitespace(s[i])
    ensures forall k :: 0 <= k < i ==> !IsWhitespace(s[k])
  {
    if s == [] || IsWhitespace(s[0]) then 0 else 1 + FirstWhitespace(s[1..])
  }

  /** `s.split(/\s+/)`: empty pieces appear at the ends when `s` starts or ends with whitespace. */
  function SplitWhitespace(s: string): (r: seq<string>)
    ensures |r| >= 1
    decreases |s|
  {
    var i := FirstWhitespace(s);
    if i == |s| then [s] else [s[..i]] + SplitWhitespace(TrimStart(s[i..]))
  }

  // ---------------------------------------------------------------- arithmetic

  function MinR(x: real, y: real): real { if x <= y then x else y }

  function MaxR(x: real, y: real): real { if x >= y then x else y }

  function AbsR(x: real): real { if x < 0.0 then -x else x }

  /** `Math.round(x)`: the nearest integer, halves rounded up. */
  function Round(x: real): int
  {
    (x + 0.5).Floor
  }

  /** `Math.round(x * 10) / 10`. */
  function RoundToTenths(x: real): real
  {
    Round(x * 10.0) as real / 10.0
  }

  /** `Math.round(x * 100) / 100`. */
  function RoundToHundredths(x: real): real
  {
    Round(x * 100.0) as real / 100.0
  }

  lemma RoundMonotone(x: real, y: real)
    requires x <= y
    ensures Round(x) <= Round(y)
  {
  }

  lemma RoundOfInt(n: int)
    ensures Round(n as real) == n
  {
  }

  /** Rounding keeps a value inside integer bounds. */
  lemma RoundBetween(x: real, lo: int, hi: int)
    requires lo as real <= x <= hi as real
    ensures lo <= Round(x) <= hi
  {
    RoundMonotone(lo as real, x);
    RoundMonotone(x, hi as real);
    RoundOfInt(lo);
    RoundOfInt(hi);
  }

  lemma RoundToTenthsBetween(x: real, lo: int, hi: int)
    requires lo as real <= x <= hi as real
    ensures lo as real <= RoundToTenths(x) <= hi as real
  {
    RoundBetween(x * 10.0, lo * 10, hi * 10);
  }

  lemma RoundToHundredthsBetween(x: real, lo: int, hi: int)
    requires lo as real <= x <= hi as real
    ensures lo as real <= RoundToHundredths(x) <= hi as real
  {
    RoundBetween(x * 100.0, lo * 100, hi * 100);
  }

  lemma RoundToTenthsMonotone(x: real, y: real)
    requires x <= y
    ensures RoundToTenths(x) <= RoundToTenths(y)
  {
    RoundMonotone(x * 10.0, y * 10.0);
  }

  lemma RoundToHundredthsMonotone(x: real, y: real)
    requires x <= y
    ensures RoundToHundredths(x) <= RoundToHundredths(y)
  {
    RoundMonotone(x * 100.0, y * 100.0);
  }

  // ---------------------------------------------------------------- round trips

  lemma {:induction false} DigitsValueAppend(ds: string, c: char)
    ensures DigitsValue(ds + [c]) == 10 * DigitsValue(ds) + DigitValue(c)
  {
    assert (ds + [c])[..|ds|] == ds;
  }

  lemma {:induction false} NatToStringValue(n: nat)
    ensures DigitsValue(NatToString(n)) == n
    decreases n
  {
    if n >= 10 {
      NatToStringValue(n / 10);
      DigitsValueAppend(NatToString(n / 10), DigitChar(n % 10));
    }
  }

  lemma {:induction false} NatToStringDigits(n: nat)
    ensures AllDigits(NatToString(n))
    decreases n
  {
    if n >= 10 {
      NatToStringDigits(n / 10);
    }
  }

  /** A digit run followed by a non-digit (or nothing) is read back whole. */
  lemma {:induction false} DigitPrefixOfDigits(ds: string, rest: string)
    requires AllDigits(ds)
    requires rest == [] || !IsDigit(rest[0])
    ensures DigitPrefix(ds + rest) == ds
    decreases |ds|
  {
    if ds != [] {
      assert (ds + rest)[1..] == ds[1..] + rest;
      DigitPrefixOfDigits(ds[1..], rest);
    }
  }

  /** The sign of `IntToString(n)` followed by its digits. */
  lemma {:induction false} IntToStringShape(n: int)
    ensures var m: nat := if n < 0 then -n else n;
      IntToString(n) == (if n < 0 then "-" else "") + NatToString(m)
  {
  }

  /** A sign and a digit run, read as a decimal, give back its value and length. */
  lemma {:induction false} DecimalPrefixOfDigits(t: string, neg: bool, ds: string)
    requires AllDigits(ds) && |ds| > 0
    requires t == (if neg then "-" else "") + ds
    ensures DecimalPrefix(t) == Some((if neg then -(DigitsValue(ds) as real) else DigitsValue(ds) as real, |t|))
  {
    var k := if neg then 1 else 0;
    assert IsDigit(ds[0]);
    assert |t| > 0 && (t[0] == '+' || t[0] == '-') <==> neg;
    assert t[k..] == ds;
    DigitPrefixOfDigits(ds, []);
    assert ds + [] == ds;
    assert DigitPrefix(t[k..]) == ds;
  }

  /** A sign and a digit run has no whitespace to trim. */
  lemma {:induction false} SignedDigitsTrimmed(t: string, neg: bool, ds: string)
    requires AllDigits(ds) && |ds| > 0
    requires t == (if neg then "-" else "") + ds
    ensures TrimStart(t) == t && TrimEnd(t) == t
  {
    assert IsDigit(ds[0]) && IsDigit(ds[|ds| - 1]);
    assert t[|t| - 1] == ds[|ds| - 1];
    assert t[0] == '-' || t[0] == ds[0];
    var c0, cn := t[0], t[|t| - 1];
    assert !IsWhitespace(c0) && !IsWhitespace(cn);
    TrimNoop(t);
  }

  lemma TrimNoop(t: string)
    requires |t| > 0 && !IsWhitespace(t[0]) && !IsWhitespace(t[|t| - 1])
    ensures TrimStart(t) == t && TrimEnd(t) == t
  {
  }

  /** A sign and a digit run, read as an integer, give back its value. */
  lemma {:induction false} IntegerPrefixOfDigits(t: string, neg: bool, ds: string)
    requires AllDigits(ds) && |ds| > 0
    requires t == (if neg then "-" else "") + ds
    ensures ParseInt(t) == Some(if neg then -(DigitsValue(ds) as int) else DigitsValue(ds))
  {
    SignedDigitsTrimmed(t, neg, ds);
    var k := if neg then 1 else 0;
    assert IsDigit(ds[0]);
    assert |t| > 0 && (t[0] == '+' || t[0] == '-') <==> neg;
    assert t[k..] == ds;
    DigitPrefixOfDigits(ds, []);
    assert ds + [] == ds;
    assert DigitPrefix(t[k..]) == ds;
  }

  /** parseInt reads back every integer String() writes. */
  lemma ParseIntOfIntToString(n: int)
    ensures ParseInt(IntToString(n)) == Some(n)
  {
    var m: nat := if n < 0 then -n else n;
    IntToStringShape(n);
    NatToStringValue(m);
    NatToStringDigits(m);
    IntegerPrefixOfDigits(IntToString(n), n < 0, NatToString(m));
  }

  /** parseFloat reads back every integer String() writes. */
  lemma ParseFloatOfIntToString(n: int)
    ensures ParseFloat(IntToString(n)) == Some(n as real)
  {
    var m: nat := if n < 0 then -n else n;
    IntToStringShape(n);
    NatToStringValue(m);
    NatToStringDigits(m);
    SignedDigitsTrimmed(IntToString(n), n < 0, NatToString(m));
    DecimalPrefixOfDigits(IntToString(n), n < 0, NatToString(m));
  }

  /** Number() reads back every integer String() writes. */
  lemma StringToNumberOfIntToString(n: int)
    ensures StringToNumber(IntToString(n)) == Some(n as real)
  {
    var m: nat := if n < 0 then -n else n;
    IntToStringShape(n);
    NatToStringValue(m);
    NatToStringDigits(m);
    SignedDigitsTrimmed(IntToString(n), n < 0, NatToString(m));
    DecimalPrefixOfDigits(IntToString(n), n < 0, NatToString(m));
  }

  /** `ParseFloatAnswer` is `parseFloat(String(value))`: null, true and false are NaN. */
  lemma ParseFloatAnswerIsParseFloat(a: Answer)
    ensures ParseFloatAnswer(a) == ParseFloat(AsString(a))
  {
    match a
    case Num(n) => ParseFloatOfIntToString(n);
    case Null => WordIsNaN("null");
    case Bool(b) => if b { WordIsNaN("true"); } else { WordIsNaN("false"); }
    case _ =>
  }

  /** A word starting with a letter does not parse as a number. */
  lemma WordIsNaN(w: string)
    requires |w| > 0 && 'a' <= w[0] <= 'z'
    ensures ParseFloat(w) == None
  {
    assert TrimStart(w) == w;
    assert DigitPrefix(w) == [];
    assert w[0..] == w;
  }
}
