/**
 * The global `parseInt` of JavaScript as the product handlers call it: with one
 * argument, so the radix is 10 unless the digits start with `0x` or `0X`.
 * It is lenient: it skips leading white space, takes an optional sign and then
 * the LONGEST prefix of digits, ignoring whatever follows ("12abc" gives 12).
 * Only when that prefix is empty is the result `NaN`, modelled as `None`.
 */
module JsParse {
  import opened Wrappers

  /** The StrWhiteSpaceChar code points of ECMAScript: WhiteSpace (including every
      Unicode "Zs" character) and LineTerminator. */
  predicate IsWhiteSpace(c: char) {
    var n := c as int;
    n == 0x09 || n == 0x0A || n == 0x0B || n == 0x0C || n == 0x0D || n == 0x20 ||
    n == 0xA0 || n == 0x1680 || (0x2000 <= n <= 0x200A) || n == 0x2028 || n == 0x2029 ||
    n == 0x202F || n == 0x205F || n == 0x3000 || n == 0xFEFF
  }

  predicate IsDecimalDigit(c: char) { '0' <= c <= '9' }

  predicate IsHexDigit(c: char) {
    IsDecimalDigit(c) || 'a' <= c <= 'f' || 'A' <= c <= 'F'
  }

  /** Is `c` a digit in the given radix (`parseInt` only reaches 10 and 16 here)? */
  predicate IsDigit(c: char, radix: nat) {
    if radix == 16 then IsHexDigit(c) else IsDecimalDigit(c)
  }

  function DigitValue(c: char): (d: nat)
    requires IsHexDigit(c)
    ensures d < 16
    ensures IsDecimalDigit(c) ==> d < 10
  {
    if IsDecimalDigit(c) then c as int - '0' as int
    else if 'a' <= c <= 'f' then c as int - 'a' as int + 10
    else c as int - 'A' as int + 10
  }

  /** The string with its leading white space removed (TrimString with "start"). */
  function TrimStart(s: string): (r: string)
    ensures |r| <= |s| && r == s[|s| - |r|..]
    ensures r == [] || !IsWhiteSpace(r[0])
    ensures forall i :: 0 <= i < |s| - |r| ==> IsWhiteSpace(s[i])
  {
    if |s| > 0 && IsWhiteSpace(s[0]) then
      var r := TrimStart(s[1..]);
      assert r == s[|s| - |r|..];
      r
    else s
  }

  /** The length of the longest prefix of `s` made of digits of `radix`. */
  function DigitRun(s: string, radix: nat): (n: nat)
    ensures n <= |s|
    ensures forall i :: 0 <= i < n ==> IsDigit(s[i], radix)
    ensures n < |s| ==> !IsDigit(s[n], radix)
  {
    if |s| > 0 && IsDigit(s[0], radix) then 1 + DigitRun(s[1..], radix) else 0
  }

  /** The mathematical value of a string of digits, most significant first. */
  function ValueOf(ds: string, radix: nat): nat
    requires radix == 10 || radix == 16
    requires forall i :: 0 <= i < |ds| ==> IsDigit(ds[i], radix)
  {
    if ds == [] then 0
    else
      var last := ds[|ds| - 1];
      assert IsDigit(last, radix);
      ValueOf(ds[..|ds| - 1], radix) * radix + DigitValue(last)
  }

  /** What is left of a trimmed string once one sign character is stripped. */
  function StripSign(t: string): string {
    if |t| > 0 && (t[0] == '-' || t[0] == '+') then t[1..] else t
  }

  /** What is left once white space and one sign character are stripped. */
  function Unsigned(s: string): string {
    StripSign(TrimStart(s))
  }

  predicate HasHexPrefix(u: string) {
    |u| >= 2 && u[0] == '0' && (u[1] == 'x' || u[1] == 'X')
  }

  /** The radix once the sign is stripped: 16 after a `0x` or `0X` prefix. */
  function RadixOf(u: string): (radix: nat)
    ensures radix == 10 || radix == 16
  {
    if HasHexPrefix(u) then 16 else 10
  }

  /** The text where the digits start, after any `0x` or `0X` prefix. */
  function BodyOf(u: string): string {
    if HasHexPrefix(u) then u[2..] else u
  }

  /** The value of the longest digit prefix of an unsigned string, or `None`
      when that prefix is empty. */
  function Magnitude(u: string): Option<nat> {
    var body, radix := BodyOf(u), RadixOf(u);
    var n := DigitRun(body, radix);
    if n == 0 then None else Some(ValueOf(body[..n], radix))
  }

  /** `parseInt(s)` with no radix argument; `None` stands for `NaN`. A result of
      `-0` is the integer 0, which `===` does not tell apart from `+0`. */
  function ParseInt(s: string): Option<int> {
    ParseTrimmed(TrimStart(s))
  }

  /** `parseInt` from the point where leading white space has been skipped. */
  function ParseTrimmed(t: string): Option<int> {
    match Magnitude(StripSign(t))
    case None => None
    case Some(v) => Some(if |t| > 0 && t[0] == '-' then -(v as int) else v)
  }

  function DigitChar(d: nat): (c: char)
    requires d < 10
    ensures IsDecimalDigit(c) && DigitValue(c) == d
  {
    ('0' as int + d) as char
  }

  /** `String(n)` for a natural number: its decimal digits without leading zeros. */
  function DecimalString(n: nat): string {
    if n < 10 then [DigitChar(n)] else DecimalString(n / 10) + [DigitChar(n % 10)]
  }

  /** `String(n)` for an integer below 10^21 in size, as a client writes an id
      into a request path. */
  function IntToString(n: int): string {
    if n < 0 then "-" + DecimalString(-n) else DecimalString(n)
  }

  /** The decimal string of `n` is a non-empty digit string worth `n`, and it
      starts with `0` only when it is "0". */
  lemma {:induction false} DecimalStringCorrect(n: nat)
    ensures var d := DecimalString(n);
      |d| >= 1 && (forall i :: 0 <= i < |d| ==> IsDecimalDigit(d[i])) &&
      (d[0] == '0' ==> d == "0") && ValueOf(d, 10) == n
  {
    var d := DecimalString(n);
    if n >= 10 {
      var h := DecimalString(n / 10);
      DecimalStringCorrect(n / 10);
      assert d == h + [DigitChar(n % 10)];
      assert d[..|d| - 1] == h;
      assert d[0] == h[0];
    }
  }

  /** Digits followed by a non-digit (or nothing): the run stops exactly there. */
  lemma {:induction false} DigitRunStopsAfter(ds: string, rest: string, radix: nat)
    requires forall i :: 0 <= i < |ds| ==> IsDigit(ds[i], radix)
    requires rest == [] || !IsDigit(rest[0], radix)
    ensures DigitRun(ds + rest, radix) == |ds|
  {
    if ds != [] {
      assert (ds + rest)[1..] == ds[1..] + rest;
      DigitRunStopsAfter(ds[1..], rest, radix);
    }
  }

  /** Leading white space is ignored. */
  lemma {:induction false} TrimStartSkips(w: string, s: string)
    requires forall i :: 0 <= i < |w| ==> IsWhiteSpace(w[i])
    ensures TrimStart(w + s) == TrimStart(s)
  {
    if w == [] {
      assert w + s == s;
    } else {
      assert (w + s)[0] == w[0];
      assert (w + s)[1..] == w[1..] + s;
      TrimStartSkips(w[1..], s);
    }
  }

  lemma ParseIntSkipsLeadingWhiteSpace(w: string, s: string)
    requires forall i :: 0 <= i < |w| ==> IsWhiteSpace(w[i])
    ensures ParseInt(w + s) == ParseInt(s)
  {
    TrimStartSkips(w, s);
  }

  /** `parseInt` on a string taken apart: white space, at most one sign, a
      non-empty run of decimal digits and text that does not continue the run
      (and does not make it a `0x` prefix) gives the value of the digits,
      negated only after `-` ("  +007px" gives 7, "-12" gives -12). */
  lemma ParseIntParts(w: string, sg: string, ds: string, rest: string, v: nat)
    requires forall i :: 0 <= i < |w| ==> IsWhiteSpace(w[i])
    requires sg == "" || sg == "+" || sg == "-"
    requires |ds| >= 1 && forall i :: 0 <= i < |ds| ==> IsDecimalDigit(ds[i])
    requires rest == [] || !IsDecimalDigit(rest[0])
    requires !HasHexPrefix(ds + rest)
    requires v == ValueOf(ds, 10)
    ensures ParseInt(w + sg + ds + rest) == Some(if sg == "-" then -(v as int) else v)
  {
    var u := ds + rest;
    DecimalMagnitude(ds, rest);
    ParseSigned(sg, u, v);
    ParseIntSkipsLeadingWhiteSpace(w, sg + u);
    AppendAssociates(w + sg, ds, rest);
    AppendAssociates(w, sg, u);
  }

  /** Decimal digits followed by text that does not continue them: the
      magnitude read is the value of the digits. */
  lemma DecimalMagnitude(ds: string, rest: string)
    requires |ds| >= 1 && forall i :: 0 <= i < |ds| ==> IsDecimalDigit(ds[i])
    requires rest == [] || !IsDecimalDigit(rest[0])
    requires !HasHexPrefix(ds + rest)
    ensures Magnitude(ds + rest) == Some(ValueOf(ds, 10))
  {
    var u := ds + rest;
    assert BodyOf(u) == u && RadixOf(u) == 10;
    DigitRunStopsAfter(ds, rest, 10);
    assert u[..|ds|] == ds;
  }

  /** An optional sign in front of a string that starts with a digit. */
  lemma ParseSigned(sg: string, u: string, v: nat)
    requires sg == "" || sg == "+" || sg == "-"
    requires |u| > 0 && IsDecimalDigit(u[0]) && Magnitude(u) == Some(v)
    ensures ParseInt(sg + u) == Some(if sg == "-" then -(v as int) else v)
  {
    if sg == "" {
      assert sg + u == u;
      ParseIntDigitFirst(u, v);
    } else if sg == "-" {
      ParseIntMinus(u, v);
    } else {
      var t := sg + u;
      assert !IsWhiteSpace(t[0]);
      assert TrimStart(t) == t;
      assert StripSign(t) == u;
    }
  }

  /** A string that starts with a digit has neither white space nor a sign. */
  lemma ParseIntDigitFirst(u: string, v: nat)
    requires |u| > 0 && IsDecimalDigit(u[0]) && Magnitude(u) == Some(v)
    ensures ParseInt(u) == Some(v)
  {
    assert !IsWhiteSpace(u[0]);
    assert StripSign(u) == u;
  }

  /** A minus sign in front negates the magnitude. */
  lemma ParseIntMinus(u: string, v: nat)
    requires Magnitude(u) == Some(v)
    ensures ParseInt("-" + u) == Some(-(v as int))
  {
    var t := "-" + u;
    assert !IsWhiteSpace(t[0]);
    assert TrimStart(t) == t;
    assert StripSign(t) == u;
  }

  /** The decimal form of `m` followed by text that does not continue it: the
      magnitude read is `m`. */
  lemma DecimalThenRest(m: nat, rest: string)
    requires rest == [] || (!IsDecimalDigit(rest[0]) && !(m == 0 && (rest[0] == 'x' || rest[0] == 'X')))
    ensures var u := DecimalString(m) + rest;
      IsDecimalDigit(u[0]) && Magnitude(u) == Some(m)
  {
    var d := DecimalString(m);
    DecimalStringCorrect(m);
    var u := d + rest;
    assert !HasHexPrefix(u) by {
      if |u| >= 2 && d[0] == '0' {
        assert d == "0" && u[1] == rest[0];
      }
    }
    DigitRunStopsAfter(d, rest, 10);
    assert u[..|d|] == d;
  }

  /** The decimal form of a natural number followed by text that does not
      continue it parses as that number. */
  lemma ParseNaturalThenRest(n: int, rest: string)
    requires n >= 0
    requires rest == [] || (!IsDecimalDigit(rest[0]) && !(n == 0 && (rest[0] == 'x' || rest[0] == 'X')))
    ensures ParseInt(IntToString(n) + rest) == Some(n)
  {
    var u := DecimalString(n) + rest;
    DecimalThenRest(n, rest);
    ParseIntDigitFirst(u, n);
  }

  /** The same behind a minus sign parses as the opposite number. */
  lemma ParseNegativeThenRest(n: int, rest: string)
    requires n < 0
    requires rest == [] || !IsDecimalDigit(rest[0])
    ensures ParseInt(IntToString(n) + rest) == Some(n)
  {
    var u := DecimalString(-n) + rest;
    DecimalThenRest(-n, rest);
    ParseIntMinus(u, -n);
    AppendAssociates("-", DecimalString(-n), rest);
  }

  /** Leniency: the decimal form of `n` followed by any text that does not
      continue the number still parses as `n` ("12abc" gives 12). The one catch
      is "0" followed by `x` or `X`, which switches to hexadecimal. */
  lemma ParseIntLenient(n: int, rest: string)
    requires rest == [] || (!IsDecimalDigit(rest[0]) && !(n == 0 && (rest[0] == 'x' || rest[0] == 'X')))
    ensures ParseInt(IntToString(n) + rest) == Some(n)
  {
    if n < 0 {
      ParseNegativeThenRest(n, rest);
    } else {
      ParseNaturalThenRest(n, rest);
    }
  }

  /** Round trip: the id a client writes into a path is the id the handler reads. */
  lemma ParseIntRoundTrip(n: int)
    ensures ParseInt(IntToString(n)) == Some(n)
  {
    ParseIntLenient(n, "");
    assert IntToString(n) + "" == IntToString(n);
  }

  /** `NaN`: after white space and sign there is no decimal digit ("abc", "-x", ""). */
  lemma ParseIntNaN(s: string)
    requires Unsigned(s) == [] || !IsDecimalDigit(Unsigned(s)[0])
    ensures ParseInt(s) == None
  {
    var u := Unsigned(s);
    assert !HasHexPrefix(u);
    assert DigitRun(u, 10) == 0;
  }

  lemma DropPrefix(a: string, b: string)
    ensures (a + b)[|a|..] == b
  {
  }

  lemma AppendAssociates(a: string, b: string, c: string)
    ensures a + b + c == a + (b + c)
  {
  }

  /** After "0x" the magnitude is the value of the longest hexadecimal run. */
  lemma HexMagnitude(ds: string, rest: string)
    requires |ds| >= 1 && forall i :: 0 <= i < |ds| ==> IsHexDigit(ds[i])
    requires rest == [] || !IsHexDigit(rest[0])
    ensures Magnitude("0x" + (ds + rest)) == Some(ValueOf(ds, 16))
  {
    var body := ds + rest;
    var s := "0x" + body;
    DropPrefix("0x", body);
    assert BodyOf(s) == body && RadixOf(s) == 16;
    DigitRunStopsAfter(ds, rest, 16);
    assert body[..|ds|] == ds;
  }

  /** A string that starts with "0x" has nothing to trim and no sign. */
  lemma ParseIntHexStart(s: string, v: nat)
    requires HasHexPrefix(s) && Magnitude(s) == Some(v)
    ensures ParseInt(s) == Some(v)
  {
    assert !IsWhiteSpace(s[0]);
    assert StripSign(s) == s;
  }

  /** Hexadecimal: after "0x" the longest run of hexadecimal digits is read. */
  lemma ParseIntHex(ds: string, rest: string)
    requires |ds| >= 1 && forall i :: 0 <= i < |ds| ==> IsHexDigit(ds[i])
    requires rest == [] || !IsHexDigit(rest[0])
    ensures ParseInt("0x" + ds + rest) == Some(ValueOf(ds, 16))
  {
    HexMagnitude(ds, rest);
    AppendAssociates("0x", ds, rest);
    ParseIntHexStart("0x" + (ds + rest), ValueOf(ds, 16));
  }
}
