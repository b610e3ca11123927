/**
 * Decimal text as `printf` writes it (`%d`, `%lld`, `%s`) and as `fscanf`
 * reads it back: a numeric conversion skips white space, takes an optional
 * sign and then the longest run of decimal digits; `%s` skips white space
 * and takes the longest run of other characters.
 */
module Numerals {
  import opened Options

  /** `isspace` in the "C" locale: space, and tab through carriage return. */
  predicate IsSpace(c: char) {
    c == ' ' || 9 <= c as int <= 13
  }

  predicate IsDigit(c: char) {
    '0' <= c <= '9'
  }

  datatype CharClass = Space | Digit | NonSpace

  predicate InClass(c: char, cls: CharClass) {
    match cls
    case Space => IsSpace(c)
    case Digit => IsDigit(c)
    case NonSpace => !IsSpace(c)
  }

  /** The length of the longest prefix of `t` in class `cls`. */
  function Span(t: string, cls: CharClass): (n: nat)
    ensures n <= |t|
  {
    if t == [] || !InClass(t[0], cls) then 0 else 1 + Span(t[1..], cls)
  }

  /** A span covers characters of its class only, and stops at the first one outside it. */
  lemma {:induction false} SpanBounds(t: string, cls: CharClass)
    ensures forall i :: 0 <= i < Span(t, cls) ==> InClass(t[i], cls)
    ensures Span(t, cls) < |t| ==> !InClass(t[Span(t, cls)], cls)
  {
    if t != [] && InClass(t[0], cls) {
      SpanBounds(t[1..], cls);
    }
  }

  /** A span stops where its class stops. */
  lemma {:induction false} SpanPrefix(p: string, x: string, cls: CharClass)
    requires forall i :: 0 <= i < |p| ==> InClass(p[i], cls)
    requires x == [] || !InClass(x[0], cls)
    ensures Span(p + x, cls) == |p|
  {
    if p != [] {
      assert (p + x)[1..] == p[1..] + x;
      SpanPrefix(p[1..], x, cls);
    } else {
      assert p + x == x;
    }
  }

  /** The value of a decimal digit (the scans below apply it to digits only). */
  function DigitValue(c: char): nat {
    if IsDigit(c) then c as int - '0' as int else 0
  }

  function DigitChar(d: int): (c: char)
    requires 0 <= d < 10
    ensures IsDigit(c) && DigitValue(c) == d
  {
    ('0' as int + d) as char
  }

  predicate AllDigits(ds: string) {
    forall i :: 0 <= i < |ds| ==> IsDigit(ds[i])
  }

  /** The value of a run of decimal digits. */
  function Value(ds: string): nat {
    if ds == [] then 0 else 10 * Value(ds[..|ds| - 1]) + DigitValue(ds[|ds| - 1])
  }

  /** `%d` of a non-negative value: its digits, most significant first, without leading zeros. */
  function NatToString(n: nat): (s: string)
    ensures s != [] && AllDigits(s)
    ensures |s| > 1 ==> s[0] != '0'
  {
    if n < 10 then [DigitChar(n)] else NatToString(n / 10) + [DigitChar(n % 10)]
  }

  /** `%d` / `%lld`: a '-' before the magnitude of a negative value. */
  function IntToString(v: int): (s: string)
    ensures s != [] && !IsSpace(s[0])
  {
    if v < 0 then "-" + NatToString(-v) else NatToString(v)
  }

  lemma {:induction false} ValueOfNatToString(n: nat)
    ensures Value(NatToString(n)) == n
  {
    if n >= 10 {
      ValueOfNatToString(n / 10);
      var s := NatToString(n);
      assert s[..|s| - 1] == NatToString(n / 10);
    }
  }

  /** The sign of a numeric conversion: 1 when `u` starts with '-' or '+'. */
  function SignWidth(u: string): nat {
    if u != [] && (u[0] == '-' || u[0] == '+') then 1 else 0
  }

  /** The value and width of the digits at the start of `t`, or None when it does not start with one. */
  function ReadDigits(t: string): Option<(nat, nat)> {
    var d := Span(t, Digit);
    if d == 0 then None else Some((Value(t[..d]), d))
  }

  /** A magnitude with its sign. */
  function Signed(negative: bool, mag: nat): int {
    var m: int := mag;
    if negative then -m else m
  }

  /** A numeric conversion after its white space: optional sign, then at least one digit. */
  function ScanSigned(u: string): (r: Option<(int, nat)>)
    ensures r.Some? ==> 0 < r.value.1 <= |u|
  {
    var sign := SignWidth(u);
    var digits := ReadDigits(u[sign..]);
    if digits.None? then None
    else
      Some((Signed(sign == 1 && u[0] == '-', digits.value.0), sign + digits.value.1))
  }

  /** Where a numeric conversion stops reading: white space, a sign, digits (also when it fails). */
  function IntInputEnd(t: string): (n: nat)
    ensures n <= |t|
  {
    var w := Span(t, Space);
    var sign := SignWidth(t[w..]);
    w + sign + Span(t[w + sign..], Digit)
  }

  /** `%d` / `%lld`: the value read and the characters consumed, or None on a matching failure or at the end. */
  function ScanInt(t: string): (r: Option<(int, nat)>)
    ensures r.Some? ==> 0 < r.value.1 <= |t|
  {
    var w := Span(t, Space);
    match ScanSigned(t[w..])
    case None => None
    case Some((v, n)) => Some((v, w + n))
  }

  /** `%s`: the token read and the characters consumed, or None when only white space is left. */
  function ScanToken(t: string): (r: Option<(string, nat)>)
    ensures r.Some? ==> r.value.0 != [] && r.value.1 <= |t|
  {
    var w := Span(t, Space);
    var n := Span(t[w..], NonSpace);
    if n == 0 then None else Some((t[w..][..n], w + n))
  }

  predicate AllSpace(w: string) {
    forall i :: 0 <= i < |w| ==> IsSpace(w[i])
  }

  /** White space before a conversion only shifts where it stops. */
  lemma ScanIntAfterSpace(w: string, u: string)
    requires AllSpace(w) && (u == [] || !IsSpace(u[0]))
    ensures ScanInt(w + u) == match ScanSigned(u) case None => None case Some((v, n)) => Some((v, |w| + n))
  {
    SpanPrefix(w, u, Space);
    assert (w + u)[|w|..] == u;
  }

  /** What `%d` / `%lld` wrote reads back as the value, stopping right after it. */
  lemma ScanSignedOfIntToString(v: int, rest: string)
    requires rest == [] || !IsDigit(rest[0])
    ensures ScanSigned(IntToString(v) + rest) == Some((v, |IntToString(v)|))
  {
    var m: nat := if v < 0 then -v else v;
    var mag := NatToString(m);
    ValueOfNatToString(m);
    if v < 0 {
      assert IntToString(v) + rest == "-" + (mag + rest);
      NegativeParts(IntToString(v) + rest, mag, rest);
    } else {
      assert IntToString(v) == mag;
      NonNegativeParts(IntToString(v) + rest, mag, rest);
    }
  }

  /** Digits, then something that is not a digit. */
  lemma NonNegativeParts(u: string, mag: string, rest: string)
    requires u == mag + rest
    requires mag != [] && AllDigits(mag) && (rest == [] || !IsDigit(rest[0]))
    ensures ScanSigned(u) == Some((Signed(false, Value(mag)), |mag|))
  {
    assert u[0] == mag[0] && IsDigit(mag[0]);
    assert u[0..] == u;
    ReadDigitsOf(u, mag, rest);
  }

  /** A '-', digits, then something that is not a digit. */
  lemma NegativeParts(u: string, mag: string, rest: string)
    requires u == "-" + (mag + rest)
    requires mag != [] && AllDigits(mag) && (rest == [] || !IsDigit(rest[0]))
    ensures ScanSigned(u) == Some((Signed(true, Value(mag)), 1 + |mag|))
  {
    DropSign(u, mag + rest);
    ReadDigitsOf(u[1..], mag, rest);
  }

  lemma DropSign(u: string, tail: string)
    requires u == "-" + tail
    ensures u[0] == '-' && u[1..] == tail
  {
  }

  lemma ReadDigitsOf(t: string, mag: string, rest: string)
    requires t == mag + rest
    requires mag != [] && AllDigits(mag) && (rest == [] || !IsDigit(rest[0]))
    ensures ReadDigits(t) == Some((Value(mag), |mag|))
  {
    DigitsThenRest(mag, rest);
    assert t[..|mag|] == mag;
  }

  lemma DigitsThenRest(mag: string, rest: string)
    requires AllDigits(mag) && (rest == [] || !IsDigit(rest[0]))
    ensures Span(mag + rest, Digit) == |mag|
  {
    SpanPrefix(mag, rest, Digit);
  }

  /** Reading back what `%d` / `%lld` wrote, after any white space, gives the value and stops right after it. */
  lemma ScanIntRoundTrip(t: string, w: string, v: int, rest: string)
    requires t == w + IntToString(v) + rest
    requires AllSpace(w)
    requires rest == [] || !IsDigit(rest[0])
    ensures ScanInt(t) == Some((v, |w| + |IntToString(v)|))
  {
    var s := IntToString(v);
    ScanSignedOfIntToString(v, rest);
    ScanIntParts(t, w, s, rest, v);
  }

  lemma ScanIntParts(t: string, w: string, s: string, rest: string, v: int)
    requires t == w + s + rest && AllSpace(w) && s != [] && !IsSpace(s[0])
    requires ScanSigned(s + rest) == Some((v, |s|))
    ensures ScanInt(t) == Some((v, |w| + |s|))
  {
    assert t == w + (s + rest);
    ScanIntAfterSpace(w, s + rest);
  }

  /** Reading back what `%s` wrote, after any white space, gives the token and stops right after it. */
  lemma ScanTokenRoundTrip(t: string, w: string, name: string, rest: string)
    requires t == w + name + rest
    requires AllSpace(w)
    requires name != [] && forall i :: 0 <= i < |name| ==> !IsSpace(name[i])
    requires rest == [] || IsSpace(rest[0])
    ensures ScanToken(t) == Some((name, |w| + |name|))
  {
    assert t == w + (name + rest);
    SpanPrefix(w, name + rest, Space);
    assert t[|w|..] == name + rest;
    SpanPrefix(name, rest, NonSpace);
    assert t[|w|..][..|name|] == name;
  }
}
