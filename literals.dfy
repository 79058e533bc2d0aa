/**
 * How key values become SQL literals inside a predicate: strings are wrapped
 * in single quotes with every embedded quote doubled; integers are written
 * the way Python's `str` writes them. Each rendering comes with the parser
 * that inverts it, so that rendering is provably lossless and injective.
 */
module Literals {
  import opened Common

  const Quote: char := '\''

  /** `v.replace("'", "''")` */
  function Escape(s: string): (r: string)
    ensures |r| >= |s|
  {
    if s == [] then []
    else (if s[0] == Quote then [Quote, Quote] else [s[0]]) + Escape(s[1..])
  }

  /** Undoubles quotes: the inverse of Escape. */
  function Unescape(t: string): string {
    if |t| >= 2 && t[0] == Quote && t[1] == Quote then [Quote] + Unescape(t[2..])
    else if t == [] then []
    else [t[0]] + Unescape(t[1..])
  }

  lemma {:induction false} UnescapeEscape(s: string)
    ensures Unescape(Escape(s)) == s
  {
    if s != [] {
      var rest := Escape(s[1..]);
      UnescapeEscape(s[1..]);
      if s[0] == Quote {
        assert Escape(s) == [Quote, Quote] + rest;
        assert (([Quote, Quote] + rest)[2..]) == rest;
      } else {
        assert Escape(s) == [s[0]] + rest;
        assert (([s[0]] + rest)[1..]) == rest;
      }
      assert s == [s[0]] + s[1..];
    }
  }

  /** `f"'{v.replace(\"'\", \"''\")}'"` */
  function QuoteString(s: string): (r: string)
    ensures |r| >= 2 && r[0] == Quote && r[|r| - 1] == Quote
  {
    [Quote] + Escape(s) + [Quote]
  }

  /** Reads a quoted literal back: strips the outer quotes and undoubles the inner ones. */
  function ParseQuoted(t: string): Option<string> {
    if |t| >= 2 && t[0] == Quote && t[|t| - 1] == Quote then Some(Unescape(t[1..|t| - 1]))
    else None
  }

  /** Quoting is lossless: undoubling the quotes recovers the original string. */
  lemma QuoteStringRoundTrip(s: string)
    ensures ParseQuoted(QuoteString(s)) == Some(s)
  {
    var t := QuoteString(s);
    assert t[1..|t| - 1] == Escape(s);
    UnescapeEscape(s);
  }

  function DigitChar(d: nat): char
    requires d < 10
  {
    ('0' as int + d) as char
  }

  predicate IsDigit(c: char) {
    '0' <= c <= '9'
  }

  function DigitValue(c: char): nat
    requires IsDigit(c)
  {
    c as int - '0' as int
  }

  /** Decimal digits of a natural number, most significant first, as `str(n)` writes them. */
  function NatToString(n: nat): (r: string)
    ensures |r| > 0
    ensures forall i :: 0 <= i < |r| ==> IsDigit(r[i])
    decreases n
  {
    if n < 10 then [DigitChar(n)] else NatToString(n / 10) + [DigitChar(n % 10)]
  }

  /** Python's `str(i)` for an integer. */
  function IntToString(i: int): (r: string)
    ensures |r| > 0 && (r[0] == '-' || IsDigit(r[0]))
  {
    if i < 0 then "-" + NatToString(-i) else NatToString(i)
  }

  function ParseNat(s: string): nat
    requires forall i :: 0 <= i < |s| ==> IsDigit(s[i])
  {
    if s == [] then 0 else ParseNat(s[..|s| - 1]) * 10 + DigitValue(s[|s| - 1])
  }

  function ParseInt(s: string): Option<int> {
    if |s| > 0 && s[0] == '-' && forall i :: 1 <= i < |s| ==> IsDigit(s[i]) then Some(0 - ParseNat(s[1..]) as int)
    else if forall i :: 0 <= i < |s| ==> IsDigit(s[i]) then Some(ParseNat(s))
    else None
  }

  lemma {:induction false} ParseNatToString(n: nat)
    ensures ParseNat(NatToString(n)) == n
    decreases n
  {
    if n >= 10 {
      var r := NatToString(n);
      ParseNatToString(n / 10);
      assert r[..|r| - 1] == NatToString(n / 10);
    }
  }

  /** `str` on an integer is lossless. */
  lemma IntToStringRoundTrip(i: int)
    ensures ParseInt(IntToString(i)) == Some(i)
  {
    var r := IntToString(i);
    if i < 0 {
      var d := NatToString(-i);
      assert r[1..] == d;
      assert forall k :: 1 <= k < |r| ==> r[k] == d[k - 1];
      ParseNatToString(-i);
    } else {
      assert r[0] != '-';
      ParseNatToString(i);
    }
  }

  /** The SQL literal of one key value. */
  function Literal(v: Value): string {
    match v
    case Str(s) => QuoteString(s)
    case Int(i) => IntToString(i)
  }

  /** Reads a literal back into the value it renders. */
  function ParseLiteral(t: string): Option<Value> {
    if |t| > 0 && t[0] == Quote then
      match ParseQuoted(t)
      case Some(s) => Some(Str(s))
      case None => None
    else
      match ParseInt(t)
      case Some(i) => Some(Int(i))
      case None => None
  }

  lemma LiteralRoundTrip(v: Value)
    ensures ParseLiteral(Literal(v)) == Some(v)
  {
    match v
    case Str(s) => QuoteStringRoundTrip(s);
    case Int(i) => IntToStringRoundTrip(i);
  }

  /** Distinct values have distinct literals, so a literal list never names one value twice. */
  lemma LiteralInjective(a: Value, b: Value)
    requires Literal(a) == Literal(b)
    ensures a == b
  {
    LiteralRoundTrip(a);
    LiteralRoundTrip(b);
  }

  /** `",".join(parts)` */
  function Join(parts: seq<string>): string {
    if parts == [] then ""
    else if |parts| == 1 then parts[0]
    else parts[0] + "," + Join(parts[1..])
  }
}
