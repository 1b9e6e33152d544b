/** Decimal numbers in text, as printf writes them and strtoul reads them. */
module Decimal {
  /** One more than ULONG_MAX of a 64-bit target. */
  const ULONG: nat := 0x1_0000_0000_0000_0000

  predicate IsDigit(c: char) {
    '0' <= c <= '9'
  }

  predicate IsSpace(c: char) {
    c == ' ' || 9 as char <= c <= 13 as char
  }

  function Digit(n: nat): (c: char)
    requires n < 10
    ensures IsDigit(c)
  {
    '0' + n as char
  }

  /** %u. */
  function Dec(n: nat): (s: string)
    ensures s != [] && forall c :: c in s ==> IsDigit(c)
  {
    if n < 10 then [Digit(n)] else Dec(n / 10) + [Digit(n % 10)]
  }

  function Value(s: string): (n: nat)
    requires forall c :: c in s ==> IsDigit(c)
  {
    if s == [] then 0
    else
      assert s[|s| - 1] in s && IsDigit(s[|s| - 1]) && forall c :: c in s[..|s| - 1] ==> c in s;
      10 * Value(s[..|s| - 1]) + (s[|s| - 1] as int - '0' as int)
  }

  lemma {:induction false} ValueOfDec(n: nat)
    ensures Value(Dec(n)) == n
    decreases n
  {
    var s := Dec(n);
    if n < 10 {
      assert s[..0] == [];
    } else {
      assert s[..|s| - 1] == Dec(n / 10);
      ValueOfDec(n / 10);
    }
  }

  /** How many digits the text starts with. */
  function Span(s: string): (n: nat)
    ensures n <= |s| && (forall c :: c in s[..n] ==> IsDigit(c)) && (n < |s| ==> !IsDigit(s[n]))
  {
    if s == [] || !IsDigit(s[0]) then 0
    else
      var n := 1 + Span(s[1..]);
      assert s[..n] == [s[0]] + s[1..][..n - 1];
      n
  }

  function Blanks(s: string): (n: nat)
    ensures n <= |s|
  {
    if s == [] || !IsSpace(s[0]) then 0 else 1 + Blanks(s[1..])
  }

  /** The value, how much was read, and whether it was out of range. */
  datatype Number = Number(value: nat, end: nat, range: bool)

  /** strtoul in base ten: leading blanks, an optional sign, digits; a minus sign negates modulo the width. */
  function Strtoul(s: string): (r: Number)
    ensures r.end <= |s|
  {
    var b := Blanks(s);
    var sign := if b < |s| && (s[b] == '+' || s[b] == '-') then 1 else 0;
    var t := s[b + sign..];
    var n := Span(t);
    if n == 0 then Number(0, 0, false)
    else
      var v := Value(t[..n]);
      if v >= ULONG then Number(ULONG - 1, b + sign + n, true)
      else if sign == 1 && s[b] == '-' then Number((ULONG - v) % ULONG, b + sign + n, false)
      else Number(v, b + sign + n, false)
  }

  lemma {:induction false} SpanAll(s: string)
    requires forall c :: c in s ==> IsDigit(c)
    ensures Span(s) == |s|
    decreases |s|
  {
    if s != [] {
      assert s[0] in s && forall c :: c in s[1..] ==> c in s;
      SpanAll(s[1..]);
    }
  }

  /** Reading what was printed. */
  lemma {:induction false} StrtoulOfDec(n: nat)
    requires n < ULONG
    ensures Strtoul(Dec(n)) == Number(n, |Dec(n)|, false)
  {
    var s := Dec(n);
    assert s[0] in s;
    assert s[0..] == s;
    SpanAll(s);
    assert s[..|s|] == s;
    ValueOfDec(n);
  }
}
