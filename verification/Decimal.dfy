/** Signed decimal text, as strconv.FormatInt writes it and strconv.ParseInt reads it. */
module Decimal {
  datatype Option<+T> = None | Some(value: T)

  function Digit(d: nat): char
    requires d < 10
  {
    ('0' as int + d) as char
  }

  predicate IsDigit(c: char) {
    '0' <= c <= '9'
  }

  function NatText(n: nat): (s: string)
    ensures |s| > 0 && forall i :: 0 <= i < |s| ==> IsDigit(s[i])
  {
    if n < 10 then [Digit(n)] else NatText(n / 10) + [Digit(n % 10)]
  }

  function Text(n: int): string {
    if n < 0 then "-" + NatText(-n) else NatText(n)
  }

  function ParseNat(s: string): Option<nat> {
    if s == [] then None
    else if !IsDigit(s[|s| - 1]) then None
    else
      var d := s[|s| - 1] as int - '0' as int;
      if |s| == 1 then Some(d)
      else match ParseNat(s[..|s| - 1]) case None => None case Some(n) => Some(n * 10 + d)
  }

  function Negated(n: Option<nat>): Option<int> {
    match n case None => None case Some(m) => Some(0 - m)
  }

  function Parse(s: string): Option<int> {
    if s == [] then None
    else if s[0] == '-' then Negated(ParseNat(s[1..]))
    else if s[0] == '+' then ParseNat(s[1..])
    else ParseNat(s)
  }

  lemma {:induction false} NatRoundTrip(n: nat)
    ensures ParseNat(NatText(n)) == Some(n)
  {
    if n >= 10 {
      NatRoundTrip(n / 10);
      assert NatText(n)[..|NatText(n)| - 1] == NatText(n / 10);
    }
  }

  lemma RoundTrip(n: int)
    ensures Parse(Text(n)) == Some(n)
  {
    if n < 0 {
      NatRoundTrip(-n);
      assert Text(n)[1..] == NatText(-n);
    } else {
      NatRoundTrip(n);
    }
  }

  lemma Injective(m: int, n: int)
    ensures Text(m) == Text(n) <==> m == n
  {
    RoundTrip(m);
    RoundTrip(n);
  }
}
