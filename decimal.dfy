/**
 * Decimal integers as text. Redis keeps hash fields as strings, so the retry
 * counter lives in the store as the decimal rendering HINCRBY writes; goreth
 * reads it back with Go's strconv.Atoi, and Redis itself re-reads it, more
 * strictly, before the next HINCRBY.
 */
module Decimal {
  import opened Options

  predicate IsDigit(c: char) {
    '0' <= c <= '9'
  }

  predicate AllDigits(s: string) {
    forall i :: 0 <= i < |s| ==> IsDigit(s[i])
  }

  function DigitChar(d: nat): (c: char)
    requires d < 10
    ensures IsDigit(c) && c as int - '0' as int == d
  {
    ('0' as int + d) as char
  }

  /** The value of a run of decimal digits, most significant first. Leading
      zeros are allowed, as strconv.Atoi allows them. */
  function DigitsValue(s: string): nat
    requires AllDigits(s)
  {
    if |s| == 0 then 0
    else DigitsValue(s[..|s| - 1]) * 10 + (s[|s| - 1] as int - '0' as int)
  }

  /** strconv.Atoi on its syntax: an optional '+' or '-' followed by at least
      one decimal digit; anything else (the empty string, a lone sign, a space,
      a letter, a dot) is a syntax error. Range errors are not modelled. */
  function Atoi(s: string): (r: Option<int>)
    ensures r.Some? <==> (|s| > 0 && AllDigits(s)) ||
                         (|s| > 1 && (s[0] == '+' || s[0] == '-') && AllDigits(s[1..]))
    ensures |s| > 0 && AllDigits(s) ==> r == Some(DigitsValue(s))
    ensures |s| > 1 && s[0] == '+' && AllDigits(s[1..]) ==> r == Some(DigitsValue(s[1..]))
    ensures |s| > 1 && s[0] == '-' && AllDigits(s[1..]) ==> r == Some(-(DigitsValue(s[1..]) as int))
  {
    if |s| > 0 && (s[0] == '+' || s[0] == '-') then
      var body := s[1..];
      if |body| > 0 && AllDigits(body) then
        Some(if s[0] == '-' then -(DigitsValue(body) as int) else DigitsValue(body) as int)
      else
        None
    else if |s| > 0 && AllDigits(s) then
      Some(DigitsValue(s))
    else
      None
  }

  /** The digits of n without leading zeros. */
  function NatToDigits(n: nat): (s: string)
    ensures |s| > 0 && AllDigits(s)
    ensures s[0] == '0' ==> n == 0
  {
    if n < 10 then [DigitChar(n)] else NatToDigits(n / 10) + [DigitChar(n % 10)]
  }

  /** The canonical decimal rendering of n, as strconv.Itoa produces it and as
      Redis stores an integer: a '-' for negatives, never a '+', no leading
      zeros. */
  function Itoa(n: int): (s: string)
    ensures |s| > 0 && (s[0] == '-' <==> n < 0)
  {
    if n < 0 then "-" + NatToDigits(-n) else NatToDigits(n)
  }

  lemma {:induction false} DigitsValueOfNatToDigits(n: nat)
    ensures DigitsValue(NatToDigits(n)) == n
  {
    var s := NatToDigits(n);
    if n < 10 {
      assert s[..|s| - 1] == [];
    } else {
      DigitsValueOfNatToDigits(n / 10);
      assert s[..|s| - 1] == NatToDigits(n / 10);
    }
  }

  /** Reading back what HINCRBY wrote gives the count again, for every integer. */
  lemma AtoiItoa(n: int)
    ensures Atoi(Itoa(n)) == Some(n)
  {
    if n < 0 {
      DigitsValueOfNatToDigits(-n);
      assert Itoa(n)[1..] == NatToDigits(-n);
    } else {
      DigitsValueOfNatToDigits(n);
    }
  }

  /** How Redis reads a hash field before HINCRBY: it accepts exactly the
      canonical rendering of an integer, so "+1", "01", "-0" and " 1" are not
      integers to it although strconv.Atoi accepts the first three. */
  function RedisInteger(s: string): (r: Option<int>)
    ensures r.Some? ==> Itoa(r.value) == s && Atoi(s) == r
  {
    match Atoi(s)
    case Some(n) => if Itoa(n) == s then Some(n) else None
    case None => None
  }

  lemma RedisIntegerItoa(n: int)
    ensures RedisInteger(Itoa(n)) == Some(n)
  {
    AtoiItoa(n);
  }

  /** Texts strconv.Atoi accepts and Redis refuses to increment. */
  lemma LenientAtoi()
    ensures Atoi("+1") == Some(1) && RedisInteger("+1") == None
    ensures Atoi("01") == Some(1) && RedisInteger("01") == None
    ensures Atoi("") == None && Atoi("-") == None && Atoi("1a") == None
  {
  }
}
