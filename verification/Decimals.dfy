/** Numbers as text: `std::to_string` of a non-negative number, and `std::stoi`. */
module Decimals {
  import opened Bytes

  const PLUS: byte := 43
  const MINUS: byte := 45

  predicate IsDigit(b: byte) { 48 <= b < 58 }

  /** `std::isspace` in the C locale. */
  predicate IsSpace(b: byte) { b == 32 || 9 <= b <= 13 }

  function Digit(d: nat): byte
    requires d < 10
  {
    48 + d
  }

  function Decimal(n: nat): (r: seq<byte>)
    ensures r != [] && forall b :: b in r ==> IsDigit(b)
  {
    if n < 10 then [Digit(n)] else Decimal(n / 10) + [Digit(n % 10)]
  }

  function SkipSpace(s: seq<byte>): seq<byte> {
    if s != [] && IsSpace(s[0]) then SkipSpace(s[1..]) else s
  }

  /** The number spelt by the leading digits, after `acc`. */
  function LeadingDigits(s: seq<byte>, acc: nat): nat {
    if s == [] || !IsDigit(s[0]) then acc else LeadingDigits(s[1..], acc * 10 + (s[0] - 48))
  }

  /** Leading spaces, a sign and trailing text are tolerated; no digit, or a value no `int` holds, is an exception. */
  function Stoi(s: seq<byte>): Option<int> {
    var t := SkipSpace(s);
    var signed := t != [] && (t[0] == PLUS || t[0] == MINUS);
    var digits := if signed then t[1..] else t;
    if digits == [] || !IsDigit(digits[0]) then None
    else
      var v := if signed && t[0] == MINUS then 0 - LeadingDigits(digits, 0) else LeadingDigits(digits, 0);
      if -0x8000_0000 <= v < 0x8000_0000 then Some(v) else None
  }

  lemma {:induction false} LeadingDigitsSnoc(s: seq<byte>, b: byte, acc: nat)
    requires IsDigit(b) && forall c :: c in s ==> IsDigit(c)
    ensures LeadingDigits(s + [b], acc) == LeadingDigits(s, acc) * 10 + (b - 48)
  {
    if s == [] {
      assert s + [b] == [b];
      assert LeadingDigits([b][1..], acc * 10 + (b - 48)) == acc * 10 + (b - 48);
    } else {
      assert (s + [b])[1..] == s[1..] + [b];
      assert s[0] in s;
      LeadingDigitsSnoc(s[1..], b, acc * 10 + (s[0] - 48));
    }
  }

  lemma {:induction false} DecimalValue(n: nat)
    ensures LeadingDigits(Decimal(n), 0) == n
  {
    if n >= 10 {
      DecimalValue(n / 10);
      LeadingDigitsSnoc(Decimal(n / 10), Digit(n % 10), 0);
    } else {
      LeadingDigitsSnoc([], Digit(n), 0);
      assert [] + [Digit(n)] == [Digit(n)];
    }
  }

  /** Digits alone, and no zero in front of others. */
  predicate Plain(s: seq<byte>) { s != [] && (forall b :: b in s ==> IsDigit(b)) && (s[0] == 48 ==> |s| == 1) }

  lemma {:induction false} DecimalIsPlain(n: nat)
    ensures Plain(Decimal(n)) && (Decimal(n)[0] == 48 ==> n == 0)
  {
    if n >= 10 { DecimalIsPlain(n / 10); }
  }

  /** Text made by `to_string` is read back by `stoi`, for every number an `int` holds. */
  lemma StoiOfDecimal(n: nat)
    ensures Stoi(Decimal(n)) == if n < 0x8000_0000 then Some(n) else None
  {
    var s := Decimal(n);
    DecimalValue(n);
    assert IsDigit(s[0]);
    hide Decimal, LeadingDigits;
  }

  lemma DecimalInjective(m: nat, n: nat)
    requires Decimal(m) == Decimal(n)
    ensures m == n
  {
    DecimalValue(m);
    DecimalValue(n);
  }

  lemma {:induction false} LeadingDigitsStop(s: seq<byte>, rest: seq<byte>, acc: nat)
    requires (forall c :: c in s ==> IsDigit(c)) && (rest == [] || !IsDigit(rest[0]))
    ensures LeadingDigits(s + rest, acc) == LeadingDigits(s, acc)
  {
    if s == [] {
      assert s + rest == rest;
    } else {
      assert s[0] in s;
      assert (s + rest)[1..] == s[1..] + rest;
      LeadingDigitsStop(s[1..], rest, acc * 10 + (s[0] - 48));
    }
  }

  lemma {:induction false} SkipsAllSpace(spaces: seq<byte>, s: seq<byte>)
    requires (forall c :: c in spaces ==> IsSpace(c)) && (s == [] || !IsSpace(s[0]))
    ensures SkipSpace(spaces + s) == s
  {
    if spaces == [] {
      assert spaces + s == s;
    } else {
      assert spaces[0] in spaces;
      assert (spaces + s)[1..] == spaces[1..] + s;
      SkipsAllSpace(spaces[1..], s);
    }
  }

  /** Leading spaces, one sign and trailing text are tolerated around a number. */
  lemma StoiTolerates(spaces: seq<byte>, sign: seq<byte>, n: nat, rest: seq<byte>)
    requires forall c :: c in spaces ==> IsSpace(c)
    requires sign in [[], [PLUS], [MINUS]] && (rest == [] || !IsDigit(rest[0]))
    ensures var v := if sign == [MINUS] then 0 - n else n;
      Stoi(spaces + (sign + (Decimal(n) + rest))) == if -0x8000_0000 <= v < 0x8000_0000 then Some(v) else None
  {
    var digits := Decimal(n);
    var t := sign + (digits + rest);
    DecimalValue(n);
    LeadingDigitsStop(digits, rest, 0);
    assert IsDigit(digits[0]) && (digits + rest)[0] == digits[0];
    hide Decimal, LeadingDigits;
    SkipsAllSpace(spaces, t);
    hide SkipSpace;
    if sign == [] {
      assert t == digits + rest;
    } else {
      assert t[1..] == digits + rest;
    }
  }

  /** Text without a digit behind its spaces and its sign is no number. */
  lemma StoiNeedsDigit(spaces: seq<byte>, sign: seq<byte>, rest: seq<byte>)
    requires forall c :: c in spaces ==> IsSpace(c)
    requires sign in [[], [PLUS], [MINUS]] && (rest == [] || !IsDigit(rest[0]))
    requires sign == [] && rest != [] ==> !IsSpace(rest[0]) && rest[0] != PLUS && rest[0] != MINUS
    ensures Stoi(spaces + (sign + rest)) == None
  {
    var t := sign + rest;
    SkipsAllSpace(spaces, t);
    hide SkipSpace;
    if sign == [] {
      assert t == rest;
    } else {
      assert t[1..] == rest;
    }
  }
}
