/** Numbers in decimal: std::to_string and std::stoi. */
module Decimals {
  import opened Common

  predicate Int32(n: int) {
    -0x8000_0000 <= n < 0x8000_0000
  }

  function Digit(d: nat): char
    requires d < 10
  {
    '0' + d as char
  }

  predicate IsDigit(c: char) {
    '0' <= c <= '9'
  }

  function Decimal(n: nat): (s: string)
    ensures s != "" && forall i :: 0 <= i < |s| ==> IsDigit(s[i])
    ensures s[0] == '0' <==> n == 0
  {
    if n < 10 then [Digit(n)] else Decimal(n / 10) + [Digit(n % 10)]
  }

  function ToString(n: int): (s: string)
    ensures s != "" && (s[0] == '-' <==> n < 0)
  {
    if n < 0 then "-" + Decimal(-n) else Decimal(n)
  }

  /** The value of the leading digits, started from acc. */
  function Scan(s: string, acc: nat): nat {
    if s == "" || !IsDigit(s[0]) then acc else Scan(s[1..], 10 * acc + (s[0] - '0') as nat)
  }

  predicate IsSpace(c: char) {
    c == ' ' || '\t' <= c <= '\r'
  }

  lemma SpaceExactly(c: char)
    ensures IsSpace(c) <==> c in [' ', '\t', '\n', '\U{0b}', '\U{0c}', '\r']
  {
  }

  function SkipSpace(s: string): string {
    if s != "" && IsSpace(s[0]) then SkipSpace(s[1..]) else s
  }

  /** stoi: leading space, an optional sign, at least one digit; what follows is ignored. */
  function Stoi(s: string): Result<int> {
    var t := SkipSpace(s);
    var negative := t != "" && t[0] == '-';
    var u := if t != "" && (t[0] == '-' || t[0] == '+') then t[1..] else t;
    if u == "" || !IsDigit(u[0]) then Err("invalid_argument") else
    var v: int := Scan(u, 0);
    var n: int := if negative then -v else v;
    if Int32(n) then Ok(n) else Err("out_of_range")
  }

  lemma {:induction false} ScanSnoc(s: string, c: char, acc: nat)
    requires forall i :: 0 <= i < |s| ==> IsDigit(s[i])
    requires IsDigit(c)
    ensures Scan(s + [c], acc) == 10 * Scan(s, acc) + (c - '0') as nat
  {
    if s == "" {
      assert Scan(([c])[1..], 10 * acc + (c - '0') as nat) == 10 * acc + (c - '0') as nat;
    } else {
      ScanSnoc(s[1..], c, 10 * acc + (s[0] - '0') as nat);
      assert (s + [c])[1..] == s[1..] + [c];
    }
  }

  lemma {:induction false} ScanDecimal(n: nat)
    ensures Scan(Decimal(n), 0) == n
  {
    if n >= 10 {
      ScanDecimal(n / 10);
      ScanSnoc(Decimal(n / 10), Digit(n % 10), 0);
    } else {
      assert Decimal(n)[1..] == "";
    }
  }

  lemma StoiToString(n: int)
    requires -0x8000_0000 <= n < 0x8000_0000
    ensures Stoi(ToString(n)) == Ok(n)
  {
    if n < 0 {
      ScanDecimal(-n);
      assert ToString(n)[1..] == Decimal(-n);
    } else {
      ScanDecimal(n);
    }
  }

  // What stoi reads, and when it fails.

  datatype Parts = Parts(space: string, sign: string, digits: string, rest: string)

  /** s is leading space, an optional sign, digits as far as they go, and the rest. */
  predicate ReadsAs(s: string, p: Parts) {
    && s == p.space + (p.sign + (p.digits + p.rest))
    && (forall i :: 0 <= i < |p.space| ==> IsSpace(p.space[i]))
    && p.sign in ["", "+", "-"] && p.digits != ""
    && (forall i :: 0 <= i < |p.digits| ==> IsDigit(p.digits[i]))
    && (p.rest != "" ==> !IsDigit(p.rest[0]))
  }

  function ValueOf(p: Parts): int {
    var v: int := Scan(p.digits, 0);
    if p.sign == "-" then -v else v
  }

  lemma {:induction false} SkipAllSpace(space: string, t: string, s: string)
    requires s == space + t && (forall i :: 0 <= i < |space| ==> IsSpace(space[i])) && (t != "" ==> !IsSpace(t[0]))
    ensures SkipSpace(s) == t
  {
    if space == "" {
      assert s == t;
    } else {
      assert s[1..] == space[1..] + t;
      SkipAllSpace(space[1..], t, s[1..]);
    }
  }

  lemma {:induction false} ScanDigits(digits: string, rest: string, s: string, acc: nat)
    requires s == digits + rest && (forall i :: 0 <= i < |digits| ==> IsDigit(digits[i])) && (rest != "" ==> !IsDigit(rest[0]))
    ensures Scan(s, acc) == Scan(digits, acc)
  {
    if digits == "" {
      assert s == rest;
    } else {
      assert s[1..] == digits[1..] + rest;
      ScanDigits(digits[1..], rest, s[1..], 10 * acc + (digits[0] - '0') as nat);
    }
  }

  lemma {:induction false} SpaceOf(s: string) returns (space: string)
    ensures s == space + SkipSpace(s) && forall i :: 0 <= i < |space| ==> IsSpace(space[i])
    ensures SkipSpace(s) != "" ==> !IsSpace(SkipSpace(s)[0])
  {
    space := "";
    if s != "" && IsSpace(s[0]) {
      var more := SpaceOf(s[1..]);
      space := [s[0]] + more;
    }
  }

  lemma {:induction false} DigitsOf(s: string) returns (digits: string, rest: string)
    ensures s == digits + rest && (forall i :: 0 <= i < |digits| ==> IsDigit(digits[i]))
    ensures rest != "" ==> !IsDigit(rest[0])
  {
    digits, rest := "", s;
    if s != "" && IsDigit(s[0]) {
      var more, left := DigitsOf(s[1..]);
      digits, rest := [s[0]] + more, left;
    }
  }

  lemma StoiReads(s: string, p: Parts)
    requires ReadsAs(s, p)
    ensures Stoi(s) == if Int32(ValueOf(p)) then Ok(ValueOf(p)) else Err("out_of_range")
  {
    var u := p.digits + p.rest;
    var t := p.sign + u;
    assert u[0] == p.digits[0] && IsDigit(u[0]);
    SkipAllSpace(p.space, t, s);
    if p.sign == "" {
      assert t == u;
    } else {
      assert t[0] == p.sign[0] && t[1..] == u;
    }
    ScanDigits(p.digits, p.rest, u, 0);
  }

  lemma PartsOf(s: string) returns (p: Parts)
    requires Stoi(s) != Err("invalid_argument")
    ensures ReadsAs(s, p)
  {
    var space := SpaceOf(s);
    var t := SkipSpace(s);
    var signed := t != "" && (t[0] == '-' || t[0] == '+');
    var sign := if !signed then "" else if t[0] == '-' then "-" else "+";
    var u := if signed then t[1..] else t;
    var digits, rest := DigitsOf(u);
    assert digits != "" by {
      assert u != "" && IsDigit(u[0]);
      assert digits == "" ==> u == rest;
    }
    assert t == sign + u;
    p := Parts(space, sign, digits, rest);
    assert s == p.space + (p.sign + (p.digits + p.rest));
  }

  /** It is an error exactly if no digit follows the space and the sign, and another exactly if the number
      does not fit; otherwise the value is that of the digits. */
  lemma StoiExactly(s: string, n: int)
    ensures Stoi(s) == Err("invalid_argument") <==> forall p :: !ReadsAs(s, p)
    ensures Stoi(s) == Err("out_of_range") <==> exists p :: ReadsAs(s, p) && !Int32(ValueOf(p))
    ensures Stoi(s) == Ok(n) <==> -0x8000_0000 <= n <= 0x7fff_ffff && exists p :: ReadsAs(s, p) && ValueOf(p) == n
  {
    forall p | ReadsAs(s, p)
      ensures Stoi(s) == if Int32(ValueOf(p)) then Ok(ValueOf(p)) else Err("out_of_range")
    {
      StoiReads(s, p);
    }
    assert |"invalid_argument"| != |"out_of_range"|;
    if Stoi(s) != Err("invalid_argument") {
      var p := PartsOf(s);
      assert ReadsAs(s, p);
    }
  }
}
