/** Decimal text of integers and its readers. */
module Numbers {
  import opened Wrappers
  import opened Wire

  predicate IsSpace(b: byte) {
    b == 32 || 9 <= b <= 13
  }

  predicate IsDigit(b: byte) {
    '0' as int <= b <= '9' as int
  }

  function SkipSpace(s: bytes): bytes {
    if s != [] && IsSpace(s[0]) then SkipSpace(s[1..]) else s
  }

  /** The value of the digits in front of `s`, continuing from `acc`. */
  function Digits(s: bytes, acc: nat): nat
    decreases |s|
  {
    if s != [] && IsDigit(s[0]) then Digits(s[1..], 10 * acc + (s[0] - '0' as int)) else acc
  }

  /** Leading blanks, a sign, digits, and anything after them; nothing when
      there is no digit. */
  function ReadInteger(s: bytes): Option<int> {
    var t := SkipSpace(s);
    var negative := t != [] && t[0] == '-' as int;
    var u := if t != [] && (t[0] == '-' as int || t[0] == '+' as int) then t[1..] else t;
    if u == [] || !IsDigit(u[0]) then None
    else
      var d: int := Digits(u, 0);
      Some(if negative then -d else d)
  }

  /** The same, with nothing also for a value that does not fit an int. */
  function Stoi(s: bytes): Option<int> {
    var v := ReadInteger(s);
    if v.Some? && -TWO_31 <= v.value < TWO_31 then v else None
  }

  function Decimal(n: nat): bytes {
    if n < 10 then ['0' as int + n] else Decimal(n / 10) + ['0' as int + n % 10]
  }

  predicate AllDigits(s: bytes) {
    forall k | 0 <= k < |s| :: IsDigit(s[k])
  }

  lemma {:induction false} DigitsSnoc(s: bytes, d: byte, acc: nat)
    requires AllDigits(s) && IsDigit(d)
    ensures Digits(s + [d], acc) == 10 * Digits(s, acc) + (d - '0' as int)
    decreases |s|
  {
    if s == [] {
      assert s + [d] == [d] && [d][1..] == [];
    } else {
      assert (s + [d])[1..] == s[1..] + [d];
      DigitsSnoc(s[1..], d, 10 * acc + (s[0] - '0' as int));
    }
  }

  lemma {:induction false} DigitsOfDecimal(n: nat)
    ensures Decimal(n) != [] && AllDigits(Decimal(n)) && Digits(Decimal(n), 0) == n
  {
    if n < 10 {
      assert Decimal(n)[1..] == [];
    } else {
      DigitsOfDecimal(n / 10);
      DigitsSnoc(Decimal(n / 10), '0' as int + n % 10, 0);
    }
  }

  function IntegerText(v: int): bytes {
    if v < 0 then ['-' as int] + Decimal(-v) else Decimal(v)
  }

  /** Every integer reads back from its decimal text. */
  lemma IntegerRoundTrip(v: int)
    ensures ReadInteger(IntegerText(v)) == Some(v)
  {
    var s := IntegerText(v);
    DigitsOfDecimal(if v < 0 then -v else v);
    if v < 0 {
      assert s[1..] == Decimal(-v);
    }
    assert IsDigit(Decimal(if v < 0 then -v else v)[0]);
  }

  lemma {:induction false} DigitsStop(s: bytes, rest: bytes, acc: nat)
    requires AllDigits(s) && (rest == [] || !IsDigit(rest[0]))
    ensures Digits(s + rest, acc) == Digits(s, acc)
    decreases |s|
  {
    if s == [] {
      assert s + rest == rest;
    } else {
      assert (s + rest)[1..] == s[1..] + rest;
      DigitsStop(s[1..], rest, 10 * acc + (s[0] - '0' as int));
    }
  }

  lemma {:induction false} SpacesAreSkipped(spaces: bytes, s: bytes)
    requires (forall k | 0 <= k < |spaces| :: IsSpace(spaces[k])) && (s == [] || !IsSpace(s[0]))
    ensures SkipSpace(spaces + s) == s
    decreases |spaces|
  {
    if spaces == [] {
      assert spaces + s == s;
    } else {
      assert (spaces + s)[1..] == spaces[1..] + s;
      SpacesAreSkipped(spaces[1..], s);
    }
  }

  lemma DigitsAreRead(spaces: bytes, sign: bytes, d: bytes, rest: bytes)
    requires (forall k | 0 <= k < |spaces| :: IsSpace(spaces[k])) && (rest == [] || !IsDigit(rest[0]))
    requires sign == [] || sign == ['+' as int] || sign == ['-' as int]
    requires d != [] && AllDigits(d)
    ensures var v: int := Digits(d, 0);
            ReadInteger(spaces + (sign + (d + rest))) == Some(if sign == ['-' as int] then -v else v)
  {
    var u := d + rest;
    var t := sign + u;
    assert IsDigit(u[0]) && u[0] == d[0];
    if sign != [] {
      assert t[0] == sign[0];
      assert sign[0] == '+' as int || sign[0] == '-' as int;
    } else {
      assert t == u;
    }
    assert !IsSpace(t[0]);
    assert t[|sign|..] == u;
    SpacesAreSkipped(spaces, t);
    DigitsStop(d, rest, 0);
  }

  /** Blanks in front, a plus sign and anything behind that is no digit make no
      difference to a number; what does not fit an int is no number for `Stoi`. */
  lemma NumberIsRead(spaces: bytes, sign: bytes, n: nat, rest: bytes)
    requires (forall k | 0 <= k < |spaces| :: IsSpace(spaces[k])) && (rest == [] || !IsDigit(rest[0]))
    requires sign == [] || sign == ['+' as int] || sign == ['-' as int]
    ensures var v: int := if sign == ['-' as int] then -(n as int) else n;
            var s := spaces + (sign + (Decimal(n) + rest));
            ReadInteger(s) == Some(v) && Stoi(s) == if -0x8000_0000 <= v < 0x8000_0000 then Some(v) else None
  {
    DigitsOfDecimal(n);
    DigitsAreRead(spaces, sign, Decimal(n), rest);
  }

  /** Without a digit behind blanks and sign there is no number. */
  lemma NoNumber(spaces: bytes, sign: bytes, rest: bytes)
    requires (forall k | 0 <= k < |spaces| :: IsSpace(spaces[k])) && (rest == [] || !IsDigit(rest[0]))
    requires sign == ['+' as int] || sign == ['-' as int]
    ensures ReadInteger(spaces + (sign + rest)) == None
  {
    assert (sign + rest)[1..] == rest;
    SpacesAreSkipped(spaces, sign + rest);
  }
}
