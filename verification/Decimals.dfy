/** Bytes, decimal numerals as they are printed, and Python's `int()` on ASCII text. */
module Decimals {
  import opened Wrappers

  type byte = b: int | 0 <= b < 256
  type Bytes = seq<byte>

  const ZERO: byte := 48
  const UNDERSCORE: byte := 95
  const PLUS: byte := 43
  const MINUS: byte := 45

  predicate IsDigit(b: byte) {
    ZERO <= b <= ZERO + 9
  }

  predicate IsSpace(b: byte) {
    9 <= b <= 13 || 28 <= b <= 32
  }

  function Decimal(n: nat): (ds: Bytes)
    ensures ds != [] && forall k :: 0 <= k < |ds| ==> IsDigit(ds[k])
  {
    if n < 10 then [ZERO + n] else Decimal(n / 10) + [ZERO + n % 10]
  }

  /** Digits with single underscores between them; value is what has been read so far. */
  function DigitsValue(s: Bytes, value: nat, afterDigit: bool): Option<nat> {
    if s == [] then if afterDigit then Some(value) else None
    else if IsDigit(s[0]) then DigitsValue(s[1..], value * 10 + (s[0] - ZERO), true)
    else if s[0] == UNDERSCORE && afterDigit then DigitsValue(s[1..], value, false)
    else None
  }

  function StripLeft(s: Bytes): Bytes {
    if s != [] && IsSpace(s[0]) then StripLeft(s[1..]) else s
  }

  function StripRight(s: Bytes): Bytes {
    if s != [] && IsSpace(s[|s| - 1]) then StripRight(s[..|s| - 1]) else s
  }

  function ParseInt(text: Bytes): Option<int> {
    var s := StripRight(StripLeft(text));
    if s != [] && s[0] == PLUS then
      match DigitsValue(s[1..], 0, false) case Some(n) => Some(n as int) case None => None
    else if s != [] && s[0] == MINUS then
      match DigitsValue(s[1..], 0, false) case Some(n) => Some(-(n as int)) case None => None
    else
      match DigitsValue(s, 0, false) case Some(n) => Some(n as int) case None => None
  }

  lemma {:induction false} DigitsOfDecimal(n: nat, rest: Bytes)
    ensures DigitsValue(Decimal(n) + rest, 0, false) == DigitsValue(rest, n, true)
  {
    if n < 10 {
      assert ([ZERO + n] + rest)[1..] == rest;
    } else {
      var more := [ZERO + n % 10] + rest;
      DigitsOfDecimal(n / 10, more);
      assert Decimal(n) + rest == Decimal(n / 10) + more;
      assert more[1..] == rest;
    }
  }

  /** Reading a printed number gives it back. */
  lemma ParsePrinted(n: nat)
    ensures ParseInt(Decimal(n)) == Some(n)
  {
    DigitsOfDecimal(n, []);
    assert Decimal(n) + [] == Decimal(n);
    assert IsDigit(Decimal(n)[0]) && IsDigit(Decimal(n)[|Decimal(n)| - 1]);
  }

  predicate AllSpaces(s: Bytes) {
    forall k :: 0 <= k < |s| ==> IsSpace(s[k])
  }

  lemma {:induction false} StripLeftSpaces(left: Bytes, s: Bytes)
    requires AllSpaces(left) && s != [] && !IsSpace(s[0])
    ensures StripLeft(left + s) == s
  {
    if left == [] {
      assert left + s == s;
    } else {
      StripLeftSpaces(left[1..], s);
      assert (left + s)[1..] == left[1..] + s;
    }
  }

  lemma {:induction false} StripRightSpaces(s: Bytes, right: Bytes)
    requires AllSpaces(right) && s != [] && !IsSpace(s[|s| - 1])
    ensures StripRight(s + right) == s
  {
    if right == [] {
      assert s + right == s;
    } else {
      var init := right[..|right| - 1];
      StripRightSpaces(s, init);
      assert (s + right)[..|s + right| - 1] == s + init;
    }
  }

  /** A printed number is read with its sign, whatever spaces stand around it. */
  lemma ParseSigned(left: Bytes, sign: Bytes, n: nat, right: Bytes)
    requires AllSpaces(left) && AllSpaces(right) && (sign == [] || sign == [PLUS] || sign == [MINUS])
    ensures ParseInt(left + (sign + Decimal(n) + right)) == Some(if sign == [MINUS] then -(n as int) else n as int)
  {
    var s := sign + Decimal(n);
    assert s[0] == (if sign == [] then Decimal(n)[0] else sign[0]) && s[|s| - 1] == Decimal(n)[|Decimal(n)| - 1];
    assert IsDigit(Decimal(n)[0]) && IsDigit(Decimal(n)[|Decimal(n)| - 1]);
    StripLeftSpaces(left, s + right);
    StripRightSpaces(s, right);
    DigitsOfDecimal(n, []);
    assert Decimal(n) + [] == Decimal(n);
    if sign == [] {
      assert s == Decimal(n);
    } else {
      assert s[1..] == Decimal(n);
    }
  }
}
