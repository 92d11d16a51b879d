/** The pieces of JSON (RFC 8259) that the wire frames and the event hashes use:
    unsigned decimals, arrays of bytes and strings, in the compact form the
    serializer writes. Each printer comes with a parser that reads a value off the
    front of a text, and each parser is the exact inverse of its printer. */
module Json {
  import opened Prelude

  predicate Digit(c: byte) { 48 <= c < 58 }

  // ----- Unsigned decimals (section 6: no leading zero) -----

  function Decimal(n: nat): (s: Bytes)
    ensures s != [] && forall i :: 0 <= i < |s| ==> Digit(s[i])
    ensures s[0] == 48 ==> n == 0
  {
    if n < 10 then [48 + n] else Decimal(n / 10) + [48 + n % 10]
  }

  function Evaluate(digits: Bytes): (n: nat)
    requires forall i :: 0 <= i < |digits| ==> Digit(digits[i])
  {
    if digits == [] then 0
    else
      assert Digit(digits[|digits| - 1]);
      Evaluate(digits[..|digits| - 1]) * 10 + (digits[|digits| - 1] - 48)
  }

  lemma {:induction false} EvaluateDecimal(n: nat)
    ensures Evaluate(Decimal(n)) == n
  {
    if n >= 10 {
      EvaluateDecimal(n / 10);
      assert Decimal(n)[..|Decimal(n)| - 1] == Decimal(n / 10);
    }
  }

  lemma {:induction false} DecimalEvaluate(d: Bytes)
    requires d != [] && forall i :: 0 <= i < |d| ==> Digit(d[i])
    requires |d| > 1 ==> d[0] != 48
    ensures Decimal(Evaluate(d)) == d
    ensures d[0] != 48 ==> Evaluate(d) > 0
  {
    var init, last := d[..|d| - 1], d[|d| - 1];
    assert d == init + [last];
    if init != [] {
      DecimalEvaluate(init);
      assert Evaluate(d) / 10 == Evaluate(init) && Evaluate(d) % 10 == last - 48;
    } else {
      assert Evaluate(init) == 0;
    }
  }

  /** The number of leading digits. */
  function DigitRun(s: Bytes): (k: nat)
    ensures k <= |s|
    ensures forall i :: 0 <= i < k ==> Digit(s[i])
    ensures k < |s| ==> !Digit(s[k])
  {
    if s == [] || !Digit(s[0]) then 0 else 1 + DigitRun(s[1..])
  }

  function ParseNat(s: Bytes): (r: Option<(nat, Bytes)>)
    ensures r.Some? ==> |r.value.1| < |s|
  {
    var k := DigitRun(s);
    if k == 0 || (k > 1 && s[0] == 48) then None
    else Some((Evaluate(s[..k]), s[k..]))
  }

  predicate StartsWithDigit(s: Bytes) { s != [] && Digit(s[0]) }

  lemma {:induction false} DigitRunOfDigits(d: Bytes, rest: Bytes)
    requires forall i :: 0 <= i < |d| ==> Digit(d[i])
    requires !StartsWithDigit(rest)
    ensures DigitRun(d + rest) == |d|
  {
    if d == [] {
      assert d + rest == rest;
    } else {
      assert (d + rest)[1..] == d[1..] + rest;
      DigitRunOfDigits(d[1..], rest);
    }
  }

  lemma ParseDecimal(n: nat, rest: Bytes)
    requires !StartsWithDigit(rest)
    ensures ParseNat(Decimal(n) + rest) == Some((n, rest))
  {
    var d := Decimal(n);
    var s := d + rest;
    var k := DigitRun(s);
    DigitRunOfDigits(d, rest);
    assert s[..k] == d && s[k..] == rest;
    EvaluateDecimal(n);
    if n < 10 { assert |d| == 1; }
  }

  lemma ParseNatOnlyDecimals(s: Bytes)
    requires ParseNat(s).Some?
    ensures s == Decimal(ParseNat(s).value.0) + ParseNat(s).value.1
    ensures !StartsWithDigit(ParseNat(s).value.1)
  {
    var k := DigitRun(s);
    DecimalEvaluate(s[..k]);
    assert s == s[..k] + s[k..];
  }

  function Pow10(k: nat): (p: nat)
    ensures p >= 1
  {
    if k == 0 then 1 else 10 * Pow10(k - 1)
  }

  /** A number below 10^k has at most k digits, and one at or above 10^(k-1) at least k. */
  lemma {:induction false} DecimalLength(n: nat, k: nat)
    requires k >= 1
    ensures n < Pow10(k) <==> |Decimal(n)| <= k
  {
    if n >= 10 && k > 1 {
      DecimalLength(n / 10, k - 1);
    } else if k > 1 {
      assert Pow10(k) >= 10 * Pow10(k - 1) >= 10;
    }
  }

  // ----- Arrays of bytes, read up to and including the closing bracket -----

  const COMMA: byte := ',' as int
  const CLOSE: byte := ']' as int

  /** The elements after the first, each behind a comma, and the bracket. */
  function ArrayTail(b: Bytes): (s: Bytes)
    ensures s != [] && !Digit(s[0])
  {
    if b == [] then [CLOSE] else [COMMA] + Decimal(b[0]) + ArrayTail(b[1..])
  }

  function Array(b: Bytes): (s: Bytes) {
    if b == [] then [CLOSE] else Decimal(b[0]) + ArrayTail(b[1..])
  }

  function ParseByte(s: Bytes): (r: Option<(byte, Bytes)>)
    ensures r.Some? ==> |r.value.1| < |s|
  {
    match ParseNat(s)
    case Some((n, rest)) => if n < 0x100 then Some((n, rest)) else None
    case None => None
  }

  function ParseArrayTail(s: Bytes): (r: Option<(Bytes, Bytes)>)
    ensures r.Some? ==> |r.value.1| < |s|
    decreases |s|
  {
    if s == [] then None
    else if s[0] == CLOSE then Some(([], s[1..]))
    else if s[0] != COMMA then None
    else
      match ParseByte(s[1..])
      case None => None
      case Some((head, rest)) =>
        match ParseArrayTail(rest)
        case None => None
        case Some((tail, rest')) => Some(([head] + tail, rest'))
  }

  function ParseArray(s: Bytes): (r: Option<(Bytes, Bytes)>)
  {
    if s != [] && s[0] == CLOSE then Some(([], s[1..]))
    else
      match ParseByte(s)
      case None => None
      case Some((head, rest)) =>
        match ParseArrayTail(rest)
        case None => None
        case Some((tail, rest')) => Some(([head] + tail, rest'))
  }

  lemma {:induction false} ParseArrayTailOfPrint(b: Bytes, rest: Bytes)
    ensures ParseArrayTail(ArrayTail(b) + rest) == Some((b, rest))
  {
    hide Decimal, ParseNat;
    var s := ArrayTail(b) + rest;
    if b == [] {
      assert s[1..] == rest;
    } else {
      var s' := ArrayTail(b[1..]) + rest;
      assert s[1..] == Decimal(b[0]) + s';
      ParseDecimal(b[0], s');
      ParseArrayTailOfPrint(b[1..], rest);
      assert b == [b[0]] + b[1..];
    }
  }

  lemma ParseArrayOfPrint(b: Bytes, rest: Bytes)
    ensures ParseArray(Array(b) + rest) == Some((b, rest))
  {
    hide Decimal, ParseNat;
    var s := Array(b) + rest;
    if b == [] {
      assert s[1..] == rest;
    } else {
      var s' := ArrayTail(b[1..]) + rest;
      assert s == Decimal(b[0]) + s';
      ParseDecimal(b[0], s');
      ParseArrayTailOfPrint(b[1..], rest);
      assert b == [b[0]] + b[1..];
      assert s[0] == Decimal(b[0])[0];
    }
  }

  lemma ArrayTailCons(head: byte, tail: Bytes, rest: Bytes)
    ensures ArrayTail([head] + tail) + rest == [COMMA] + (Decimal(head) + (ArrayTail(tail) + rest))
  {
    assert ([head] + tail)[1..] == tail;
  }

  lemma {:induction false} ParseArrayTailOnlyPrints(s: Bytes, b: Bytes, rest: Bytes)
    requires ParseArrayTail(s) == Some((b, rest))
    ensures s == ArrayTail(b) + rest
    decreases |s|
  {
    hide Decimal, ParseNat;
    assert s == [s[0]] + s[1..];
    if s[0] != CLOSE {
      var (head, rest') := ParseByte(s[1..]).value;
      ParseNatOnlyDecimals(s[1..]);
      var tail := ParseArrayTail(rest').value.0;
      ParseArrayTailOnlyPrints(rest', tail, rest);
      ArrayTailCons(head, tail, rest);
    }
  }

  lemma ParseArrayOnlyPrints(s: Bytes, b: Bytes, rest: Bytes)
    requires ParseArray(s) == Some((b, rest))
    ensures s == Array(b) + rest
  {
    hide Decimal, ParseNat;
    if s != [] && s[0] == CLOSE {
      assert s == [CLOSE] + s[1..];
    } else {
      var (head, rest') := ParseByte(s).value;
      ParseNatOnlyDecimals(s);
      var tail := ParseArrayTail(rest').value.0;
      ParseArrayTailOnlyPrints(rest', tail, rest);
      assert ([head] + tail)[1..] == tail;
      assert s == Decimal(head) + ArrayTail(tail) + rest;
    }
  }

  /** The text of an array: its digits, a comma between elements and one bracket. */
  function DigitCount(b: Bytes): (n: nat) {
    if b == [] then 0 else |Decimal(b[0])| + DigitCount(b[1..])
  }

  lemma {:induction false} ArrayTailLength(b: Bytes)
    ensures |ArrayTail(b)| == DigitCount(b) + |b| + 1
  {
    if b != [] { ArrayTailLength(b[1..]); }
  }

  lemma ArrayLength(b: Bytes)
    ensures |Array(b)| == DigitCount(b) + (if b == [] then 1 else |b|)
  {
    if b != [] { ArrayTailLength(b[1..]); }
  }

  lemma {:induction false} DigitCountBounds(b: Bytes)
    ensures |b| <= DigitCount(b) <= 3 * |b|
    ensures (forall i :: 0 <= i < |b| ==> b[i] >= 100) <==> DigitCount(b) == 3 * |b|
  {
    if b != [] {
      DecimalLength(b[0], 3);
      DecimalLength(b[0], 2);
      assert Pow10(0) == 1 && Pow10(1) == 10 && Pow10(2) == 100 && Pow10(3) == 1000;
      DigitCountBounds(b[1..]);
      assert forall i :: 0 < i < |b| ==> b[i] == b[1..][i - 1];
      assert forall i :: 0 <= i < |b[1..]| ==> b[1..][i] == b[i + 1];
    }
  }
}
