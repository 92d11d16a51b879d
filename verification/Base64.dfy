/** The standard alphabet of section 4 of RFC 4648, with padding, as the codec's
    base64 engine reads and writes it: padding is required and unused bits are zero. */
module Base64 {
  import opened Prelude

  type sextet = v: int | 0 <= v < 64

  const PAD: byte := '=' as int

  function Symbol(v: sextet): (c: byte) {
    if v < 26 then 65 + v
    else if v < 52 then 97 + v - 26
    else if v < 62 then 48 + v - 52
    else if v == 62 then '+' as int
    else '/' as int
  }

  /** The inverse of `Symbol`, `None` outside the alphabet. */
  function Sextet(c: byte): (v: Option<sextet>)
    ensures v.Some? ==> Symbol(v.value) == c
  {
    if 65 <= c < 91 then Some(c - 65)
    else if 97 <= c < 123 then Some(c - 97 + 26)
    else if 48 <= c < 58 then Some(c - 48 + 52)
    else if c == '+' as int then Some(62)
    else if c == '/' as int then Some(63)
    else None
  }

  lemma SextetOfSymbol(v: sextet)
    ensures Sextet(Symbol(v)) == Some(v) && Symbol(v) != PAD
  {
  }

  /** Three bytes as four sextets, and back. */
  function Split(x: byte, y: byte, z: byte): (result: (sextet, sextet, sextet, sextet)) {
    (x / 4, x % 4 * 16 + y / 16, y % 16 * 4 + z / 64, z % 64)
  }

  function Join(p: sextet, q: sextet, r: sextet, s: sextet): (result: (byte, byte, byte)) {
    (p * 4 + q / 16, q % 16 * 16 + r / 4, r % 4 * 64 + s)
  }

  lemma Digits4(a: nat, b: nat)
    requires b < 4
    ensures (a * 4 + b) / 4 == a && (a * 4 + b) % 4 == b
  {
  }

  lemma Digits16(a: nat, b: nat)
    requires b < 16
    ensures (a * 16 + b) / 16 == a && (a * 16 + b) % 16 == b
  {
  }

  lemma Digits64(a: nat, b: nat)
    requires b < 64
    ensures (a * 64 + b) / 64 == a && (a * 64 + b) % 64 == b
  {
  }

  lemma JoinOfSplit(x: byte, y: byte, z: byte)
    ensures var (p, q, r, s) := Split(x, y, z); Join(p, q, r, s) == (x, y, z)
  {
    Digits16(x % 4, y / 16);
    Digits4(y % 16, z / 64);
  }

  lemma UnusedBits(x: byte, y: byte)
    ensures Split(x, 0, 0).1 % 16 == 0 && Split(x, 0, 0).2 == 0 && Split(x, 0, 0).3 == 0
    ensures Split(x, y, 0).2 % 4 == 0 && Split(x, y, 0).3 == 0
  {
  }

  lemma SplitOfJoin(p: sextet, q: sextet, r: sextet, s: sextet)
    ensures var (x, y, z) := Join(p, q, r, s); Split(x, y, z) == (p, q, r, s)
  {
    Digits4(p, q / 16);
    Digits16(q % 16, r / 4);
    Digits64(r % 4, s);
  }

  /** One to three bytes as four symbols, padded. */
  function EncodeGroup(b: Bytes): (g: Bytes)
    requires 1 <= |b| <= 3
    ensures |g| == 4
  {
    if |b| == 1 then
      var (p, q, r, s) := Split(b[0], 0, 0);
      [Symbol(p), Symbol(q), PAD, PAD]
    else if |b| == 2 then
      var (p, q, r, s) := Split(b[0], b[1], 0);
      [Symbol(p), Symbol(q), Symbol(r), PAD]
    else
      var (p, q, r, s) := Split(b[0], b[1], b[2]);
      [Symbol(p), Symbol(q), Symbol(r), Symbol(s)]
  }

  function Encode(b: Bytes): (s: Bytes)
    ensures |s| == 4 * ((|b| + 2) / 3)
  {
    if b == [] then []
    else if |b| <= 3 then EncodeGroup(b)
    else EncodeGroup(b[..3]) + Encode(b[3..])
  }

  /** One group of four symbols: three bytes, or fewer when it is the last group and padded. */
  function DecodeGroup(g: Bytes, last: bool): (r: Option<Bytes>)
    requires |g| == 4
  {
    var p, q := Sextet(g[0]), Sextet(g[1]);
    if p.None? || q.None? then None
    else if last && g[2] == PAD && g[3] == PAD then
      if q.value % 16 == 0 then Some([Join(p.value, q.value, 0, 0).0]) else None
    else
      var r, s := Sextet(g[2]), Sextet(g[3]);
      if r.None? then None
      else if last && g[3] == PAD then
        var (x, y, z) := Join(p.value, q.value, r.value, 0);
        if r.value % 4 == 0 then Some([x, y]) else None
      else if s.None? then None
      else
        var (x, y, z) := Join(p.value, q.value, r.value, s.value);
        Some([x, y, z])
  }

  function Decode(s: Bytes): (r: Option<Bytes>)
  {
    if s == [] then Some([])
    else if |s| < 4 then None
    else if |s| == 4 then DecodeGroup(s, true)
    else
      match (DecodeGroup(s[..4], false), Decode(s[4..]))
      case (Some(head), Some(tail)) => Some(head + tail)
      case _ => None
  }

  lemma DecodeSymbols(p: sextet, q: sextet, r: sextet, s: sextet, last: bool)
    ensures DecodeGroup([Symbol(p), Symbol(q), Symbol(r), Symbol(s)], last)
         == Some([Join(p, q, r, s).0, Join(p, q, r, s).1, Join(p, q, r, s).2])
    ensures r % 4 == 0 ==>
      DecodeGroup([Symbol(p), Symbol(q), Symbol(r), PAD], true) == Some([Join(p, q, r, 0).0, Join(p, q, r, 0).1])
    ensures q % 16 == 0 ==>
      DecodeGroup([Symbol(p), Symbol(q), PAD, PAD], true) == Some([Join(p, q, 0, 0).0])
  {
    SextetOfSymbol(p);
    SextetOfSymbol(q);
    SextetOfSymbol(r);
    SextetOfSymbol(s);
  }

  lemma DecodeSplit(x: byte, y: byte, z: byte, last: bool)
    ensures var (p, q, r, s) := Split(x, y, z);
      && DecodeGroup([Symbol(p), Symbol(q), Symbol(r), Symbol(s)], last) == Some([x, y, z])
      && (r % 4 == 0 && s == 0 ==> DecodeGroup([Symbol(p), Symbol(q), Symbol(r), PAD], true) == Some([x, y]))
      && (q % 16 == 0 && r == 0 && s == 0 ==> DecodeGroup([Symbol(p), Symbol(q), PAD, PAD], true) == Some([x]))
  {
    var (p, q, r, s) := Split(x, y, z);
    JoinOfSplit(x, y, z);
    DecodeSymbols(p, q, r, s, last);
  }

  lemma DecodeOfEncodeGroup(b: Bytes, last: bool)
    requires 1 <= |b| <= 3 && (|b| < 3 ==> last)
    ensures DecodeGroup(EncodeGroup(b), last) == Some(b)
  {
    if |b| == 1 {
      UnusedBits(b[0], 0);
      DecodeSplit(b[0], 0, 0, last);
      assert b == [b[0]];
    } else if |b| == 2 {
      UnusedBits(b[0], b[1]);
      DecodeSplit(b[0], b[1], 0, last);
      assert b == [b[0], b[1]];
    } else {
      DecodeSplit(b[0], b[1], b[2], last);
      assert b == [b[0], b[1], b[2]];
    }
  }

  lemma {:induction false} DecodeOfEncode(b: Bytes)
    ensures Decode(Encode(b)) == Some(b)
  {
    if 1 <= |b| <= 3 {
      DecodeOfEncodeGroup(b, true);
    } else if |b| > 3 {
      DecodeOfEncodeGroup(b[..3], false);
      DecodeOfEncode(b[3..]);
      assert Encode(b)[..4] == EncodeGroup(b[..3]) && Encode(b)[4..] == Encode(b[3..]);
      assert b == b[..3] + b[3..];
    }
  }

  lemma EncodeOfDecodeGroup(g: Bytes, last: bool)
    requires |g| == 4 && DecodeGroup(g, last).Some?
    ensures 1 <= |DecodeGroup(g, last).value| <= 3
    ensures !last ==> |DecodeGroup(g, last).value| == 3
    ensures EncodeGroup(DecodeGroup(g, last).value) == g
  {
    var r, s := Sextet(g[2]), Sextet(g[3]);
    SplitOfJoin(Sextet(g[0]).value, Sextet(g[1]).value,
                if r.Some? then r.value else 0, if s.Some? then s.value else 0);
  }

  /** Decoding accepts nothing but encodings. */
  lemma {:induction false} DecodeOnlyEncodings(s: Bytes)
    requires Decode(s).Some?
    ensures s == Encode(Decode(s).value)
    ensures s != [] ==> Decode(s).value != []
  {
    if |s| == 4 {
      EncodeOfDecodeGroup(s, true);
    } else if |s| > 4 {
      EncodeOfDecodeGroup(s[..4], false);
      DecodeOnlyEncodings(s[4..]);
      var head, tail := DecodeGroup(s[..4], false).value, Decode(s[4..]).value;
      assert (head + tail)[..3] == head && (head + tail)[3..] == tail;
      assert s == s[..4] + s[4..];
    }
  }

  /** Bytes that JSON writes inside a string as they are: printable ASCII without quote or backslash. */
  predicate Plain(c: byte) {
    32 <= c < 127 && c != '\"' as int && c != '\\' as int
  }

  lemma {:induction false} EncodeIsPlain(b: Bytes)
    ensures forall i :: 0 <= i < |Encode(b)| ==> Plain(Encode(b)[i])
  {
    if |b| > 3 {
      EncodeIsPlain(b[3..]);
    }
  }
}
