/** The frames of the management wire protocol and their JSON text:
    `{"Complete":[1,2,3]}` and
    `{"Fragment":{"message_id":1,"fragment_index":0,"total_fragments":2,"data":"..."}}`. */
module Frames {
  import opened Prelude
  import opened Json
  import Base64

  /** A string that JSON writes without escapes, such as any base64 text. */
  type PlainText = s: Bytes | forall i :: 0 <= i < |s| ==> Base64.Plain(s[i]) witness []

  datatype Fragment = Fragment(messageId: u64, index: u32, total: u32, data: PlainText)

  datatype Frame = Complete(payload: Bytes) | Piece(fragment: Fragment)

  const QUOTE: byte := '\"' as int

  function CompleteOpen(): (s: Bytes)
    ensures |s| == 13 && s[2] == 'C' as int
  { Ascii("{\"Complete\":[") }
  function FragmentOpen(): (s: Bytes)
    ensures |s| == 26 && s[2] == 'F' as int
  { Ascii("{\"Fragment\":{\"message_id\":") }
  function IndexField(): (s: Bytes)
    ensures |s| == 18 && !Digit(s[0])
  { Ascii(",\"fragment_index\":") }
  function TotalField(): (s: Bytes)
    ensures |s| == 19 && !Digit(s[0])
  { Ascii(",\"total_fragments\":") }
  function DataField(): (s: Bytes)
    ensures |s| == 9 && !Digit(s[0])
  { Ascii(",\"data\":\"") }
  function CompleteEnd(): (s: Bytes)
    ensures |s| == 1
  { Ascii("}") }
  function FragmentEnd(): (s: Bytes)
    ensures |s| == 3 && s[0] == QUOTE
  { Ascii("\"}}") }

  function Print(f: Frame): (s: Bytes) {
    match f
    case Complete(payload) => CompleteOpen() + (Array(payload) + CompleteEnd())
    case Piece(Fragment(id, index, total, data)) =>
      FragmentOpen() + (Decimal(id) + (IndexField() + (Decimal(index) +
        (TotalField() + (Decimal(total) + (DataField() + (data + FragmentEnd())))))))
  }

  // ----- Parsing, one piece at a time -----

  /** What is left of `s` after the literal `lit`. */
  function Eat(lit: Bytes, s: Bytes): (r: Option<Bytes>) {
    if lit <= s then Some(s[|lit|..]) else None
  }

  function ParseBounded(limit: nat, s: Bytes): (r: Option<(nat, Bytes)>)
    ensures r.Some? ==> r.value.0 < limit
  {
    match ParseNat(s)
    case Some((n, rest)) => if n < limit then Some((n, rest)) else None
    case None => None
  }

  /** The text up to the next quote, if all of it is plain. */
  function ParseText(s: Bytes): (r: Option<(PlainText, Bytes)>)
  {
    if s == [] then None
    else if s[0] == QUOTE then Some(([], s))
    else if !Base64.Plain(s[0]) then None
    else
      match ParseText(s[1..])
      case None => None
      case Some((text, rest)) => Some(([s[0]] + text, rest))
  }

  /** A literal followed by a number. */
  function ParseField(lit: Bytes, limit: nat, s: Bytes): (r: Option<(nat, Bytes)>)
    ensures r.Some? ==> r.value.0 < limit
  {
    match Eat(lit, s)
    case None => None
    case Some(rest) => ParseBounded(limit, rest)
  }

  function ParseComplete(s: Bytes): (r: Option<Frame>) {
    match Eat(CompleteOpen(), s)
    case None => None
    case Some(rest) =>
      match ParseArray(rest)
      case None => None
      case Some((payload, end)) => if end == CompleteEnd() then Some(Complete(payload)) else None
  }

  function ParseData(s: Bytes): (r: Option<PlainText>) {
    match Eat(DataField(), s)
    case None => None
    case Some(rest) =>
      match ParseText(rest)
      case None => None
      case Some((data, end)) => if end == FragmentEnd() then Some(data) else None
  }

  function ParsePiece(s: Bytes): (r: Option<Frame>) {
    match ParseField(FragmentOpen(), 0x1_0000_0000_0000_0000, s)
    case None => None
    case Some((id, s1)) =>
      match ParseField(IndexField(), 0x1_0000_0000, s1)
      case None => None
      case Some((index, s2)) =>
        match ParseField(TotalField(), 0x1_0000_0000, s2)
        case None => None
        case Some((total, s3)) =>
          match ParseData(s3)
          case None => None
          case Some(data) => Some(Piece(Fragment(id, index, total, data)))
  }

  function Parse(s: Bytes): (r: Option<Frame>) {
    if CompleteOpen() <= s then ParseComplete(s) else ParsePiece(s)
  }

  // ----- Parsing undoes printing -----

  lemma EatOfPrint(lit: Bytes, rest: Bytes)
    ensures Eat(lit, lit + rest) == Some(rest)
  {
    assert (lit + rest)[..|lit|] == lit;
    assert (lit + rest)[|lit|..] == rest;
  }

  lemma ParseFieldOfPrint(lit: Bytes, n: nat, limit: nat, rest: Bytes)
    requires n < limit && !StartsWithDigit(rest)
    ensures ParseField(lit, limit, lit + (Decimal(n) + rest)) == Some((n, rest))
  {
    EatOfPrint(lit, Decimal(n) + rest);
    ParseDecimal(n, rest);
  }

  lemma {:induction false} ParseTextOfPrint(text: PlainText, rest: Bytes)
    requires rest != [] && rest[0] == QUOTE
    ensures ParseText(text + rest) == Some((text, rest))
  {
    if text == [] {
      assert text + rest == rest;
    } else {
      assert (text + rest)[1..] == text[1..] + rest;
      ParseTextOfPrint(text[1..], rest);
      assert text == [text[0]] + text[1..];
    }
  }

  lemma ParsePieceOfPrint(id: u64, index: u32, total: u32, data: PlainText)
    ensures ParsePiece(Print(Piece(Fragment(id, index, total, data))))
         == Some(Piece(Fragment(id, index, total, data)))
  {
    hide CompleteOpen, CompleteEnd, FragmentOpen, IndexField, TotalField, DataField, FragmentEnd;
    var s3 := DataField() + (data + FragmentEnd());
    var s2 := TotalField() + (Decimal(total) + s3);
    var s1 := IndexField() + (Decimal(index) + s2);
    ParseFieldOfPrint(FragmentOpen(), id, 0x1_0000_0000_0000_0000, s1);
    ParseFieldOfPrint(IndexField(), index, 0x1_0000_0000, s2);
    ParseFieldOfPrint(TotalField(), total, 0x1_0000_0000, s3);
    EatOfPrint(DataField(), data + FragmentEnd());
    ParseTextOfPrint(data, FragmentEnd());
  }

  lemma OpensDiffer(rest: Bytes)
    ensures !(CompleteOpen() <= FragmentOpen() + rest)
  {
    hide CompleteOpen, CompleteEnd, FragmentOpen, IndexField, TotalField, DataField, FragmentEnd;
    assert (FragmentOpen() + rest)[2] == 'F' as int;
  }

  lemma ParseOfPrint(f: Frame)
    ensures Parse(Print(f)) == Some(f)
  {
    hide CompleteOpen, CompleteEnd, FragmentOpen, IndexField, TotalField, DataField, FragmentEnd;
    match f
    case Complete(payload) =>
      EatOfPrint(CompleteOpen(), Array(payload) + CompleteEnd());
      ParseArrayOfPrint(payload, CompleteEnd());
    case Piece(Fragment(id, index, total, data)) =>
      ParsePieceOfPrint(id, index, total, data);
      OpensDiffer(Print(f)[|FragmentOpen()|..]);
      EatOnly(FragmentOpen(), Print(f));
  }

  // ----- and accepts nothing else -----

  lemma EatOnly(lit: Bytes, s: Bytes)
    requires Eat(lit, s).Some?
    ensures s == lit + Eat(lit, s).value
  {
  }

  lemma ParseFieldOnly(lit: Bytes, limit: nat, s: Bytes)
    requires ParseField(lit, limit, s).Some?
    ensures var (n, rest) := ParseField(lit, limit, s).value; s == lit + (Decimal(n) + rest)
  {
    EatOnly(lit, s);
    ParseNatOnlyDecimals(Eat(lit, s).value);
  }

  lemma {:induction false} ParseTextOnly(s: Bytes)
    requires ParseText(s).Some?
    ensures s == ParseText(s).value.0 + ParseText(s).value.1
  {
    if s[0] != QUOTE {
      ParseTextOnly(s[1..]);
      assert s == [s[0]] + s[1..];
    }
  }

  lemma ParseOnlyPrints(s: Bytes)
    requires Parse(s).Some?
    ensures s == Print(Parse(s).value)
  {
    hide CompleteOpen, CompleteEnd, FragmentOpen, IndexField, TotalField, DataField, FragmentEnd;
    if CompleteOpen() <= s {
      EatOnly(CompleteOpen(), s);
      var rest := Eat(CompleteOpen(), s).value;
      var (payload, end) := ParseArray(rest).value;
      ParseArrayOnlyPrints(rest, payload, end);
    } else {
      ParseFieldOnly(FragmentOpen(), 0x1_0000_0000_0000_0000, s);
      var s1 := ParseField(FragmentOpen(), 0x1_0000_0000_0000_0000, s).value.1;
      ParseFieldOnly(IndexField(), 0x1_0000_0000, s1);
      var s2 := ParseField(IndexField(), 0x1_0000_0000, s1).value.1;
      ParseFieldOnly(TotalField(), 0x1_0000_0000, s2);
      var s3 := ParseField(TotalField(), 0x1_0000_0000, s2).value.1;
      EatOnly(DataField(), s3);
      ParseTextOnly(Eat(DataField(), s3).value);
    }
  }

  /** The frame parser is the exact inverse of the frame printer. */
  lemma ParseExactly(s: Bytes, f: Frame)
    ensures Parse(s) == Some(f) <==> s == Print(f)
  {
    hide CompleteOpen, CompleteEnd, FragmentOpen, IndexField, TotalField, DataField, FragmentEnd;
    ParseOfPrint(f);
    if Parse(s).Some? { ParseOnlyPrints(s); }
  }

  // ----- Sizes -----

  lemma CompleteSize(payload: Bytes)
    ensures |Print(Complete(payload))| ==
      14 + DigitCount(payload) + (if payload == [] then 1 else |payload|)
  {
    hide CompleteOpen, CompleteEnd, FragmentOpen, IndexField, TotalField, DataField, FragmentEnd;
    ArrayLength(payload);
  }

  lemma FragmentSize(f: Fragment)
    ensures |f.data| < |Print(Piece(f))| <= |f.data| + 119
  {
    hide CompleteOpen, CompleteEnd, FragmentOpen, IndexField, TotalField, DataField, FragmentEnd;
    DecimalLength(f.messageId, 20);
    DecimalLength(f.index, 10);
    DecimalLength(f.total, 10);
    PowersOfTen();
  }

  lemma PowersOfTen()
    ensures Pow10(10) == 10_000_000_000
    ensures Pow10(20) == 100_000_000_000_000_000_000
  {
    assert Pow10(5) == 100_000;
    assert Pow10(10) == 10_000_000_000;
    assert Pow10(15) == 1_000_000_000_000_000;
  }
}
