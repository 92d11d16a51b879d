/** The human-readable chain file: a printer of events and a line-oriented parser with a
    handful of flags, and in what sense the parser undoes the printer. The value language
    (decode, print, parse, encode) is foreign and a parameter. */
module ChainFormat {
  import opened Prelude
  import Json
  import opened StateChain

  datatype Values<!V> = Values(decode: Bytes -> Option<V>, show: V -> string,
                               parse: string -> Option<V>, encode: V -> Option<Bytes>)

  // ----- Hexadecimal (section 8 of RFC 4648, lower case when written) -----

  function HexValue(c: char): (n: int)
    ensures -1 <= n < 16
  {
    if '0' <= c <= '9' then c as int - '0' as int
    else if 'a' <= c <= 'f' then c as int - 'a' as int + 10
    else if 'A' <= c <= 'F' then c as int - 'A' as int + 10
    else -1
  }

  function HexEncode(b: Bytes): (s: string)
    ensures |s| == 2 * |b|
    ensures forall i :: 0 <= i < |s| ==> HexValue(s[i]) >= 0
  {
    if b == [] then "" else [HexChar(b[0] / 16), HexChar(b[0] % 16)] + HexEncode(b[1..])
  }

  function HexDecode(s: string): (r: Option<Bytes>) {
    if s == "" then Some([])
    else if |s| == 1 || HexValue(s[0]) < 0 || HexValue(s[1]) < 0 then None
    else
      match HexDecode(s[2..])
      case None => None
      case Some(rest) => Some([HexValue(s[0]) * 16 + HexValue(s[1])] + rest)
  }

  lemma {:induction false} HexRoundTrip(b: Bytes)
    ensures HexDecode(HexEncode(b)) == Some(b)
  {
    if b != [] {
      HexRoundTrip(b[1..]);
      var s := HexEncode(b);
      assert s[2..] == HexEncode(b[1..]);
      assert HexValue(s[0]) == b[0] / 16 && HexValue(s[1]) == b[0] % 16;
      assert b == [b[0]] + b[1..];
    }
  }

  function HexOrEmpty(s: string): (b: Bytes) {
    var r := HexDecode(s);
    if r.Some? then r.value else []
  }

  // ----- Lines -----

  /** The position of the first newline, or the length. */
  function NewlineAt(s: string): (k: nat)
    ensures k <= |s| && (k < |s| ==> s[k] == '\n')
    ensures forall i :: 0 <= i < k ==> s[i] != '\n'
  {
    if s == "" || s[0] == '\n' then 0 else 1 + NewlineAt(s[1..])
  }

  function StripReturn(s: string): (result: string) {
    if s != "" && s[|s| - 1] == '\r' then s[..|s| - 1] else s
  }

  /** `BufRead::lines`. */
  function SplitLines(s: string): (lines: seq<string>)
    decreases |s|
  {
    var k := NewlineAt(s);
    if s == "" then []
    else if k == |s| then [s]
    else [StripReturn(s[..k])] + SplitLines(s[k + 1..])
  }

  function JoinLines(lines: seq<string>): (s: string) {
    if lines == [] then "" else lines[0] + "\n" + JoinLines(lines[1..])
  }

  predicate OneLine(s: string) {
    '\n' !in s && (s != "" ==> s[|s| - 1] != '\r')
  }

  lemma {:induction false} SplitOfJoin(lines: seq<string>)
    requires forall i :: 0 <= i < |lines| ==> OneLine(lines[i])
    ensures SplitLines(JoinLines(lines)) == lines
  {
    if lines != [] {
      var line, rest := lines[0], JoinLines(lines[1..]);
      var s := JoinLines(lines);
      assert s == line + "\n" + rest;
      assert OneLine(lines[0]);
      assert forall i :: 0 <= i < |line| ==> s[i] == line[i] && line[i] in line;
      assert s[|line|] == '\n';
      assert NewlineAt(s) == |line|;
      assert s[..|line|] == line && s[|line| + 1..] == rest;
      SplitOfJoin(lines[1..]);
    }
  }

  lemma {:induction false} JoinAppend(a: seq<string>, b: seq<string>)
    ensures JoinLines(a + b) == JoinLines(a) + JoinLines(b)
  {
    if a == [] {
      assert a + b == b;
    } else {
      assert (a + b)[1..] == a[1..] + b;
      JoinAppend(a[1..], b);
    }
  }

  // ----- Printing -----

  const SEPARATOR := "---"
  const HASH := "hash: "
  const PARENT := "parent: "
  const RAW := "raw:"

  function NatString(n: nat): (s: string)
    ensures forall i :: 0 <= i < |s| ==> '0' <= s[i] <= '9'
  {
    var digits := Json.Decimal(n);
    seq(|digits|, i requires 0 <= i < |digits| => digits[i] as char)
  }

  function ValueLines<V>(vs: Values<V>, data: Bytes): (lines: seq<string>) {
    match vs.decode(data)
    case Some(v) => [vs.show(v)]
    case None => if data == [] then [] else [RAW + " " + NatString(|data|) + " bytes"]
  }

  function EventLines<V>(vs: Values<V>, e: ChainEvent): (lines: seq<string>) {
    [SEPARATOR, HASH + HexEncode(e.hash),
     PARENT + (if e.parent.Some? then HexEncode(e.parent.value) else "root")] + ValueLines(vs, e.data)
  }

  function FormatEvent<V>(vs: Values<V>, e: ChainEvent): (s: string) {
    JoinLines(EventLines(vs, e))
  }

  function FormatChain<V>(vs: Values<V>, es: seq<ChainEvent>): (s: string) {
    if es == [] then "" else FormatEvent(vs, es[0]) + FormatChain(vs, es[1..])
  }

  // ----- Parsing -----

  datatype Parser = Parser(events: seq<ChainEvent>, hash: string, parent: string, data: Option<Bytes>,
                           inEvent: bool, expectingValue: bool)

  const FRESH := Parser([], "", "", None, false, false)

  /** The event whose lines have been read, unless it had no hash. */
  function Finalize(p: Parser): (events: seq<ChainEvent>) {
    if p.hash == "" then p.events
    else
      p.events + [ChainEvent(HexOrEmpty(p.hash),
                             if p.parent == "root" then None else Some(HexOrEmpty(p.parent)),
                             [], if p.data.Some? then p.data.value else [])]
  }

  function Reencode<V>(vs: Values<V>, line: string): (data: Bytes) {
    match vs.parse(line)
    case None => []
    case Some(v) => if vs.encode(v).Some? then vs.encode(v).value else []
  }

  function ParseLine<V>(vs: Values<V>, p: Parser, line: string): (p': Parser) {
    if line == SEPARATOR then
      Parser(if p.inEvent then Finalize(p) else p.events, "", "", None, true, false)
    else if !p.inEvent then p
    else if HASH <= line then p.(hash := line[|HASH|..], expectingValue := false)
    else if PARENT <= line then p.(parent := line[|PARENT|..], expectingValue := true)
    else if p.expectingValue && line != "" then
      p.(data := Some(if RAW <= line then [] else Reencode(vs, line)), expectingValue := false)
    else p
  }

  function ParseLines<V>(vs: Values<V>, p: Parser, lines: seq<string>): (p': Parser)
    decreases |lines|
  {
    if lines == [] then p else ParseLines(vs, ParseLine(vs, p, lines[0]), lines[1..])
  }

  function Finish(p: Parser): (events: seq<ChainEvent>) {
    if p.inEvent then Finalize(p) else p.events
  }

  /** All the events of a text. */
  function Parsed<V>(vs: Values<V>, lines: seq<string>): (events: seq<ChainEvent>) {
    Finish(ParseLines(vs, FRESH, lines))
  }

  method ParseEvents<V>(vs: Values<V>, lines: seq<string>) returns (events: seq<ChainEvent>)
    ensures events == Parsed(vs, lines)
  {
    hide Finalize;
    events := [];
    var hash, parent, data := "", "", None;
    var inEvent, expectingValue := false, false;
    for i := 0 to |lines|
      invariant ParseLines(vs, FRESH, lines) ==
        ParseLines(vs, Parser(events, hash, parent, data, inEvent, expectingValue), lines[i..])
    {
      var line := lines[i];
      ghost var before := Parser(events, hash, parent, data, inEvent, expectingValue);
      assert lines[i..][0] == line && lines[i..][1..] == lines[i + 1..];
      if line == SEPARATOR {
        if inEvent {
          events := FinalizeEvent(events, hash, parent, data);
          assert events == Finalize(before) by { FinalizeIs(before, expectingValue); }
        }
        hash, parent, data := "", "", None;
        inEvent, expectingValue := true, false;
      } else if inEvent {
        if HASH <= line {
          hash, expectingValue := line[|HASH|..], false;
        } else if PARENT <= line {
          parent, expectingValue := line[|PARENT|..], true;
        } else if expectingValue && line != "" {
          data := Some(if RAW <= line then [] else Reencode(vs, line));
          expectingValue := false;
        }
      }
    }
    ghost var last := Parser(events, hash, parent, data, inEvent, expectingValue);
    if inEvent {
      events := FinalizeEvent(events, hash, parent, data);
      FinalizeIs(last, expectingValue);
    }
  }

  lemma FinalizeIs(p: Parser, expecting: bool)
    ensures Finalize(p) == Finalize(Parser(p.events, p.hash, p.parent, p.data, true, expecting))
  {
  }

  method FinalizeEvent(before: seq<ChainEvent>, hash: string, parent: string, data: Option<Bytes>)
    returns (events: seq<ChainEvent>)
    ensures forall expecting :: events == Finalize(Parser(before, hash, parent, data, true, expecting))
  {
    events := before;
    if hash == "" {
      return;
    }
    var hashBytes := HexOrEmpty(hash);
    var parentBytes := if parent == "root" then None else Some(HexOrEmpty(parent));
    events := events + [ChainEvent(hashBytes, parentBytes, [], if data.Some? then data.value else [])];
  }

  // ----- Parsing block by block -----

  lemma {:induction false} ParseLinesAppend<V>(vs: Values<V>, p: Parser, a: seq<string>, b: seq<string>)
    ensures ParseLines(vs, p, a + b) == ParseLines(vs, ParseLines(vs, p, a), b)
    decreases |a|
  {
    hide ParseLine;
    if a == [] {
      assert a + b == b;
    } else {
      assert (a + b)[1..] == a[1..] + b;
      ParseLinesAppend(vs, ParseLine(vs, p, a[0]), a[1..], b);
    }
  }

  /** Events read earlier stay in front and change nothing else. */
  lemma {:induction false} EarlierEvents<V>(vs: Values<V>, p: Parser, earlier: seq<ChainEvent>, lines: seq<string>)
    ensures ParseLines(vs, p.(events := earlier + p.events), lines) ==
      var r := ParseLines(vs, p, lines); r.(events := earlier + r.events)
    decreases |lines|
  {
    if lines != [] {
      EarlierEventsLine(vs, p, earlier, lines[0]);
      hide ParseLine;
      EarlierEvents(vs, ParseLine(vs, p, lines[0]), earlier, lines[1..]);
    }
  }

  lemma EarlierEventsLine<V>(vs: Values<V>, p: Parser, earlier: seq<ChainEvent>, line: string)
    ensures ParseLine(vs, p.(events := earlier + p.events), line) ==
      var r := ParseLine(vs, p, line); r.(events := earlier + r.events)
  {
    hide Reencode;
    FinalizeEarlier(p, earlier);
    hide Finalize;
  }

  lemma FinalizeEarlier(p: Parser, earlier: seq<ChainEvent>)
    ensures Finalize(p.(events := earlier + p.events)) == earlier + Finalize(p)
  {
    hide HexOrEmpty;
    if p.hash != "" {
      var e := Finalize(p)[|p.events|];
      assert (earlier + p.events) + [e] == earlier + (p.events + [e]);
    }
  }

  /** A text that starts with a separator is parsed independently of what stands before it. */
  lemma ParsedAppend<V>(vs: Values<V>, a: seq<string>, b: seq<string>)
    requires b != [] && b[0] == SEPARATOR
    ensures Parsed(vs, a + b) == Parsed(vs, a) + Parsed(vs, b)
  {
    hide Finalize;
    var p := ParseLines(vs, FRESH, a);
    ParseLinesAppend(vs, FRESH, a, b);
    var q := Parser([], "", "", None, true, false);
    assert ParseLine(vs, p, SEPARATOR) == q.(events := Finish(p) + []);
    assert ParseLine(vs, FRESH, SEPARATOR) == q;
    EarlierEvents(vs, q, Finish(p), b[1..]);
    var r := ParseLines(vs, q, b[1..]);
    FinalizeEarlier(r, Finish(p));
  }

  // ----- The round trip -----

  /** What is asked of the printed form of a value: one line, and not one of the file's own. */
  predicate Printable(line: string) {
    && OneLine(line) && line != "" && line != SEPARATOR
    && !(HASH <= line) && !(PARENT <= line) && !(RAW <= line)
  }

  ghost predicate PrintableData<V(!new)>(vs: Values<V>, data: Bytes) {
    vs.decode(data).Some? ==> Printable(vs.show(vs.decode(data).value))
  }

  /** What comes back for the payload: the re-encoded value, nothing for undecodable bytes. */
  function ParsedData<V>(vs: Values<V>, data: Bytes): (r: Bytes) {
    match vs.decode(data)
    case Some(v) => Reencode(vs, vs.show(v))
    case None => []
  }

  /** The events that come back: type left blank, events with an empty hash lost. */
  function Expected<V>(vs: Values<V>, es: seq<ChainEvent>): (r: seq<ChainEvent>) {
    if es == [] then []
    else
      (if es[0].hash == [] then []
       else [ChainEvent(es[0].hash, es[0].parent, [], ParsedData(vs, es[0].data))])
      + Expected(vs, es[1..])
  }

  lemma HexLine(lit: string, b: Bytes)
    requires OneLine(lit) && lit != ""
    ensures OneLine(lit + HexEncode(b)) && OneLine(lit + "root")
    ensures HexEncode(b) != "root"
  {
    var s := HexEncode(b);
    assert forall i :: 0 <= i < |s| ==> s[i] != '\n' && s[i] != '\r';
    assert '\n' !in s;
    assert HexValue("root"[0]) < 0;
  }

  lemma RawLine(n: nat)
    ensures OneLine(RAW + " " + NatString(n) + " bytes") && RAW <= RAW + " " + NatString(n) + " bytes"
  {
    var s := NatString(n);
    assert '\n' !in s;
  }

  lemma EventLinesAreLines<V(!new)>(vs: Values<V>, e: ChainEvent)
    requires PrintableData(vs, e.data)
    ensures forall i :: 0 <= i < |EventLines(vs, e)| ==> OneLine(EventLines(vs, e)[i])
  {
    hide HexEncode;
    HexLine(HASH, e.hash);
    HexLine(PARENT, if e.parent.Some? then e.parent.value else []);
    RawLine(|e.data|);
  }

  lemma PrefixLine(lit: string, s: string)
    ensures lit <= lit + s && (lit + s)[|lit|..] == s
  {
  }

  /** The first three lines of a block set up hash and parent. */
  lemma ParseHeader<V>(vs: Values<V>, hash: string, parent: string)
    ensures ParseLines(vs, FRESH, [SEPARATOR, HASH + hash, PARENT + parent]) == Parser([], hash, parent, None, true, true)
  {
    hide Reencode;
    PrefixLine(HASH, hash);
    PrefixLine(PARENT, parent);
    var lines := [SEPARATOR, HASH + hash, PARENT + parent];
    var p1 := Parser([], "", "", None, true, false);
    var p2 := Parser([], hash, "", None, true, false);
    assert ParseLine(vs, FRESH, lines[0]) == p1;
    assert (HASH + hash)[0] == 'h' && (PARENT + parent)[0] == 'p';
    assert ParseLine(vs, p1, lines[1]) == p2;
    assert ParseLine(vs, p2, lines[2]) == Parser([], hash, parent, None, true, true);
    assert lines[1..] == [lines[1], lines[2]] && lines[1..][1..] == [lines[2]] && lines[1..][1..][1..] == [];
    assert ParseLines(vs, FRESH, lines) == ParseLines(vs, p1, lines[1..]);
    assert ParseLines(vs, p1, lines[1..]) == ParseLines(vs, p2, lines[1..][1..]);
  }

  lemma ParseBlock<V(!new)>(vs: Values<V>, e: ChainEvent)
    requires PrintableData(vs, e.data)
    ensures Parsed(vs, EventLines(vs, e)) == Expected(vs, [e])
  {
    hide HexEncode, HexDecode, Reencode, NatString;
    var hash := HexEncode(e.hash);
    var parent := if e.parent.Some? then HexEncode(e.parent.value) else "root";
    var header, values := [SEPARATOR, HASH + hash, PARENT + parent], ValueLines(vs, e.data);
    ParseHeader(vs, hash, parent);
    ParseLinesAppend(vs, FRESH, header, values);
    ParseValue(vs, Parser([], hash, parent, None, true, true), e.data);
    HexRoundTrip(e.hash);
    if e.parent.Some? {
      HexRoundTrip(e.parent.value);
      HexLine(HASH, e.parent.value);
    }
    assert [e][1..] == [];
  }

  lemma ParseValue<V(!new)>(vs: Values<V>, p: Parser, data: Bytes)
    requires PrintableData(vs, data) && p.inEvent && p.expectingValue && p.data == None
    ensures var r := ParseLines(vs, p, ValueLines(vs, data));
      && r.events == p.events && r.hash == p.hash && r.parent == p.parent && r.inEvent
      && (if r.data.Some? then r.data.value else []) == ParsedData(vs, data)
  {
    hide Reencode, NatString;
    var lines := ValueLines(vs, data);
    if lines != [] {
      assert lines[1..] == [];
      RawLine(|data|);
      RawIsRaw(" " + NatString(|data|) + " bytes");
      assert RAW + " " + NatString(|data|) + " bytes" == RAW + (" " + NatString(|data|) + " bytes");
      assert ParseLines(vs, p, lines) == ParseLine(vs, p, lines[0]);
    }
  }

  lemma RawIsRaw(s: string)
    ensures RAW <= RAW + s && RAW + s != SEPARATOR && RAW + s != ""
    ensures !(HASH <= RAW + s) && !(PARENT <= RAW + s)
  {
    assert (RAW + s)[0] == 'r';
  }

  lemma {:induction false} ChainLines<V(!new)>(vs: Values<V>, es: seq<ChainEvent>) returns (lines: seq<string>)
    requires forall i :: 0 <= i < |es| ==> PrintableData(vs, es[i].data)
    ensures JoinLines(lines) == FormatChain(vs, es)
    ensures forall i :: 0 <= i < |lines| ==> OneLine(lines[i])
    ensures es == [] ==> lines == []
    ensures es != [] ==> lines != [] && lines[0] == SEPARATOR
    ensures Parsed(vs, lines) == Expected(vs, es)
  {
    hide ParseLines, EventLines, Finish;
    if es == [] {
      lines := [];
      EmptyParses(vs);
    } else {
      var block := EventLines(vs, es[0]);
      var rest := ChainLines(vs, es[1..]);
      lines := block + rest;
      JoinAppend(block, rest);
      EventLinesAreLines(vs, es[0]);
      ParseBlock(vs, es[0]);
      BlockStarts(vs, es[0]);
      assert [es[0]][1..] == [];
      if rest == [] {
        assert es[1..] == [] && lines == block;
      } else {
        ParsedAppend(vs, block, rest);
      }
    }
  }

  lemma BlockStarts<V>(vs: Values<V>, e: ChainEvent)
    ensures EventLines(vs, e) != [] && EventLines(vs, e)[0] == SEPARATOR
  {
  }

  lemma EmptyParses<V>(vs: Values<V>)
    ensures Parsed(vs, []) == []
  {
  }

  /** What is asked of the value printer: every value prints on a line of its own that is not
      one of the file's. */
  ghost predicate OneLineValues<V(!new)>(vs: Values<V>) {
    forall v :: Printable(vs.show(v))
  }

  /** Parsing the format of any events gives back, in order, the hash and parent of every event
      with a non-empty hash, with its payload re-encoded; events with an empty hash are lost. */
  lemma ParseOfFormat<V(!new)>(vs: Values<V>, es: seq<ChainEvent>)
    requires OneLineValues(vs)
    ensures Parsed(vs, SplitLines(FormatChain(vs, es))) == Expected(vs, es)
  {
    hide Parsed, Expected, FormatChain;
    var lines := ChainLines(vs, es);
    SplitOfJoin(lines);
  }

  /** The value language loses nothing of a payload: what it decodes to prints to a text that
      parses back and re-encodes to the payload. */
  predicate LosslessData<V(==)>(vs: Values<V>, data: Bytes) {
    vs.decode(data).Some? ==>
      vs.parse(vs.show(vs.decode(data).value)) == vs.decode(data)
      && vs.encode(vs.decode(data).value) == Some(data)
  }

  predicate LosslessValues<V(==)>(vs: Values<V>, es: seq<ChainEvent>) {
    forall i :: 0 <= i < |es| ==> LosslessData(vs, es[i].data)
  }

  /** With such a value language the file is lossless exactly for chains of events with a
      hash, a blank type and a payload that is empty or decodable. */
  lemma {:induction false} LosslessExactly<V(!new)>(vs: Values<V>, es: seq<ChainEvent>)
    requires LosslessValues(vs, es) && OneLineValues(vs)
    ensures Parsed(vs, SplitLines(FormatChain(vs, es))) == es <==>
      forall i :: 0 <= i < |es| ==>
        es[i].hash != [] && es[i].eventType == [] && (es[i].data == [] || vs.decode(es[i].data).Some?)
  {
    hide Parsed, FormatChain, SplitLines;
    ParseOfFormat(vs, es);
    ExpectedIsSame(vs, es);
  }

  lemma {:induction false} ExpectedShorter<V>(vs: Values<V>, es: seq<ChainEvent>)
    ensures |Expected(vs, es)| <= |es|
  {
    if es != [] { ExpectedShorter(vs, es[1..]); }
  }

  lemma DataIsSame<V>(vs: Values<V>, data: Bytes)
    requires LosslessData(vs, data)
    ensures ParsedData(vs, data) == data <==> data == [] || vs.decode(data).Some?
  {
  }

  lemma {:induction false} ExpectedIsSame<V>(vs: Values<V>, es: seq<ChainEvent>)
    requires LosslessValues(vs, es)
    ensures Expected(vs, es) == es <==>
      forall i :: 0 <= i < |es| ==>
        es[i].hash != [] && es[i].eventType == [] && (es[i].data == [] || vs.decode(es[i].data).Some?)
  {
    hide ParsedData, LosslessData;
    if es != [] {
      var rest := es[1..];
      assert forall i :: 0 <= i < |rest| ==> rest[i] == es[i + 1];
      ExpectedIsSame(vs, rest);
      ExpectedShorter(vs, rest);
      DataIsSame(vs, es[0].data);
      assert es == [es[0]] + rest;
      assert forall i :: 0 < i < |es| ==> es[i] == rest[i - 1];
      assert forall i :: 0 <= i < |rest| ==> rest[i] == es[i + 1];
      if es[0].hash != [] {
        var e := ChainEvent(es[0].hash, es[0].parent, [], ParsedData(vs, es[0].data));
        assert Expected(vs, es) == [e] + Expected(vs, rest);
        assert Expected(vs, es) == es ==> Expected(vs, es)[0] == es[0] && Expected(vs, es)[1..] == rest;
      }
    }
  }

  // ----- What the file says of a payload -----

  function CharCodes(s: string): (b: Bytes)
    requires forall i :: 0 <= i < |s| ==> s[i] < 256 as char
  {
    seq(|s|, i requires 0 <= i < |s| => s[i] as int)
  }

  /** The block of an event has a fourth line unless the payload is empty and undecodable: the
      printed value, or for undecodable bytes their number. */
  lemma FourthLine<V>(vs: Values<V>, e: ChainEvent)
    ensures |EventLines(vs, e)| == if vs.decode(e.data).None? && e.data == [] then 3 else 4
    ensures vs.decode(e.data).Some? ==> EventLines(vs, e)[3] == vs.show(vs.decode(e.data).value)
    ensures vs.decode(e.data).None? && e.data != [] ==>
      exists digits :: && EventLines(vs, e)[3] == "raw: " + digits + " bytes"
                       && (forall i :: 0 <= i < |digits| ==> '0' <= digits[i] <= '9')
                       && Json.Evaluate(CharCodes(digits)) == |e.data|
  {
    if vs.decode(e.data).None? && e.data != [] {
      var digits := NatString(|e.data|);
      assert CharCodes(digits) == Json.Decimal(|e.data|);
      Json.EvaluateDecimal(|e.data|);
      assert EventLines(vs, e)[3] == RAW + " " + digits + " bytes";
      assert RAW + " " == "raw: ";
    }
  }

  // ----- What the parser makes of any text -----

  /** The text of the last line that starts with `lit`. */
  function LastText(lit: string, lines: seq<string>): (text: string) {
    if lines == [] then ""
    else
      var line := lines[|lines| - 1];
      if lit <= line then line[|lit|..] else LastText(lit, lines[..|lines| - 1])
  }

  /** The last line that is not blank names a parent. */
  predicate AfterParent(lines: seq<string>) {
    exists j :: 0 <= j < |lines| && PARENT <= lines[j] && forall m :: j < m < |lines| ==> lines[m] == ""
  }

  /** Line `i` is read as a value: it is no header, and comes right after a parent, but for
      blank lines. */
  predicate ValueAt(lines: seq<string>, i: nat) {
    && i < |lines| && lines[i] != "" && !(HASH <= lines[i]) && !(PARENT <= lines[i])
    && AfterParent(lines[..i])
  }

  function LastValue(lines: seq<string>): (line: Option<string>) {
    if lines == [] then None
    else if ValueAt(lines, |lines| - 1) then Some(lines[|lines| - 1])
    else LastValue(lines[..|lines| - 1])
  }

  function DataOf<V>(vs: Values<V>, line: Option<string>): (data: Option<Bytes>) {
    match line
    case None => None
    case Some(text) => Some(if RAW <= text then [] else Reencode(vs, text))
  }

  lemma AfterParentSnoc(lines: seq<string>, line: string)
    ensures AfterParent(lines + [line]) <==> PARENT <= line || (line == "" && AfterParent(lines))
  {
    var lines' := lines + [line];
    if PARENT <= line {
      assert PARENT <= lines'[|lines|];
    } else if line == "" && AfterParent(lines) {
      var j :| 0 <= j < |lines| && PARENT <= lines[j] && forall m :: j < m < |lines| ==> lines[m] == "";
      assert PARENT <= lines'[j];
    }
    if j :| 0 <= j < |lines'| && PARENT <= lines'[j] && forall m :: j < m < |lines'| ==> lines'[m] == "" {
      if j < |lines| {
        assert lines'[|lines|] == "";
        assert forall m :: j < m < |lines| ==> lines[m] == lines'[m];
      }
    }
  }

  lemma NotBoth(line: string)
    ensures !(HASH <= line && PARENT <= line) && !(HASH <= "") && !(PARENT <= "")
  {
    assert HASH[0] == 'h' && PARENT[0] == 'p';
  }

  /** One block read line by line: the last hash, the last parent and the last value count. */
  lemma {:induction false} ReadBlock<V>(vs: Values<V>, p: Parser, lines: seq<string>)
    requires SEPARATOR !in lines && p == Parser([], "", "", None, true, false)
    ensures ParseLines(vs, p, lines) ==
      Parser([], LastText(HASH, lines), LastText(PARENT, lines), DataOf(vs, LastValue(lines)), true, AfterParent(lines))
  {
    hide ParseLines, AfterParent, Reencode;
    if lines == [] {
      NoLines(vs, p);
    } else {
      var init, line := lines[..|lines| - 1], lines[|lines| - 1];
      assert lines == init + [line];
      ReadBlock(vs, p, init);
      ParseLinesAppend(vs, p, init, [line]);
      OneLineRead(vs, ParseLines(vs, p, init), line);
      AfterParentSnoc(init, line);
      NotBoth(line);
    }
  }

  lemma NoLines<V>(vs: Values<V>, p: Parser)
    ensures ParseLines(vs, p, []) == p && !AfterParent([])
  {
  }

  lemma OneLineRead<V>(vs: Values<V>, p: Parser, line: string)
    ensures ParseLines(vs, p, [line]) == ParseLine(vs, p, line)
  {
    hide ParseLine;
    assert [line][1..] == [];
  }

  /** A block of any lines whatever gives one event if its last hash line is not empty, and
      else none. Text that is not hexadecimal counts as no bytes. */
  lemma BlockExactly<V>(vs: Values<V>, lines: seq<string>)
    requires SEPARATOR !in lines
    ensures Parsed(vs, [SEPARATOR] + lines) ==
      if LastText(HASH, lines) == "" then []
      else
        var data := DataOf(vs, LastValue(lines));
        [ChainEvent(HexOrEmpty(LastText(HASH, lines)),
                    if LastText(PARENT, lines) == "root" then None else Some(HexOrEmpty(LastText(PARENT, lines))),
                    [], if data.Some? then data.value else [])]
  {
    hide ParseLines, LastText, LastValue, DataOf, HexOrEmpty;
    var p := Parser([], "", "", None, true, false);
    ParseLinesAppend(vs, FRESH, [SEPARATOR], lines);
    OneLineRead(vs, FRESH, SEPARATOR);
    ReadBlock(vs, p, lines);
  }

  /** What stands before the first separator is skipped. */
  lemma {:induction false} PreambleSkipped<V>(vs: Values<V>, lines: seq<string>)
    requires SEPARATOR !in lines
    ensures ParseLines(vs, FRESH, lines) == FRESH && Parsed(vs, lines) == []
    decreases |lines|
  {
    if lines != [] {
      assert lines[0] in lines;
      PreambleSkipped(vs, lines[1..]);
    }
  }

  /** The bytes a text stands for: an even number of hexadecimal digits of either case, two to
      a byte, the high one first; anything else stands for none. */
  lemma {:induction false} HexExactly(s: string)
    ensures HexDecode(s).Some? <==> |s| % 2 == 0 && forall i :: 0 <= i < |s| ==> HexValue(s[i]) >= 0
    ensures HexDecode(s).Some? ==>
      && |HexDecode(s).value| == |s| / 2
      && forall i :: 0 <= i < |s| / 2 ==> HexDecode(s).value[i] == HexValue(s[2 * i]) * 16 + HexValue(s[2 * i + 1])
    decreases |s|
  {
    if |s| >= 2 {
      var rest := s[2..];
      HexExactly(rest);
      assert forall i :: 0 <= i < |rest| ==> rest[i] == s[i + 2];
      assert (forall i :: 0 <= i < |s| ==> HexValue(s[i]) >= 0) ==> forall i :: 0 <= i < |rest| ==> HexValue(rest[i]) >= 0;
      if HexDecode(s).Some? {
        forall i | 0 <= i < |s| ensures HexValue(s[i]) >= 0 { if i >= 2 { assert rest[i - 2] == s[i]; } }
        forall i | 0 <= i < |s| / 2
          ensures HexDecode(s).value[i] == HexValue(s[2 * i]) * 16 + HexValue(s[2 * i + 1])
        {
          if i > 0 { assert rest[2 * (i - 1)] == s[2 * i] && rest[2 * (i - 1) + 1] == s[2 * i + 1]; }
        }
      }
    }
  }
}
