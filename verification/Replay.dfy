/** What is recorded of an actor, and how a replay finds its way through the recording: the
    payloads of chain events in their value form, and the interceptor that answers host calls
    from a recorded chain. */
module Replay {
  import opened Prelude
  import opened HashChain
  import opened StateChain

  // ----- Payloads and their value form -----

  /** The value language, as far as payloads need it; `Opaque` stands for every other value. */
  datatype Value =
    | Str(s: string)
    | Tuple(items: seq<Value>)
    | Record(typeName: string, fields: seq<(string, Value)>)
    | Variant(variantName: string, caseName: string, tag: nat, payload: seq<Value>)
    | Opaque(n: int)

  datatype HostCall = HostCall(interface: string, function_: string, input: Value, output: Value)

  datatype WasmEvent =
    | WasmCall(name: string, params: Value)
    | WasmResult(name: string, state: Value, response: Value)
    | WasmError(name: string, message: string)
    | WasmCreationError(message: string)

  /** The fields of a replay summary are kept as they are written. */
  datatype Payload = HostFunction(call: HostCall) | Wasm(event: WasmEvent) | Summary(fields: seq<(string, Value)>)

  function HostCallValue(c: HostCall): (result: Value) {
    Record("host-function-call",
           [("interface", Str(c.interface)), ("function", Str(c.function_)),
            ("input", c.input), ("output", c.output)])
  }

  function WasmValue(e: WasmEvent): (result: Value) {
    match e
    case WasmCall(name, params) =>
      Variant("wasm-event-data", "wasm-call", 0,
              [Record("wasm-call", [("function-name", Str(name)), ("params", params)])])
    case WasmResult(name, state, response) =>
      Variant("wasm-event-data", "wasm-result", 1,
              [Record("wasm-result", [("function-name", Str(name)), ("state", state), ("response", response)])])
    case WasmError(name, message) =>
      Variant("wasm-event-data", "wasm-error", 2,
              [Record("wasm-error", [("function-name", Str(name)), ("message", Str(message))])])
    case WasmCreationError(message) =>
      Variant("wasm-event-data", "wasm-component-creation-error", 3,
              [Record("wasm-component-creation-error", [("error", Str(message))])])
  }

  function PayloadValue(p: Payload): (result: Value) {
    match p
    case HostFunction(call) => Variant("chain-event-payload", "host-function", 0, [HostCallValue(call)])
    case Wasm(event) => Variant("chain-event-payload", "wasm", 1, [WasmValue(event)])
    case Summary(fields) => Variant("chain-event-payload", "replay-summary", 2, [Record("replay-summary", fields)])
  }

  /** Fields are read by name; of repeated fields the last counts, unknown ones are ignored. */
  function ReadHostCall(fields: seq<(string, Value)>, c: HostCall): (r: Option<HostCall>)
    decreases |fields|
  {
    if fields == [] then Some(c)
    else
      var (name, v) := fields[0];
      if name == "interface" then (if v.Str? then ReadHostCall(fields[1..], c.(interface := v.s)) else None)
      else if name == "function" then (if v.Str? then ReadHostCall(fields[1..], c.(function_ := v.s)) else None)
      else if name == "input" then ReadHostCall(fields[1..], c.(input := v))
      else if name == "output" then ReadHostCall(fields[1..], c.(output := v))
      else ReadHostCall(fields[1..], c)
  }

  /** `decode_host_function_call` behind the byte codec: any other payload is `None`. */
  function AsHostCall(v: Value): (r: Option<HostCall>) {
    if v.Variant? && v.payload != [] && v.caseName == "host-function" && v.payload[0].Record? then
      ReadHostCall(v.payload[0].fields, HostCall("", "", Tuple([]), Tuple([])))
    else None
  }

  /** The guest call recorded in a payload, if it is one. */
  function AsWasmCall(v: Value): (r: Option<(string, Value)>) {
    if v.Variant? && v.payload != [] && v.caseName == "wasm" then
      var w := v.payload[0];
      if w.Variant? && w.payload != [] && w.caseName == "wasm-call" && w.payload[0].Record? then
        ReadWasmCall(w.payload[0].fields, "", Tuple([]))
      else None
    else None
  }

  /** The result of a guest call recorded in a payload: function, new state and response. */
  function AsWasmResult(v: Value): (r: Option<(string, Value, Value)>) {
    if v.Variant? && v.payload != [] && v.caseName == "wasm" then
      var w := v.payload[0];
      if w.Variant? && w.payload != [] && w.caseName == "wasm-result" && w.payload[0].Record? then
        ReadWasmResult(w.payload[0].fields, "", Tuple([]), Tuple([]))
      else None
    else None
  }

  function ReadWasmResult(fields: seq<(string, Value)>, name: string, state: Value, response: Value)
    : (r: Option<(string, Value, Value)>)
    decreases |fields|
  {
    if fields == [] then Some((name, state, response))
    else
      var (field, v) := fields[0];
      if field == "function-name" then (if v.Str? then ReadWasmResult(fields[1..], v.s, state, response) else None)
      else if field == "state" then ReadWasmResult(fields[1..], name, v, response)
      else if field == "response" then ReadWasmResult(fields[1..], name, state, v)
      else ReadWasmResult(fields[1..], name, state, response)
  }

  /** The failure of a guest call recorded in a payload: function and message. */
  function AsWasmError(v: Value): (r: Option<(string, string)>) {
    if v.Variant? && v.payload != [] && v.caseName == "wasm" then
      var w := v.payload[0];
      if w.Variant? && w.payload != [] && w.caseName == "wasm-error" && w.payload[0].Record? then
        ReadWasmError(w.payload[0].fields, "", "")
      else None
    else None
  }

  function ReadWasmError(fields: seq<(string, Value)>, name: string, message: string): (r: Option<(string, string)>)
    decreases |fields|
  {
    if fields == [] then Some((name, message))
    else
      var (field, v) := fields[0];
      if field == "function-name" then (if v.Str? then ReadWasmError(fields[1..], v.s, message) else None)
      else if field == "message" then (if v.Str? then ReadWasmError(fields[1..], name, v.s) else None)
      else ReadWasmError(fields[1..], name, message)
  }

  function ReadWasmCall(fields: seq<(string, Value)>, name: string, params: Value): (r: Option<(string, Value)>)
    decreases |fields|
  {
    if fields == [] then Some((name, params))
    else
      var (field, v) := fields[0];
      if field == "function-name" then (if v.Str? then ReadWasmCall(fields[1..], v.s, params) else None)
      else if field == "params" then ReadWasmCall(fields[1..], name, v)
      else ReadWasmCall(fields[1..], name, params)
  }

  lemma HostCallRoundTrip(c: HostCall)
    ensures ReadHostCall(HostCallValue(c).fields, HostCall("", "", Tuple([]), Tuple([]))) == Some(c)
  {
    var d := HostCall("", "", Tuple([]), Tuple([]));
    var f := HostCallValue(c).fields;
    assert f[1..] == [("function", Str(c.function_)), ("input", c.input), ("output", c.output)];
    assert f[1..][1..] == [("input", c.input), ("output", c.output)];
    assert f[1..][1..][1..] == [("output", c.output)];
    assert f[1..][1..][1..][1..] == [];
    var d1 := d.(interface := c.interface);
    var d2 := d1.(function_ := c.function_);
    assert ReadHostCall(f, d) == ReadHostCall(f[1..], d1);
    assert ReadHostCall(f[1..], d1) == ReadHostCall(f[1..][1..], d2);
    var d3 := d2.(input := c.input);
    assert ReadHostCall(f[1..][1..], d2) == ReadHostCall(f[1..][1..][1..], d3);
    assert ReadHostCall(f[1..][1..][1..], d3) == ReadHostCall([], c);
  }

  lemma WasmCallRoundTrip(name: string, params: Value)
    ensures ReadWasmCall([("function-name", Str(name)), ("params", params)], "", Tuple([])) == Some((name, params))
  {
    var f := [("function-name", Str(name)), ("params", params)];
    assert f[1..] == [("params", params)] && f[1..][1..] == [];
    assert ReadWasmCall(f, "", Tuple([])) == ReadWasmCall(f[1..], name, Tuple([]));
  }

  lemma WasmResultRoundTrip(name: string, state: Value, response: Value)
    ensures ReadWasmResult([("function-name", Str(name)), ("state", state), ("response", response)], "", Tuple([]), Tuple([]))
         == Some((name, state, response))
  {
    var f := [("function-name", Str(name)), ("state", state), ("response", response)];
    assert f[1..] == [("state", state), ("response", response)] && f[1..][1..] == [("response", response)];
    assert f[1..][1..][1..] == [];
    assert ReadWasmResult(f, "", Tuple([]), Tuple([])) == ReadWasmResult(f[1..], name, Tuple([]), Tuple([]));
    assert ReadWasmResult(f[1..], name, Tuple([]), Tuple([])) == ReadWasmResult(f[1..][1..], name, state, Tuple([]));
  }

  lemma WasmErrorRoundTrip(name: string, message: string)
    ensures ReadWasmError([("function-name", Str(name)), ("message", Str(message))], "", "") == Some((name, message))
  {
    var f := [("function-name", Str(name)), ("message", Str(message))];
    assert f[1..] == [("message", Str(message))] && f[1..][1..] == [];
    assert ReadWasmError(f, "", "") == ReadWasmError(f[1..], name, "");
  }

  /** Host calls, guest calls, results and failures read back as what they are, and every
      payload reads as nothing else. */
  lemma PayloadReadsBack(p: Payload)
    ensures AsHostCall(PayloadValue(p)) == if p.HostFunction? then Some(p.call) else None
    ensures AsWasmCall(PayloadValue(p)) ==
      if p.Wasm? && p.event.WasmCall? then Some((p.event.name, p.event.params)) else None
    ensures AsWasmResult(PayloadValue(p)) ==
      if p.Wasm? && p.event.WasmResult? then Some((p.event.name, p.event.state, p.event.response)) else None
    ensures AsWasmError(PayloadValue(p)) ==
      if p.Wasm? && p.event.WasmError? then Some((p.event.name, p.event.message)) else None
  {
    hide ReadHostCall, ReadWasmCall, ReadWasmResult, ReadWasmError;
    match p
    case HostFunction(call) => HostCallRoundTrip(call);
    case Wasm(WasmCall(name, params)) => WasmCallRoundTrip(name, params);
    case Wasm(WasmResult(name, state, response)) => WasmResultRoundTrip(name, state, response);
    case Wasm(WasmError(name, message)) => WasmErrorRoundTrip(name, message);
    case Wasm(_) =>
    case Summary(_) =>
  }

  /** The byte codec of values is foreign; all that is needed of it is that decoding undoes encoding. */
  datatype Codec = Codec(enc: Value -> Bytes, dec: Bytes -> Option<Value>)

  ghost predicate Lossless(codec: Codec) {
    forall v :: codec.dec(codec.enc(v)) == Some(v)
  }

  function HostCallIn(codec: Codec, e: ChainEvent): (r: Option<HostCall>) {
    match codec.dec(e.data)
    case Some(v) => AsHostCall(v)
    case None => None
  }

  function WasmCallIn(codec: Codec, e: ChainEvent): (r: Option<(string, Value)>) {
    match codec.dec(e.data)
    case Some(v) => AsWasmCall(v)
    case None => None
  }

  function ResultIn(codec: Codec, e: ChainEvent): (r: Option<(string, Value, Value)>) {
    match codec.dec(e.data)
    case Some(v) => AsWasmResult(v)
    case None => None
  }

  function FailureIn(codec: Codec, e: ChainEvent): (r: Option<(string, string)>) {
    match codec.dec(e.data)
    case Some(v) => AsWasmError(v)
    case None => None
  }

  predicate ErrorIn(codec: Codec, e: ChainEvent) {
    FailureIn(codec, e).Some?
  }

  // ----- The cursor of the replaying interceptor -----

  predicate Matches(codec: Codec, e: ChainEvent, interface: string, function_: string) {
    var call := HostCallIn(codec, e);
    call.Some? && call.value.interface == interface && call.value.function_ == function_
  }

  /** The first matching host call at or after `pos`, or the end. */
  function NextMatch(codec: Codec, events: seq<ChainEvent>, pos: nat, interface: string, function_: string): (k: nat)
    requires pos <= |events|
    ensures pos <= k <= |events|
    ensures k < |events| ==> Matches(codec, events[k], interface, function_)
    ensures forall j :: pos <= j < k ==> !Matches(codec, events[j], interface, function_)
    decreases |events| - pos
  {
    if pos == |events| || Matches(codec, events[pos], interface, function_) then pos
    else NextMatch(codec, events, pos + 1, interface, function_)
  }

  /** What a lookup answers, and where it leaves the cursor. */
  function Lookup(codec: Codec, events: seq<ChainEvent>, pos: nat, interface: string, function_: string)
    : (r: (Option<HostCall>, nat))
    requires pos <= |events|
    ensures r.1 <= |events|
  {
    var k := NextMatch(codec, events, pos, interface, function_);
    if k < |events| then (HostCallIn(codec, events[k]), k + 1) else (None, k)
  }

  /** A sequence of lookups, each from where the one before left the cursor. */
  function Lookups(codec: Codec, events: seq<ChainEvent>, pos: nat, queries: seq<(string, string)>)
    : (r: seq<(Option<HostCall>, nat)>)
    requires pos <= |events|
    ensures |r| == |queries|
    decreases |queries|
  {
    if queries == [] then []
    else
      var first := Lookup(codec, events, pos, queries[0].0, queries[0].1);
      [first] + Lookups(codec, events, first.1, queries[1..])
  }

  /** One lookup: a hit is the first matching call from the cursor on, and the cursor moves
      right behind it; a miss means that there is none, and the cursor moves to the end. */
  ghost predicate LookupOk(codec: Codec, events: seq<ChainEvent>, pos: nat, query: (string, string), r: (Option<HostCall>, nat)) {
    if r.0.Some? then
      && pos < r.1 <= |events| && r.0 == HostCallIn(codec, events[r.1 - 1])
      && Matches(codec, events[r.1 - 1], query.0, query.1)
      && forall j :: pos <= j < r.1 - 1 ==> !Matches(codec, events[j], query.0, query.1)
    else
      && r.1 == |events|
      && forall j :: pos <= j < |events| ==> !Matches(codec, events[j], query.0, query.1)
  }

  lemma LookupIsOk(codec: Codec, events: seq<ChainEvent>, pos: nat, query: (string, string))
    requires pos <= |events|
    ensures LookupOk(codec, events, pos, query, Lookup(codec, events, pos, query.0, query.1))
  {
    hide HostCallIn;
  }

  /** Where the cursor stands before the `i`-th lookup. */
  function CursorAt(pos: nat, r: seq<(Option<HostCall>, nat)>, i: nat): (cursor: nat)
    requires i <= |r|
  {
    if i == 0 then pos else r[i - 1].1
  }

  ghost predicate InTurn(codec: Codec, events: seq<ChainEvent>, pos: nat, queries: seq<(string, string)>,
                         r: seq<(Option<HostCall>, nat)>) {
    && |r| == |queries|
    && forall i :: 0 <= i < |r| ==> LookupOk(codec, events, CursorAt(pos, r, i), queries[i], r[i])
  }

  lemma InTurnCons(codec: Codec, events: seq<ChainEvent>, pos: nat, queries: seq<(string, string)>,
                   first: (Option<HostCall>, nat), rest: seq<(Option<HostCall>, nat)>)
    requires queries != [] && LookupOk(codec, events, pos, queries[0], first)
    requires InTurn(codec, events, first.1, queries[1..], rest)
    ensures InTurn(codec, events, pos, queries, [first] + rest)
  {
    hide LookupOk;
    var r := [first] + rest;
    forall i | 0 <= i < |r|
      ensures LookupOk(codec, events, CursorAt(pos, r, i), queries[i], r[i])
    {
      if i > 0 {
        assert LookupOk(codec, events, CursorAt(first.1, rest, i - 1), queries[1..][i - 1], rest[i - 1]);
      }
    }
  }

  lemma {:induction false} LookupsInTurn(codec: Codec, events: seq<ChainEvent>, pos: nat, queries: seq<(string, string)>)
    requires pos <= |events|
    ensures InTurn(codec, events, pos, queries, Lookups(codec, events, pos, queries))
    decreases |queries|
  {
    hide InTurn, LookupOk, Lookup;
    if queries == [] {
      NoneInTurn(codec, events, pos);
    } else {
      var first := Lookup(codec, events, pos, queries[0].0, queries[0].1);
      LookupIsOk(codec, events, pos, queries[0]);
      LookupsInTurn(codec, events, first.1, queries[1..]);
      InTurnCons(codec, events, pos, queries, first, Lookups(codec, events, first.1, queries[1..]));
    }
  }

  lemma NoneInTurn(codec: Codec, events: seq<ChainEvent>, pos: nat)
    ensures InTurn(codec, events, pos, [], [])
  {
  }

  lemma InTurnMoves(codec: Codec, events: seq<ChainEvent>, pos: nat, queries: seq<(string, string)>,
                    r: seq<(Option<HostCall>, nat)>, i: nat)
    requires InTurn(codec, events, pos, queries, r) && i < |r|
    ensures if r[i].0.Some? then CursorAt(pos, r, i) < r[i].1 <= |events| else r[i].1 == |events|
  {
    hide HostCallIn, Matches;
    assert LookupOk(codec, events, CursorAt(pos, r, i), queries[i], r[i]);
  }

  lemma {:induction false} CursorGrows(codec: Codec, events: seq<ChainEvent>, pos: nat, queries: seq<(string, string)>,
                                       r: seq<(Option<HostCall>, nat)>, i: nat, j: nat)
    requires InTurn(codec, events, pos, queries, r) && i < j < |r| && r[j].0.Some?
    ensures r[i].0.Some? && r[i].1 < r[j].1
    decreases j
  {
    hide InTurn;
    InTurnMoves(codec, events, pos, queries, r, j);
    InTurnMoves(codec, events, pos, queries, r, j - 1);
    if i < j - 1 {
      CursorGrows(codec, events, pos, queries, r, i, j - 1);
    }
  }

  /** Over any sequence of lookups: each finds the first matching call from the cursor on; the
      cursor only grows, by every hit, so nothing is handed out twice and outputs keep the
      recorded order; and one miss exhausts the log. */
  lemma LookupsInOrder(codec: Codec, events: seq<ChainEvent>, pos: nat, queries: seq<(string, string)>)
    requires pos <= |events|
    ensures var r := Lookups(codec, events, pos, queries);
      && InTurn(codec, events, pos, queries, r)
      && (forall j :: 0 <= j < |r| && r[j].0.Some? ==> pos < r[j].1)
      && (forall i, j :: 0 <= i < j < |r| && r[j].0.Some? ==> r[i].0.Some? && r[i].1 < r[j].1)
  {
    hide InTurn, Lookups;
    LookupsInTurn(codec, events, pos, queries);
    var r := Lookups(codec, events, pos, queries);
    forall i, j | 0 <= i < j < |r| && r[j].0.Some?
      ensures r[i].0.Some? && r[i].1 < r[j].1
    {
      CursorGrows(codec, events, pos, queries, r, i, j);
    }
    if r != [] { InTurnMoves(codec, events, pos, queries, r, 0); }
  }

  /** The recording interceptor always lets the host answer; the replaying one keeps a cursor
      into the expected events. Both append to `chain`. */
  class ReplayInterceptor {
    const codec: Codec
    const expected: seq<ChainEvent>
    const chain: ActorChain
    var position: nat

    constructor (codec: Codec, expected: seq<ChainEvent>, chain: ActorChain)
      ensures this.codec == codec && this.expected == expected && this.chain == chain && position == 0
    {
      this.codec, this.expected, this.chain := codec, expected, chain;
      position := 0;
    }

    method FindNextHostCall(interface: string, function_: string) returns (r: Option<HostCall>)
      requires position <= |expected|
      modifies this`position
      ensures position <= |expected|
      ensures (r, position) == Lookup(codec, expected, old(position), interface, function_)
    {
      hide Matches, HostCallIn;
      while position < |expected|
        invariant old(position) <= position <= |expected|
        invariant NextMatch(codec, expected, old(position), interface, function_)
               == NextMatch(codec, expected, position, interface, function_)
      {
        var found := HostCallIn(codec, expected[position]);
        MatchesMeans(codec, expected[position], interface, function_);
        if found.Some? && found.value.interface == interface && found.value.function_ == function_ {
          position := position + 1;
          return found;
        }
        position := position + 1;
      }
      return None;
    }

    method BeforeImport(interface: string, function_: string) returns (output: Option<Value>)
      requires position <= |expected|
      modifies this`position
      ensures position <= |expected|
      ensures var (call, pos) := Lookup(codec, expected, old(position), interface, function_);
        position == pos && output == if call.Some? then Some(call.value.output) else None
    {
      var call := FindNextHostCall(interface, function_);
      output := if call.Some? then Some(call.value.output) else None;
    }

    method AfterImport(interface: string, function_: string, input: Value, output: Value, open: set<nat>)
      requires chain.Valid()
      modifies chain
      ensures chain.Valid()
      ensures chain.emitted == Append(chain.sha, codec, old(chain.emitted), interface + "/" + function_,
                                      HostFunction(HostCall(interface, function_, input, output)))
    {
      hide PayloadValue, Utf8, NextEvent;
      var data := codec.enc(PayloadValue(HostFunction(HostCall(interface, function_, input, output))));
      var _, _ := chain.AddTypedEvent(Utf8(interface + "/" + function_), data, open);
    }
  }

  lemma MatchesMeans(codec: Codec, e: ChainEvent, interface: string, function_: string)
    ensures Matches(codec, e, interface, function_) <==>
      var call := HostCallIn(codec, e);
      call.Some? && call.value.interface == interface && call.value.function_ == function_
  {
  }

  // ----- Appending to the chain -----

  /** The UTF-8 bytes of a string. */
  function Utf8(s: string): (b: Bytes) {
    if s == [] then [] else Utf8Char(s[0] as int) + Utf8(s[1..])
  }

  function Utf8Char(c: int): (b: Bytes)
    requires 0 <= c < 0x11_0000
  {
    if c < 0x80 then [c]
    else if c < 0x800 then [0xC0 + c / 0x40, 0x80 + c % 0x40]
    else if c < 0x1_0000 then [0xE0 + c / 0x1000, 0x80 + c / 0x40 % 0x40, 0x80 + c % 0x40]
    else [0xF0 + c / 0x4_0000, 0x80 + c / 0x1000 % 0x40, 0x80 + c / 0x40 % 0x40, 0x80 + c % 0x40]
  }

  function Append(sha: Sha1, codec: Codec, chain: seq<ChainEvent>, eventType: string, p: Payload): (r: seq<ChainEvent>) {
    chain + [NextEvent(sha, chain, Utf8(eventType), codec.enc(PayloadValue(p)))]
  }
}
