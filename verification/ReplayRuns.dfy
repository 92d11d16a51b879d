/** Recording and replaying whole runs of an actor. A run appends one chain event per guest
    call, per host call and per result; a call that traps makes the runtime stop the actor,
    which appends a stop event; somebody outside may stop it at any time, which appends the
    same event while a call that is running goes on. A replay walks the recorded chain,
    repeats the guest calls, answers host calls from the recording and appends to a new chain. */
module ReplayRuns {
  import opened Prelude
  import opened HashChain
  import opened StateChain
  import opened Replay

  /** What the guest does next, as a function of its state, the call it is serving and the
      outputs of the imports it has made so far: the guest is deterministic. */
  datatype Act =
    | Import(interface: string, function_: string, input: Value)
    | Return(state: Value, response: Value)
    | Trap(message: string)

  datatype World = World(sha: Sha1, codec: Codec, guest: (Value, string, Value, seq<Value>) -> Act)

  datatype Phase = Idle | Running(name: string, params: Value, outputs: seq<Value>) | Trapped

  /** `stopped`: the stop event has been recorded; the runtime records it once. */
  datatype Machine = Machine(state: Value, phase: Phase, calls: seq<(string, Value)>,
                             chain: seq<ChainEvent>, cursor: nat, stopped: bool)

  datatype Mode = Recording | Replaying(expected: seq<ChainEvent>)

  /** `Work` lets the actor do its next step; `host` is what the real host function would
      answer, and is asked only if the interceptor has no answer. `StopRequest` comes from
      outside the actor. */
  datatype Input = Work(host: Value) | StopRequest

  function Start(state: Value, calls: seq<(string, Value)>): (m: Machine) {
    Machine(state, Idle, calls, [], 0, false)
  }

  /** The interceptor's answer before an import and its new cursor. */
  function BeforeImport(codec: Codec, mode: Mode, cursor: nat, interface: string, function_: string)
    : (r: (Option<Value>, nat))
  {
    if mode.Recording? || cursor > |mode.expected| then (None, cursor)
    else
      var (call, pos) := Lookup(codec, mode.expected, cursor, interface, function_);
      (if call.Some? then Some(call.value.output) else None, pos)
  }

  const STOP := Wasm(WasmCall("shutdown", Tuple([])))

  function Stop(w: World, m: Machine): (m': Machine) {
    if m.stopped then m else m.(stopped := true, chain := Append(w.sha, w.codec, m.chain, "shutdown", STOP))
  }

  /** The actor's own next step: start the next call, serve one import, return or trap. */
  function Serve(w: World, mode: Mode, m: Machine, host: Value): (m': Machine)
    requires m.phase != Trapped
  {
    match m.phase
    case Idle =>
      if m.calls == [] then m
      else
        var (name, params) := m.calls[0];
        m.(phase := Running(name, params, []), calls := m.calls[1..],
           chain := Append(w.sha, w.codec, m.chain, "wasm", Wasm(WasmCall(name, params))))
    case Running(name, params, outputs) =>
      match w.guest(m.state, name, params, outputs)
      case Import(interface, function_, input) =>
        var (answer, cursor) := BeforeImport(w.codec, mode, m.cursor, interface, function_);
        var output := if answer.Some? then answer.value else host;
        m.(phase := Running(name, params, outputs + [output]), cursor := cursor,
           chain := Append(w.sha, w.codec, m.chain, interface + "/" + function_,
                           HostFunction(HostCall(interface, function_, input, output))))
      case Return(state, response) =>
        m.(phase := Idle, state := state,
           chain := Append(w.sha, w.codec, m.chain, "wasm", Wasm(WasmResult(name, state, response))))
      case Trap(message) =>
        m.(phase := Trapped,
           chain := Append(w.sha, w.codec, m.chain, "wasm", Wasm(WasmError(name, message))))
  }

  function Step(w: World, mode: Mode, m: Machine, input: Input): (m': Machine) {
    if input == StopRequest || m.phase == Trapped then Stop(w, m) else Serve(w, mode, m, input.host)
  }

  function Run(w: World, mode: Mode, m: Machine, inputs: seq<Input>): (m': Machine) {
    if inputs == [] then m
    else Step(w, mode, Run(w, mode, m, inputs[..|inputs| - 1]), inputs[|inputs| - 1])
  }

  /** Nothing is left for the actor to do. */
  predicate Done(m: Machine) {
    (m.phase == Trapped && m.stopped) || (m.phase == Idle && m.calls == [])
  }

  /** The guest calls found in a chain, in order: what the replay handler repeats. */
  function RecordedCalls(codec: Codec, events: seq<ChainEvent>): (calls: seq<(string, Value)>) {
    if events == [] then []
    else
      var call := WasmCallIn(codec, events[0]);
      (if call.Some? then [call.value] else []) + RecordedCalls(codec, events[1..])
  }

  // ----- Single steps -----

  lemma AppendedReadsBack(w: World, chain: seq<ChainEvent>, eventType: string, p: Payload)
    requires Lossless(w.codec)
    ensures var r := Append(w.sha, w.codec, chain, eventType, p);
      var e := r[|chain|];
      && HostCallIn(w.codec, e) == (if p.HostFunction? then Some(p.call) else None)
      && WasmCallIn(w.codec, e) ==
           (if p.Wasm? && p.event.WasmCall? then Some((p.event.name, p.event.params)) else None)
      && ResultIn(w.codec, e) ==
           (if p.Wasm? && p.event.WasmResult? then Some((p.event.name, p.event.state, p.event.response)) else None)
      && FailureIn(w.codec, e) ==
           (if p.Wasm? && p.event.WasmError? then Some((p.event.name, p.event.message)) else None)
      && (ErrorIn(w.codec, e) <==> p.Wasm? && p.event.WasmError?)
      && e.eventType == Utf8(eventType)
  {
    hide PayloadValue, AsHostCall, AsWasmCall, AsWasmResult, AsWasmError, Utf8;
    PayloadReadsBack(p);
  }

  lemma AppendKeeps(w: World, chain: seq<ChainEvent>)
    ensures forall eventType, p :: var r := Append(w.sha, w.codec, chain, eventType, p);
      |r| == |chain| + 1 && r[..|chain|] == chain
  {
    hide NextEvent, PayloadValue, Utf8;
  }

  lemma StepAppendsAtMostOne(w: World, mode: Mode, m: Machine, input: Input)
    ensures var m' := Step(w, mode, m, input);
      && |m.chain| <= |m'.chain| <= |m.chain| + 1 && m'.chain[..|m.chain|] == m.chain
      && (|m'.chain| == |m.chain| ==> m' == m)
  {
    hide Append;
    AppendKeeps(w, m.chain);
    assert m.chain[..|m.chain|] == m.chain;
  }

  lemma WorkIsDone(w: World, mode: Mode, m: Machine, host: Value)
    ensures var m' := Step(w, mode, m, Work(host));
      if Done(m) then m' == m else |m'.chain| == |m.chain| + 1
  {
    hide Append;
    AppendKeeps(w, m.chain);
  }

  lemma RunSnoc(w: World, mode: Mode, m: Machine, inputs: seq<Input>, input: Input)
    ensures Run(w, mode, m, inputs + [input]) == Step(w, mode, Run(w, mode, m, inputs), input)
  {
    assert (inputs + [input])[..|inputs|] == inputs;
  }

  /** The inputs that recorded something: leaving out the others changes nothing. */
  lemma {:induction false} Effective(w: World, m: Machine, inputs: seq<Input>) returns (eff: seq<Input>)
    requires m.chain == []
    ensures Run(w, Recording, m, eff) == Run(w, Recording, m, inputs)
    ensures |eff| == |Run(w, Recording, m, inputs).chain|
  {
    hide Step;
    if inputs == [] {
      eff := [];
    } else {
      var init, last := inputs[..|inputs| - 1], inputs[|inputs| - 1];
      eff := Effective(w, m, init);
      var before := Run(w, Recording, m, init);
      StepAppendsAtMostOne(w, Recording, before, last);
      if |Step(w, Recording, before, last).chain| > |before.chain| {
        RunSnoc(w, Recording, m, eff, last);
        eff := eff + [last];
      }
    }
  }

  lemma {:induction false} ChainOnlyGrows(w: World, mode: Mode, m: Machine, inputs: seq<Input>, n: nat)
    requires n <= |inputs|
    ensures Run(w, mode, m, inputs[..n]).chain <= Run(w, mode, m, inputs).chain
    ensures |Run(w, mode, m, inputs).chain| <= |Run(w, mode, m, inputs[..n]).chain| + |inputs| - n
  {
    hide Step;
    if n < |inputs| {
      var init := inputs[..|inputs| - 1];
      assert init[..n] == inputs[..n];
      ChainOnlyGrows(w, mode, m, init, n);
      StepAppendsAtMostOne(w, mode, Run(w, mode, m, init), inputs[|inputs| - 1]);
    } else {
      assert inputs[..n] == inputs;
    }
  }

  /** When every input recorded something, so did every input of a prefix. */
  lemma FullPrefix(w: World, m: Machine, inputs: seq<Input>, n: nat)
    requires n <= |inputs| && m.chain == [] && |Run(w, Recording, m, inputs).chain| == |inputs|
    ensures |Run(w, Recording, m, inputs[..n]).chain| == n
    ensures Run(w, Recording, m, inputs[..n]).chain == Run(w, Recording, m, inputs).chain[..n]
  {
    hide Run;
    ChainOnlyGrows(w, Recording, m, inputs, n);
    ChainOnlyGrows(w, Recording, m, inputs[..n], 0);
    assert inputs[..n][..0] == [];
    NoInputs(w, Recording, m);
  }

  lemma NoInputs(w: World, mode: Mode, m: Machine)
    ensures Run(w, mode, m, []) == m
  {
  }

  // ----- Replay reproduces the recording -----

  /** Somebody outside stops an actor that is not being stopped for a trap anyway. */
  predicate Outside(m: Machine, input: Input) {
    input == StopRequest && m.phase != Trapped && !m.stopped
  }

  /** The replay mirrors the recording, and will find in the rest of the expected chain the
      calls still to come; between cursor and head there is no host call. */
  ghost predicate Mirrors(w: World, expected: seq<ChainEvent>, rec: Machine, rep: Machine) {
    && rep.state == rec.state && rep.phase == rec.phase && rep.chain == rec.chain && rep.stopped == rec.stopped
    && rec.chain <= expected
    && (rep.phase != Trapped ==> rep.calls == RecordedCalls(w.codec, expected[|rec.chain|..]))
    && rep.cursor <= |rec.chain|
    && forall j :: rep.cursor <= j < |rec.chain| ==> HostCallIn(w.codec, expected[j]).None?
  }

  /** A lookup finds the host call at the head of the recording. */
  lemma LookupFindsHead(codec: Codec, expected: seq<ChainEvent>, cursor: nat, n: nat, call: HostCall)
    requires cursor <= n < |expected|
    requires forall j :: cursor <= j < n ==> HostCallIn(codec, expected[j]).None?
    requires HostCallIn(codec, expected[n]) == Some(call)
    ensures Lookup(codec, expected, cursor, call.interface, call.function_) == (Some(call), n + 1)
  {
    hide HostCallIn;
    var k := NextMatch(codec, expected, cursor, call.interface, call.function_);
    assert Matches(codec, expected[n], call.interface, call.function_);
    assert k <= n;
  }

  lemma RestOfCalls(codec: Codec, events: seq<ChainEvent>, n: nat)
    requires n < |events|
    ensures RecordedCalls(codec, events[n..]) ==
      (if WasmCallIn(codec, events[n]).Some? then [WasmCallIn(codec, events[n]).value] else [])
      + RecordedCalls(codec, events[n + 1..])
  {
    assert events[n..][0] == events[n] && events[n..][1..] == events[n + 1..];
  }

  /** Advancing past an event that is not a host call, or to just behind one that is. */
  lemma MirrorServe(w: World, expected: seq<ChainEvent>, rec: Machine, rep: Machine, host: Value, host': Value)
    requires Lossless(w.codec) && Mirrors(w, expected, rec, rep) && rec.phase != Trapped
    requires var rec' := Serve(w, Recording, rec, host); |rec'.chain| == |rec.chain| + 1 && rec'.chain <= expected
    ensures Mirrors(w, expected, Serve(w, Recording, rec, host), Serve(w, Replaying(expected), rep, host'))
  {
    hide Append, RecordedCalls, HostCallIn, WasmCallIn, ResultIn, FailureIn, Lookup, ErrorIn, Utf8;
    var rec' := Serve(w, Recording, rec, host);
    var n := |rec.chain|;
    assert expected[n] == rec'.chain[n];
    RestOfCalls(w.codec, expected, n);
    AppendKeeps(w, rec.chain);
    match rec.phase
    case Idle =>
      var (name, params) := rec.calls[0];
      AppendedReadsBack(w, rec.chain, "wasm", Wasm(WasmCall(name, params)));
    case Running(name, params, outputs) =>
      match w.guest(rec.state, name, params, outputs) {
        case Import(interface, function_, input) =>
          var call := HostCall(interface, function_, input, host);
          AppendedReadsBack(w, rec.chain, interface + "/" + function_, HostFunction(call));
          LookupFindsHead(w.codec, expected, rep.cursor, n, call);
        case Return(state, response) =>
          AppendedReadsBack(w, rec.chain, "wasm", Wasm(WasmResult(name, state, response)));
        case Trap(message) =>
          AppendedReadsBack(w, rec.chain, "wasm", Wasm(WasmError(name, message)));
      }
  }

  /** The stop that follows a trap happens in the replay as well. */
  lemma MirrorStop(w: World, expected: seq<ChainEvent>, rec: Machine, rep: Machine)
    requires Lossless(w.codec) && Mirrors(w, expected, rec, rep) && rec.phase == Trapped
    requires var rec' := Stop(w, rec); |rec'.chain| == |rec.chain| + 1 && rec'.chain <= expected
    ensures Mirrors(w, expected, Stop(w, rec), Stop(w, rep))
  {
    hide Append, RecordedCalls, HostCallIn, WasmCallIn, ResultIn, FailureIn, ErrorIn, Utf8;
    assert expected[|rec.chain|] == Stop(w, rec).chain[|rec.chain|];
    AppendKeeps(w, rec.chain);
    AppendedReadsBack(w, rec.chain, "shutdown", STOP);
  }

  lemma MirrorStep(w: World, expected: seq<ChainEvent>, rec: Machine, rep: Machine, input: Input, host': Value)
    requires Lossless(w.codec) && Mirrors(w, expected, rec, rep) && !Outside(rec, input)
    requires var rec' := Step(w, Recording, rec, input); |rec'.chain| == |rec.chain| + 1 && rec'.chain <= expected
    ensures Mirrors(w, expected, Step(w, Recording, rec, input), Step(w, Replaying(expected), rep, Work(host')))
  {
    hide Serve, Append, RecordedCalls, HostCallIn;
    if rec.phase == Trapped {
      MirrorStop(w, expected, rec, rep);
    } else if input.Work? {
      MirrorServe(w, expected, rec, rep, input.host, host');
    }
  }

  function Works(hosts: seq<Value>): (inputs: seq<Input>)
    ensures |inputs| == |hosts| && forall i :: 0 <= i < |hosts| ==> inputs[i] == Work(hosts[i])
  {
    seq(|hosts|, i requires 0 <= i < |hosts| => Work(hosts[i]))
  }

  /** No input among the first `n` is a stop from outside. */
  ghost predicate Undisturbed(w: World, m: Machine, inputs: seq<Input>, n: nat)
    requires n <= |inputs|
  {
    forall k :: 0 <= k < n ==> !Outside(Run(w, Recording, m, inputs[..k]), inputs[k])
  }

  /** Step by step: as long as nobody outside stops the recorded actor, a replay of any chain
      that continues the recording has the same guest state, is in the same place of the same
      call with the same outputs, and has built the same chain, whatever the host of the
      replay would have answered. */
  lemma {:induction false} ReplayMirrors(w: World, state: Value, calls: seq<(string, Value)>,
                                         inputs: seq<Input>, hosts': seq<Value>, expected: seq<ChainEvent>)
    requires Lossless(w.codec) && |hosts'| == |inputs|
    requires var rec := Run(w, Recording, Start(state, calls), inputs);
      |rec.chain| == |inputs| && rec.chain <= expected
    requires Undisturbed(w, Start(state, calls), inputs, |inputs|)
    ensures Mirrors(w, expected, Run(w, Recording, Start(state, calls), inputs),
                    Run(w, Replaying(expected), Start(state, RecordedCalls(w.codec, expected)), Works(hosts')))
  {
    hide Step, RecordedCalls, HostCallIn, Outside;
    var rec0, rep0 := Start(state, calls), Start(state, RecordedCalls(w.codec, expected));
    if inputs == [] {
      assert expected[0..] == expected;
    } else {
      var n := |inputs| - 1;
      var before := Run(w, Recording, rec0, inputs[..n]);
      FullPrefix(w, rec0, inputs, n);
      assert before.chain <= expected by {
        var rec := Run(w, Recording, rec0, inputs);
        assert before.chain == rec.chain[..n] == expected[..n];
      }
      assert forall k :: 0 <= k < n ==> inputs[..n][..k] == inputs[..k];
      ReplayMirrors(w, state, calls, inputs[..n], hosts'[..n], expected);
      assert Works(hosts')[..n] == Works(hosts'[..n]);
      assert !Outside(before, inputs[n]);
      MirrorStep(w, expected, before, Run(w, Replaying(expected), rep0, Works(hosts'[..n])), inputs[n], hosts'[n]);
    }
  }

  // ----- Telling stops apart -----

  lemma {:induction false} Utf8Append(a: string, b: string)
    ensures Utf8(a + b) == Utf8(a) + Utf8(b)
  {
    hide Utf8Char;
    if a == [] {
      assert a + b == b;
    } else {
      assert (a + b)[1..] == a[1..] + b;
      Utf8Append(a[1..], b);
    }
  }

  lemma {:induction false} PlainUtf8(s: string)
    requires forall i :: 0 <= i < |s| ==> s[i] as int < 0x80
    ensures |Utf8(s)| == |s| && forall i :: 0 <= i < |s| ==> Utf8(s)[i] == s[i] as int
  {
    if s != [] {
      PlainUtf8(s[1..]);
    }
  }

  lemma WasmIsNotStop()
    ensures Utf8("wasm") != Utf8("shutdown")
  {
    PlainUtf8("wasm");
    PlainUtf8("shutdown");
  }

  lemma HasSlash(a: string, b: string)
    ensures '/' as int in Utf8(a + "/" + b)
  {
    hide Utf8;
    Utf8Append(a + "/", b);
    Utf8Append(a, "/");
    PlainUtf8("/");
    assert Utf8(a + "/" + b)[|Utf8(a)|] == '/' as int;
  }

  lemma ImportIsNotStop(interface: string, function_: string)
    ensures Utf8(interface + "/" + function_) != Utf8("shutdown")
  {
    hide Utf8;
    HasSlash(interface, function_);
    PlainUtf8("shutdown");
    assert forall i :: 0 <= i < 8 ==> "shutdown"[i] != '/';
  }

  predicate IsStop(e: ChainEvent) {
    e.eventType == Utf8("shutdown")
  }

  /** What a step appends is a stop event exactly when it is a stop. */
  lemma StepAppends(w: World, mode: Mode, m: Machine, input: Input)
    requires |Step(w, mode, m, input).chain| == |m.chain| + 1
    ensures var m' := Step(w, mode, m, input);
      var e := m'.chain[|m.chain|];
      && e.hash == w.sha(HashedText(e)) && e.parent == HeadOf(m.chain)
      && (IsStop(e) <==> input == StopRequest || m.phase == Trapped)
  {
    hide Utf8, PayloadValue, BeforeImport, Serialize;
    WasmIsNotStop();
    if m.phase.Running? && input.Work? {
      var act := w.guest(m.state, m.phase.name, m.phase.params, m.phase.outputs);
      if act.Import? {
        ImportIsNotStop(act.interface, act.function_);
      }
    }
  }

  /** The stop event at `k` stands right behind the failure of a call. */
  predicate AfterTrap(codec: Codec, chain: seq<ChainEvent>, k: nat)
    requires k < |chain|
  {
    k > 0 && ErrorIn(codec, chain[k - 1])
  }

  /** Can be told from the chain alone: every stop in it stands right behind a failure. */
  predicate Replayable(codec: Codec, chain: seq<ChainEvent>) {
    forall k :: 0 <= k < |chain| && IsStop(chain[k]) ==> AfterTrap(codec, chain, k)
  }

  /** Until it is stopped, an actor has trapped exactly when its last event is a failure. */
  predicate ChainTells(codec: Codec, m: Machine) {
    !m.stopped ==> (m.phase == Trapped <==> m.chain != [] && ErrorIn(codec, m.chain[|m.chain| - 1]))
  }

  lemma StepTells(w: World, mode: Mode, m: Machine, input: Input)
    requires Lossless(w.codec) && ChainTells(w.codec, m)
    ensures ChainTells(w.codec, Step(w, mode, m, input))
  {
    hide Append, ErrorIn, HostCallIn, WasmCallIn, ResultIn, FailureIn, BeforeImport, Utf8;
    AppendKeeps(w, m.chain);
    if input.Work? && m.phase == Idle && m.calls != [] {
      AppendedReadsBack(w, m.chain, "wasm", Wasm(WasmCall(m.calls[0].0, m.calls[0].1)));
    } else if input.Work? && m.phase.Running? {
      var name := m.phase.name;
      match w.guest(m.state, name, m.phase.params, m.phase.outputs) {
        case Import(interface, function_, i) =>
          var (answer, _) := BeforeImport(w.codec, mode, m.cursor, interface, function_);
          var output := if answer.Some? then answer.value else input.host;
          AppendedReadsBack(w, m.chain, interface + "/" + function_,
                            HostFunction(HostCall(interface, function_, i, output)));
        case Return(state, response) =>
          AppendedReadsBack(w, m.chain, "wasm", Wasm(WasmResult(name, state, response)));
        case Trap(message) =>
          AppendedReadsBack(w, m.chain, "wasm", Wasm(WasmError(name, message)));
      }
    }
  }

  lemma {:induction false} RunTells(w: World, mode: Mode, m: Machine, inputs: seq<Input>)
    requires Lossless(w.codec) && ChainTells(w.codec, m)
    ensures ChainTells(w.codec, Run(w, mode, m, inputs))
  {
    hide Step, ChainTells;
    if inputs != [] {
      RunTells(w, mode, m, inputs[..|inputs| - 1]);
      StepTells(w, mode, Run(w, mode, m, inputs[..|inputs| - 1]), inputs[|inputs| - 1]);
    }
  }

  /** A stop from outside is a stop event that does not follow a failure, and nothing else is. */
  lemma OutsideByChain(w: World, state: Value, calls: seq<(string, Value)>, inputs: seq<Input>, k: nat)
    requires Lossless(w.codec) && k < |inputs|
    requires |Run(w, Recording, Start(state, calls), inputs).chain| == |inputs|
    ensures var chain := Run(w, Recording, Start(state, calls), inputs).chain;
      Outside(Run(w, Recording, Start(state, calls), inputs[..k]), inputs[k]) <==>
      IsStop(chain[k]) && !AfterTrap(w.codec, chain, k)
  {
    hide Run, Step, IsStop, ErrorIn;
    var m0 := Start(state, calls);
    var m := Run(w, Recording, m0, inputs[..k]);
    FullPrefix(w, m0, inputs, k);
    FullPrefix(w, m0, inputs, k + 1);
    assert inputs[..k + 1] == inputs[..k] + [inputs[k]];
    RunSnoc(w, Recording, m0, inputs[..k], inputs[k]);
    StepAppends(w, Recording, m, inputs[k]);
    RunTells(w, Recording, m0, inputs[..k]);
    StoppedAppendsNoStop(w, Recording, m, inputs[k]);
  }

  lemma StoppedAppendsNoStop(w: World, mode: Mode, m: Machine, input: Input)
    ensures m.stopped && (input == StopRequest || m.phase == Trapped) ==> Step(w, mode, m, input) == m
  {
  }

  /** The first stop from outside, or the end. */
  lemma FirstOutside(w: World, m: Machine, inputs: seq<Input>) returns (n: nat)
    ensures n <= |inputs| && Undisturbed(w, m, inputs, n)
    ensures n < |inputs| ==> Outside(Run(w, Recording, m, inputs[..n]), inputs[n])
  {
    hide Run, Outside;
    n := 0;
    while n < |inputs| && !Outside(Run(w, Recording, m, inputs[..n]), inputs[n])
      invariant n <= |inputs| && Undisturbed(w, m, inputs, n)
    {
      n := n + 1;
    }
  }

  // ----- The verdict of a replay -----

  datatype Verdict = Complete | Diverged(at: nat) | Short(verified: nat)

  /** The first `n` events of both chains agree in their hashes. */
  predicate Agree(expected: seq<ChainEvent>, actual: seq<ChainEvent>, n: nat) {
    n <= |expected| && n <= |actual| && forall i :: 0 <= i < n ==> actual[i].hash == expected[i].hash
  }

  /** The verification loop: compares the hash of every event of the new chain with the
      expected one, and is done when all expected events have been seen. */
  method VerifyStream(expected: seq<ChainEvent>, actual: seq<ChainEvent>) returns (v: Verdict)
    ensures v == Complete <==> Agree(expected, actual, |expected|) && (expected == [] ==> actual == [])
    ensures forall n: nat :: v == Diverged(n) <==>
      Agree(expected, actual, n) && n < |actual| && if n < |expected| then actual[n].hash != expected[n].hash else n == 0
    ensures forall n: nat :: v == Short(n) <==> n == |actual| < |expected| && Agree(expected, actual, n)
    ensures v == Judge(expected, actual)
  {
    v := Scan(expected, actual);
    JudgeExactly(expected, actual);
  }

  method Scan(expected: seq<ChainEvent>, actual: seq<ChainEvent>) returns (v: Verdict)
    ensures v == Judge(expected, actual)
  {
    var verified := 0;
    for i := 0 to |actual|
      invariant verified == i <= |expected| && (i > 0 ==> i < |expected|)
      invariant forall k :: 0 <= k < i ==> actual[k].hash == expected[k].hash
    {
      if verified >= |expected| || actual[i].hash != expected[verified].hash {
        FirstMismatchIs(expected, actual, i);
        return Diverged(verified);
      }
      verified := verified + 1;
      if verified >= |expected| {
        FirstMismatchIs(expected, actual, i + 1);
        return Complete;
      }
    }
    FirstMismatchIs(expected, actual, |actual|);
    return if verified == |expected| then Complete else Short(verified);
  }

  /** The verdict, without saying how it is found: complete when every expected event is matched,
      diverged at the first event that is not the expected one, short when the new chain ends
      before the expected one. */
  lemma JudgeExactly(expected: seq<ChainEvent>, actual: seq<ChainEvent>)
    ensures Judge(expected, actual) == Complete <==>
      Agree(expected, actual, |expected|) && (expected == [] ==> actual == [])
    ensures forall n: nat :: Judge(expected, actual) == Diverged(n) <==>
      Agree(expected, actual, n) && n < |actual| && if n < |expected| then actual[n].hash != expected[n].hash else n == 0
    ensures forall n: nat :: Judge(expected, actual) == Short(n) <==>
      n == |actual| < |expected| && Agree(expected, actual, n)
  {
    var k := FirstMismatch(expected, actual);
    assert Agree(expected, actual, k);
    hide FirstMismatch;
    forall n: nat | Agree(expected, actual, n)
      ensures n <= k
      ensures n < k && n < |expected| && n < |actual| ==> actual[n].hash == expected[n].hash
    {
    }
  }

  /** The first position at which the hashes differ, or the end of the shorter chain. */
  function FirstMismatch(expected: seq<ChainEvent>, actual: seq<ChainEvent>): (k: nat)
    ensures k <= |expected| && k <= |actual|
    ensures forall i :: 0 <= i < k ==> actual[i].hash == expected[i].hash
    ensures k < |expected| && k < |actual| ==> actual[k].hash != expected[k].hash
  {
    if expected == [] || actual == [] || actual[0].hash != expected[0].hash then 0
    else 1 + FirstMismatch(expected[1..], actual[1..])
  }

  lemma FirstMismatchIs(expected: seq<ChainEvent>, actual: seq<ChainEvent>, k: nat)
    requires k <= |expected| && k <= |actual|
    requires forall i :: 0 <= i < k ==> actual[i].hash == expected[i].hash
    requires k == |expected| || k == |actual| || actual[k].hash != expected[k].hash
    ensures FirstMismatch(expected, actual) == k
  {
  }

  function Judge(expected: seq<ChainEvent>, actual: seq<ChainEvent>): (v: Verdict) {
    var k := FirstMismatch(expected, actual);
    if k == |expected| && (k > 0 || actual == []) then Complete
    else if k < |actual| then Diverged(k)
    else Short(k)
  }

  /** The replay matches the recording up to a stop from outside at `n`, and is judged diverged
      there, unless the two texts at `n` are a SHA-1 collision. */
  predicate DivergesAt(w: World, expected: seq<ChainEvent>, actual: seq<ChainEvent>, n: nat) {
    && n < |expected| && n < |actual| && expected[..n] == actual[..n]
    && IsStop(expected[n]) && !AfterTrap(w.codec, expected, n)
    && (|| Judge(expected, actual) == Diverged(n)
        || Collision(w.sha, HashedText(actual[n]), HashedText(expected[n])))
  }

  lemma JudgedComplete(expected: seq<ChainEvent>, actual: seq<ChainEvent>)
    requires expected <= actual && (expected == [] ==> actual == [])
    ensures Judge(expected, actual) == Complete
  {
    FirstMismatchIs(expected, actual, |expected|);
  }

  lemma JudgedDiverged(w: World, expected: seq<ChainEvent>, actual: seq<ChainEvent>, n: nat)
    requires n < |expected| && n < |actual| && expected[..n] == actual[..n]
    requires IsStop(expected[n]) && !IsStop(actual[n]) && !AfterTrap(w.codec, expected, n)
    requires expected[n].hash == w.sha(HashedText(expected[n])) && actual[n].hash == w.sha(HashedText(actual[n]))
    ensures DivergesAt(w, expected, actual, n)
  {
    hide Serialize, Utf8, ErrorIn;
    if HashedText(actual[n]) == HashedText(expected[n]) {
      SerializeInjective(actual[n].parent, actual[n].eventType, actual[n].data,
                         expected[n].parent, expected[n].eventType, expected[n].data);
    }
    if actual[n].hash != expected[n].hash {
      assert forall i :: 0 <= i < n ==> expected[..n][i] == expected[i] && actual[..n][i] == actual[i];
      FirstMismatchIs(expected, actual, n);
    }
  }

  /** The replay of a chain: the calls recorded in it, started on the same state. */
  function Replayed(w: World, state: Value, chain: seq<ChainEvent>, hosts: seq<Value>): (m: Machine) {
    Run(w, Replaying(chain), Start(state, RecordedCalls(w.codec, chain)), Works(hosts))
  }

  /** Any recording, stopped or cut off anywhere, replayed from its initial state for at least as many steps as it has
      events while nobody stops the replay: it reproduces every event of the recording, in
      type, data, parent and hash, if every stop in the recording follows a trap; otherwise it
      reproduces the events before the first stop that does not, and diverges there. */
  lemma ReplayExactly(w: World, state: Value, calls: seq<(string, Value)>, inputs: seq<Input>, hosts': seq<Value>)
    requires Lossless(w.codec)
    requires |hosts'| >= |Run(w, Recording, Start(state, calls), inputs).chain|
    ensures var chain := Run(w, Recording, Start(state, calls), inputs).chain;
      var actual := Replayed(w, state, chain, hosts').chain;
      if Replayable(w.codec, chain) then chain <= actual && Judge(chain, actual) == Complete
      else exists n: nat :: DivergesAt(w, chain, actual, n)
  {
    hide Run, Step, Judge, Replayable, DivergesAt, Outside, RecordedCalls, Undisturbed, IsStop, ErrorIn;
    var m0 := Start(state, calls);
    var eff := Effective(w, m0, inputs);
    var chain := Run(w, Recording, m0, eff).chain;
    var n := FirstOutside(w, m0, eff);
    if n == |eff| {
      AllUndisturbed(w, state, calls, eff);
      Reproduced(w, state, calls, eff, hosts');
    } else {
      OutsideByChain(w, state, calls, eff, n);
      NotReplayable(w.codec, chain, n);
      DivergesThere(w, state, calls, eff, hosts', n);
    }
  }

  lemma NotReplayable(codec: Codec, chain: seq<ChainEvent>, n: nat)
    requires n < |chain| && IsStop(chain[n]) && !AfterTrap(codec, chain, n)
    ensures !Replayable(codec, chain)
  {
  }

  lemma AllUndisturbed(w: World, state: Value, calls: seq<(string, Value)>, eff: seq<Input>)
    requires Lossless(w.codec) && |Run(w, Recording, Start(state, calls), eff).chain| == |eff|
    ensures Undisturbed(w, Start(state, calls), eff, |eff|) <==>
            Replayable(w.codec, Run(w, Recording, Start(state, calls), eff).chain)
  {
    hide Run, Outside, IsStop, AfterTrap;
    forall k | 0 <= k < |eff|
      ensures var chain := Run(w, Recording, Start(state, calls), eff).chain;
        Outside(Run(w, Recording, Start(state, calls), eff[..k]), eff[k]) <==>
        IsStop(chain[k]) && !AfterTrap(w.codec, chain, k)
    {
      OutsideByChain(w, state, calls, eff, k);
    }
  }

  /** The replay at the end of an undisturbed recording, and from there on. */
  lemma Reproduced(w: World, state: Value, calls: seq<(string, Value)>, eff: seq<Input>, hosts': seq<Value>)
    requires Lossless(w.codec) && |hosts'| >= |eff|
    requires |Run(w, Recording, Start(state, calls), eff).chain| == |eff|
    requires Undisturbed(w, Start(state, calls), eff, |eff|)
    ensures var rec := Run(w, Recording, Start(state, calls), eff);
      var n := |eff|;
      && Mirrors(w, rec.chain, rec, Replayed(w, state, rec.chain, hosts'[..n]))
      && rec.chain <= Replayed(w, state, rec.chain, hosts').chain
      && Judge(rec.chain, Replayed(w, state, rec.chain, hosts').chain) == Complete
  {
    hide Run, Step, Judge, Outside, RecordedCalls, HostCallIn, Undisturbed;
    var rec := Run(w, Recording, Start(state, calls), eff);
    var n := |eff|;
    ReplayMirrors(w, state, calls, eff, hosts'[..n], rec.chain);
    var rep0 := Start(state, RecordedCalls(w.codec, rec.chain));
    assert Works(hosts')[..n] == Works(hosts'[..n]);
    ChainOnlyGrows(w, Replaying(rec.chain), rep0, Works(hosts'), n);
    if n == 0 {
      assert hosts'[..0] == [] && rec.chain[0..] == [];
      NoCalls(w.codec, rec.chain);
      NoInputs(w, Replaying(rec.chain), rep0);
      assert Works(hosts')[..0] == [];
      DoneStays(w, Replaying(rec.chain), rep0, hosts', 0);
    }
    JudgedComplete(rec.chain, Replayed(w, state, rec.chain, hosts').chain);
  }

  lemma NoCalls(codec: Codec, events: seq<ChainEvent>)
    requires events == []
    ensures RecordedCalls(codec, events) == []
  {
  }

  lemma {:induction false} DoneStays(w: World, mode: Mode, m: Machine, hosts: seq<Value>, n: nat)
    requires n <= |hosts| && Done(Run(w, mode, m, Works(hosts)[..n]))
    ensures Run(w, mode, m, Works(hosts)) == Run(w, mode, m, Works(hosts)[..n])
  {
    hide Step, Done;
    if n < |hosts| {
      var init := hosts[..|hosts| - 1];
      assert Works(init) == Works(hosts)[..|hosts| - 1] && Works(init)[..n] == Works(hosts)[..n];
      DoneStays(w, mode, m, init, n);
      WorkIsDone(w, mode, Run(w, mode, m, Works(init)), hosts[|hosts| - 1]);
    } else {
      assert Works(hosts)[..n] == Works(hosts);
    }
  }

  lemma DivergesThere(w: World, state: Value, calls: seq<(string, Value)>, eff: seq<Input>, hosts': seq<Value>, n: nat)
    requires Lossless(w.codec) && n < |eff| <= |hosts'|
    requires |Run(w, Recording, Start(state, calls), eff).chain| == |eff|
    requires Undisturbed(w, Start(state, calls), eff, n)
    requires Outside(Run(w, Recording, Start(state, calls), eff[..n]), eff[n])
    ensures var chain := Run(w, Recording, Start(state, calls), eff).chain;
      DivergesAt(w, chain, Replayed(w, state, chain, hosts').chain, n)
  {
    hide Run, Step, Judge, RecordedCalls, IsStop, ErrorIn, HashedText, DivergesAt, HostCallIn, WasmCallIn;
    var m0 := Start(state, calls);
    var chain := Run(w, Recording, m0, eff).chain;
    var rec := Run(w, Recording, m0, eff[..n]);
    FullPrefix(w, m0, eff, n);
    assert forall k :: 0 <= k < n ==> eff[..n][..k] == eff[..k];
    ReplayMirrors(w, state, calls, eff[..n], hosts'[..n], chain);
    OutsideByChain(w, state, calls, eff, n);
    StopIsCall(w, state, calls, eff, n);
    var rep0 := Start(state, RecordedCalls(w.codec, chain));
    var rep := Run(w, Replaying(chain), rep0, Works(hosts'[..n]));
    assert Works(hosts')[..n + 1] == Works(hosts'[..n]) + [Work(hosts'[n])];
    RunSnoc(w, Replaying(chain), rep0, Works(hosts'[..n]), Work(hosts'[n]));
    WorkIsDone(w, Replaying(chain), rep, hosts'[n]);
    StepAppends(w, Replaying(chain), rep, Work(hosts'[n]));
    StepAppendsAtMostOne(w, Replaying(chain), rep, Work(hosts'[n]));
    ChainOnlyGrows(w, Replaying(chain), rep0, Works(hosts'), n + 1);
    var actual := Replayed(w, state, chain, hosts').chain;
    assert actual[..n] == rec.chain == chain[..n];
    JudgedDiverged(w, chain, actual, n);
  }

  /** What a stop from outside records reads as one more guest call. */
  lemma StopIsCall(w: World, state: Value, calls: seq<(string, Value)>, eff: seq<Input>, n: nat)
    requires Lossless(w.codec) && n < |eff|
    requires |Run(w, Recording, Start(state, calls), eff).chain| == |eff|
    requires Outside(Run(w, Recording, Start(state, calls), eff[..n]), eff[n])
    ensures var chain := Run(w, Recording, Start(state, calls), eff).chain;
      && RecordedCalls(w.codec, chain[n..]) != []
      && chain[n].hash == w.sha(HashedText(chain[n]))
  {
    hide Run, RecordedCalls, IsStop, ErrorIn, HashedText, HostCallIn, WasmCallIn, Append, Serve;
    var m0 := Start(state, calls);
    var chain := Run(w, Recording, m0, eff).chain;
    var rec := Run(w, Recording, m0, eff[..n]);
    FullPrefix(w, m0, eff, n);
    FullPrefix(w, m0, eff, n + 1);
    assert eff[..n + 1] == eff[..n] + [eff[n]];
    RunSnoc(w, Recording, m0, eff[..n], eff[n]);
    StepAppends(w, Recording, rec, eff[n]);
    AppendKeeps(w, rec.chain);
    AppendedReadsBack(w, rec.chain, "shutdown", STOP);
    assert chain[n] == Append(w.sha, w.codec, rec.chain, "shutdown", STOP)[n];
    RestOfCalls(w.codec, chain, n);
  }

  /** A recording that was not cut off within a call, nor between a trap and its stop, is
      reproduced to the point: the replay ends with it, in the same state. */
  lemma FinishedReplay(w: World, state: Value, calls: seq<(string, Value)>, inputs: seq<Input>, hosts': seq<Value>)
    requires Lossless(w.codec)
    requires var rec := Run(w, Recording, Start(state, calls), inputs);
      && |hosts'| >= |rec.chain| && Replayable(w.codec, rec.chain)
      && (rec.phase == Idle || (rec.phase == Trapped && rec.stopped))
    ensures var rec := Run(w, Recording, Start(state, calls), inputs);
      var rep := Replayed(w, state, rec.chain, hosts');
      && rep.chain == rec.chain && rep.state == rec.state && rep.phase == rec.phase
      && Done(rep)
  {
    hide Run, Step, Judge, Replayable, RecordedCalls, HostCallIn, Undisturbed;
    var m0 := Start(state, calls);
    var eff := Effective(w, m0, inputs);
    var rec := Run(w, Recording, m0, eff);
    var n := |eff|;
    AllUndisturbed(w, state, calls, eff);
    Reproduced(w, state, calls, eff, hosts');
    assert rec.chain[n..] == [];
    NoCalls(w.codec, rec.chain[n..]);
    assert Works(hosts')[..n] == Works(hosts'[..n]);
    DoneStays(w, Replaying(rec.chain), Start(state, RecordedCalls(w.codec, rec.chain)), hosts', n);
  }

  // ----- What the replay handler reports -----

  /** How a repeated call ends for the handler: it returns, it fails, or the shutdown signal is
      noticed first. */
  datatype CallOutcome = Returned | Failed | Interrupted

  /** The handler makes the calls one by one. `noticed[i]` says that a divergence has been
      reported by the time call `i` is due. It reports success exactly when all calls returned
      and the verification is complete, or when it is interrupted before anything failed. */
  method ReportReplay(outcomes: seq<CallOutcome>, noticed: seq<bool>, verdict: Verdict) returns (ok: bool)
    requires |noticed| == |outcomes|
    requires forall i :: 0 <= i < |noticed| && noticed[i] ==> verdict.Diverged?
    ensures ok <==>
      || ((forall i :: 0 <= i < |outcomes| ==> outcomes[i] == Returned) && verdict == Complete)
      || exists k :: && 0 <= k < |outcomes| && outcomes[k] == Interrupted
                     && (forall i :: 0 <= i < k ==> outcomes[i] == Returned)
                     && (forall i :: 0 <= i <= k ==> !noticed[i])
  {
    for i := 0 to |outcomes|
      invariant forall k :: 0 <= k < i ==> outcomes[k] == Returned && !noticed[k]
    {
      if noticed[i] {
        return false;
      }
      match outcomes[i] {
        case Returned =>
        case Interrupted => return true;
        case Failed => return false;
      }
    }
    return verdict == Complete;
  }

  /** The outcomes of the calls of a replay that is over and was not interrupted: only the
      last call made can have failed. */
  function OutcomesOf(total: nat, rep: Machine): (outcomes: seq<CallOutcome>)
    requires Done(rep) && |rep.calls| < total + (if rep.phase == Idle then 1 else 0)
  {
    if rep.phase == Idle then seq(total, _ => Returned)
    else seq(total - |rep.calls| - 1, _ => Returned) + [Failed]
  }

  /** No more calls are made than recorded, and a call that trapped was made. */
  lemma {:induction false} CallsLeft(w: World, mode: Mode, m: Machine, inputs: seq<Input>)
    requires m.phase == Idle
    ensures var m' := Run(w, mode, m, inputs);
      |m'.calls| <= |m.calls| && (m'.phase != Idle ==> |m'.calls| < |m.calls|)
  {
    if inputs != [] {
      CallsLeft(w, mode, m, inputs[..|inputs| - 1]);
      hide Append, BeforeImport;
      var before := Run(w, mode, m, inputs[..|inputs| - 1]);
    }
  }

  /** The report on a replay that is over. */
  predicate Succeeds(expected: seq<ChainEvent>, outcomes: seq<CallOutcome>, actual: seq<ChainEvent>) {
    (forall i :: 0 <= i < |outcomes| ==> outcomes[i] == Returned) && Judge(expected, actual) == Complete
  }

  /** A replay that runs to its end without interruption is reported successful if and only if
      no call of it trapped and no stop from outside was recorded, up to a SHA-1 collision at
      such a stop. */
  lemma ReportExactly(w: World, state: Value, calls: seq<(string, Value)>, inputs: seq<Input>, hosts': seq<Value>)
    requires Lossless(w.codec)
    requires var chain := Run(w, Recording, Start(state, calls), inputs).chain;
      |hosts'| >= |chain| && Done(Replayed(w, state, chain, hosts'))
    ensures var chain := Run(w, Recording, Start(state, calls), inputs).chain;
      var rep := Replayed(w, state, chain, hosts');
      var total := |RecordedCalls(w.codec, chain)|;
      && |rep.calls| < total + (if rep.phase == Idle then 1 else 0)
      && (Replayable(w.codec, chain) ==>
            (Succeeds(chain, OutcomesOf(total, rep), rep.chain) <==> rep.phase == Idle))
      && (!Replayable(w.codec, chain) ==>
            || !Succeeds(chain, OutcomesOf(total, rep), rep.chain)
            || exists n: nat :: && n < |chain| && n < |rep.chain| && IsStop(chain[n]) && !AfterTrap(w.codec, chain, n)
                                && Collision(w.sha, HashedText(rep.chain[n]), HashedText(chain[n])))
  {
    hide Run, Step, Judge, Replayable, RecordedCalls, IsStop, ErrorIn, HashedText, Collision;
    ReplayExactly(w, state, calls, inputs, hosts');
    var chain := Run(w, Recording, Start(state, calls), inputs).chain;
    var rep0 := Start(state, RecordedCalls(w.codec, chain));
    CallsLeft(w, Replaying(chain), rep0, Works(hosts'));
    var rep := Replayed(w, state, chain, hosts');
    var total := |RecordedCalls(w.codec, chain)|;
    var outcomes := OutcomesOf(total, rep);
    if rep.phase != Idle {
      assert outcomes[|outcomes| - 1] == Failed;
    }
    if !Replayable(w.codec, chain) {
      var n: nat :| DivergesAt(w, chain, rep.chain, n);
    }
  }

  /** For a recording that is over, the same can be told from the recording: it is reported
      successful if and only if it ended idle and without a stop from outside. */
  lemma FinishedReport(w: World, state: Value, calls: seq<(string, Value)>, inputs: seq<Input>, hosts': seq<Value>)
    requires Lossless(w.codec)
    requires var rec := Run(w, Recording, Start(state, calls), inputs);
      && |hosts'| >= |rec.chain| && Replayable(w.codec, rec.chain)
      && (rec.phase == Idle || (rec.phase == Trapped && rec.stopped))
    ensures var rec := Run(w, Recording, Start(state, calls), inputs);
      var rep := Replayed(w, state, rec.chain, hosts');
      var total := |RecordedCalls(w.codec, rec.chain)|;
      && Done(rep) && |rep.calls| < total + (if rep.phase == Idle then 1 else 0)
      && (Succeeds(rec.chain, OutcomesOf(total, rep), rep.chain) <==> rec.phase == Idle)
  {
    hide Run, Step, Judge, Replayable, RecordedCalls, Succeeds, OutcomesOf, IsStop;
    FinishedReplay(w, state, calls, inputs, hosts');
    ReportExactly(w, state, calls, inputs, hosts');
  }

  /** The smallest failing case: an actor stopped before its first call. */
  lemma StoppedAtOnce(w: World, state: Value, host: Value)
    requires Lossless(w.codec)
    ensures var chain := Run(w, Recording, Start(state, []), [StopRequest]).chain;
      && |chain| == 1 && !Replayable(w.codec, chain)
      && DivergesAt(w, chain, Replayed(w, state, chain, [host]).chain, 0)
  {
    hide Replayed, Judge, Append, ErrorIn, HashedText, Collision, Utf8;
    var m0 := Start(state, []);
    assert [StopRequest] == [] + [StopRequest];
    RunSnoc(w, Recording, m0, [], StopRequest);
    AppendKeeps(w, []);
    StepAppends(w, Recording, m0, StopRequest);
    var chain := Run(w, Recording, m0, [StopRequest]).chain;
    assert IsStop(chain[0]);
    ReplayExactly(w, state, [], [StopRequest], [host]);
  }

  // ----- A replay from another state -----

  /** One call that returns at once, made from either state, in either mode. */
  lemma OneCall(w: World, mode: Mode, state: Value, name: string, params: Value, response: Value, hosts: seq<Value>)
    requires |hosts| == 2 && w.guest(state, name, params, []) == Return(state, response)
    ensures var first := Append(w.sha, w.codec, [], "wasm", Wasm(WasmCall(name, params)));
      Run(w, mode, Start(state, [(name, params)]), Works(hosts)).chain ==
      Append(w.sha, w.codec, first, "wasm", Wasm(WasmResult(name, state, response)))
  {
    hide Append;
    var m0 := Start(state, [(name, params)]);
    assert Works(hosts) == [Work(hosts[0])] + [Work(hosts[1])] && [Work(hosts[0])] == [] + [Work(hosts[0])];
    RunSnoc(w, mode, m0, [], Work(hosts[0]));
    RunSnoc(w, mode, m0, [Work(hosts[0])], Work(hosts[1]));
    NoInputs(w, mode, m0);
  }

  /** The replay has to start from the state the recording started from: for a guest that hands
      its state back, a replay from any other state makes the same call and diverges at its
      result, unless the two texts there are a SHA-1 collision. */
  lemma OtherStateDiverges(w: World, state: Value, state': Value, name: string, params: Value, response: Value,
                           hosts: seq<Value>, hosts': seq<Value>)
    requires Lossless(w.codec) && state != state' && |hosts| == |hosts'| == 2
    requires w.guest(state, name, params, []) == Return(state, response)
    requires w.guest(state', name, params, []) == Return(state', response)
    ensures var chain := Run(w, Recording, Start(state, [(name, params)]), Works(hosts)).chain;
      var actual := Replayed(w, state', chain, hosts').chain;
      && |chain| == |actual| == 2 && actual[0] == chain[0]
      && (Judge(chain, actual) == Diverged(1) || Collision(w.sha, HashedText(actual[1]), HashedText(chain[1])))
  {
    var call := Wasm(WasmCall(name, params));
    var result, result' := Wasm(WasmResult(name, state, response)), Wasm(WasmResult(name, state', response));
    var first := Append(w.sha, w.codec, [], "wasm", call);
    var chain := Append(w.sha, w.codec, first, "wasm", result);
    var actual := Append(w.sha, w.codec, first, "wasm", result');
    hide Judge, Run, PayloadValue, Utf8, Serialize, RecordedCalls, WasmCallIn, HostCallIn, ErrorIn;
    OneCall(w, Recording, state, name, params, response, hosts);
    OneCall(w, Replaying(chain), state', name, params, response, hosts');
    AppendedReadsBack(w, [], "wasm", call);
    AppendedReadsBack(w, first, "wasm", result);
    OnlyCall(w.codec, chain, name, params);
    ResultsDiffer(w.codec, name, response, state, state');
    DifferThere(w, chain, actual);
  }

  lemma OnlyCall(codec: Codec, chain: seq<ChainEvent>, name: string, params: Value)
    requires |chain| == 2 && WasmCallIn(codec, chain[0]) == Some((name, params)) && WasmCallIn(codec, chain[1]).None?
    ensures RecordedCalls(codec, chain) == [(name, params)]
  {
    hide WasmCallIn, RecordedCalls;
    RestOfCalls(codec, chain, 0);
    RestOfCalls(codec, chain, 1);
    assert chain[0..] == chain;
    NoCalls(codec, chain[2..]);
  }

  lemma ResultsDiffer(codec: Codec, name: string, response: Value, state: Value, state': Value)
    requires Lossless(codec) && state != state'
    ensures codec.enc(PayloadValue(Wasm(WasmResult(name, state, response))))
         != codec.enc(PayloadValue(Wasm(WasmResult(name, state', response))))
  {
    var v := PayloadValue(Wasm(WasmResult(name, state, response)));
    var v' := PayloadValue(Wasm(WasmResult(name, state', response)));
    assert v.payload[0].payload[0].fields[1] == ("state", state);
    assert v'.payload[0].payload[0].fields[1] == ("state", state');
    assert codec.dec(codec.enc(v)) == Some(v) && codec.dec(codec.enc(v')) == Some(v');
  }

  lemma DifferThere(w: World, chain: seq<ChainEvent>, actual: seq<ChainEvent>)
    requires |chain| == |actual| == 2 && chain[0] == actual[0] && chain[1].data != actual[1].data
    requires chain[1].hash == w.sha(HashedText(chain[1])) && actual[1].hash == w.sha(HashedText(actual[1]))
    ensures Judge(chain, actual) == Diverged(1) || Collision(w.sha, HashedText(actual[1]), HashedText(chain[1]))
  {
    hide Serialize;
    if HashedText(actual[1]) == HashedText(chain[1]) {
      SerializeInjective(actual[1].parent, actual[1].eventType, actual[1].data,
                         chain[1].parent, chain[1].eventType, chain[1].data);
    }
    if actual[1].hash != chain[1].hash {
      FirstMismatchIs(chain, actual, 1);
    }
  }

  /** One step of a replay is a step of a recording whose host gives the answer used. */
  lemma StepAsRecording(w: World, expected: seq<ChainEvent>, rep: Machine, rec: Machine, host: Value) returns (input: Input)
    requires rec == rep.(cursor := rec.cursor)
    ensures var rec', rep' := Step(w, Recording, rec, input), Step(w, Replaying(expected), rep, Work(host));
      rec' == rep'.(cursor := rec'.cursor)
  {
    hide Append, Lookup;
    input := Work(host);
    if rep.phase.Running? {
      var act := w.guest(rep.state, rep.phase.name, rep.phase.params, rep.phase.outputs);
      if act.Import? {
        var (answer, _) := BeforeImport(w.codec, Replaying(expected), rep.cursor, act.interface, act.function_);
        if answer.Some? {
          input := Work(answer.value);
        }
      }
    }
  }

  /** A replay, of whatever chain, is a possible recording. */
  lemma {:induction false} AsRecording(w: World, expected: seq<ChainEvent>, m: Machine, hosts: seq<Value>)
    returns (inputs: seq<Input>)
    ensures var rec, rep := Run(w, Recording, m, inputs), Run(w, Replaying(expected), m, Works(hosts));
      rec == rep.(cursor := rec.cursor)
  {
    hide Step;
    if hosts == [] {
      inputs := [];
    } else {
      var n := |hosts| - 1;
      var init := AsRecording(w, expected, m, hosts[..n]);
      assert Works(hosts)[..n] == Works(hosts[..n]);
      var rep, rec := Run(w, Replaying(expected), m, Works(hosts[..n])), Run(w, Recording, m, init);
      var input := StepAsRecording(w, expected, rep, rec, hosts[n]);
      inputs := init + [input];
      RunSnoc(w, Recording, m, init, input);
    }
  }

  /** The chain could have been recorded from `state`. */
  ghost predicate Recordable(w: World, state: Value, chain: seq<ChainEvent>) {
    exists calls, inputs :: Run(w, Recording, Start(state, calls), inputs).chain == chain
  }

  /** From which states a chain replays, whether or not it was recorded from them: if every stop
      in it follows a trap, a replay from `state` reproduces it if and only if it could have been
      recorded from `state`. */
  lemma ReproducedFromExactly(w: World, state: Value, chain: seq<ChainEvent>, hosts: seq<Value>)
    requires Lossless(w.codec) && Replayable(w.codec, chain) && |hosts| >= |chain|
    ensures chain <= Replayed(w, state, chain, hosts).chain <==> Recordable(w, state, chain)
  {
    hide Run, Step, Judge, Replayable, DivergesAt, RecordedCalls;
    if calls, inputs :| Run(w, Recording, Start(state, calls), inputs).chain == chain {
      ReplayExactly(w, state, calls, inputs, hosts);
    }
    if chain <= Replayed(w, state, chain, hosts).chain {
      var calls := RecordedCalls(w.codec, chain);
      var m := Start(state, calls);
      var inputs := AsRecording(w, chain, m, hosts);
      var eff := Effective(w, m, inputs);
      FullPrefix(w, m, eff, |chain|);
      assert Run(w, Recording, Start(state, calls), eff[..|chain|]).chain == chain;
    }
  }

  // ----- What a chain says about the guest -----

  /** A call under way: what was called, and the outputs of its imports so far. */
  datatype Open = Open(name: string, params: Value, outputs: seq<Value>)

  /** Read off a chain: the state the next call runs on, and the call under way. */
  datatype Account = Account(state: Value, call: Option<Open>)

  /** A call opens with its event, an import adds its output, a result closes the call and
      brings the new state, a failure closes it. A stop is none of these. */
  function AccountOf(codec: Codec, state: Value, chain: seq<ChainEvent>): (a: Account) {
    if chain == [] then Account(state, None)
    else
      var a, e := AccountOf(codec, state, chain[..|chain| - 1]), chain[|chain| - 1];
      if IsStop(e) then a
      else if WasmCallIn(codec, e).Some? then
        a.(call := Some(Open(WasmCallIn(codec, e).value.0, WasmCallIn(codec, e).value.1, [])))
      else if ResultIn(codec, e).Some? then Account(ResultIn(codec, e).value.1, None)
      else if FailureIn(codec, e).Some? then a.(call := None)
      else if HostCallIn(codec, e).Some? && a.call.Some? then
        a.(call := Some(a.call.value.(outputs := a.call.value.outputs + [HostCallIn(codec, e).value.output])))
      else a
  }

  /** The state is that of the last result, or the initial one. */
  lemma {:induction false} StateIsLastResult(codec: Codec, state: Value, chain: seq<ChainEvent>)
    ensures var now := AccountOf(codec, state, chain).state;
      || (now == state && forall i :: 0 <= i < |chain| ==> !Yields(codec, chain[i]))
      || (exists k: nat :: && k < |chain| && Yields(codec, chain[k]) && ResultIn(codec, chain[k]).Some?
                           && now == ResultIn(codec, chain[k]).value.1
                           && forall i :: k < i < |chain| ==> !Yields(codec, chain[i]))
  {
    hide AccountOf, Yields, ResultIn;
    if chain == [] {
      AccountStart(codec, state);
    } else {
      var n := |chain| - 1;
      var before := chain[..n];
      StateIsLastResult(codec, state, before);
      StateMoves(codec, state, chain);
      if Yields(codec, chain[n]) {
        assert n < |chain|;
      } else if k: nat :| && k < n && Yields(codec, before[k]) && ResultIn(codec, before[k]).Some?
                          && AccountOf(codec, state, before).state == ResultIn(codec, before[k]).value.1
                          && forall i :: k < i < n ==> !Yields(codec, before[i]) {
        assert Yields(codec, chain[k]);
        assert forall i :: k < i < n ==> chain[i] == before[i];
      } else {
        assert forall i :: 0 <= i < n ==> chain[i] == before[i];
      }
    }
  }

  lemma AccountStart(codec: Codec, state: Value)
    ensures AccountOf(codec, state, []) == Account(state, None)
  {
  }

  lemma StateMoves(codec: Codec, state: Value, chain: seq<ChainEvent>)
    requires chain != []
    ensures var e := chain[|chain| - 1];
            && (Yields(codec, e) ==> ResultIn(codec, e).Some?)
            && AccountOf(codec, state, chain).state ==
                 if Yields(codec, e) then ResultIn(codec, e).value.1
                 else AccountOf(codec, state, chain[..|chain| - 1]).state
  {
    hide WasmCallIn, ResultIn, FailureIn, HostCallIn, IsStop;
  }

  /** The event is the result of a call. */
  predicate Yields(codec: Codec, e: ChainEvent) {
    !IsStop(e) && WasmCallIn(codec, e).None? && ResultIn(codec, e).Some?
  }

  /** Event `e` is what may come after the account `a`: a stop, the start of a call if none is
      under way, and otherwise what the guest does next in the call under way, on the state of
      the account and with the outputs recorded since. */
  predicate Follows(w: World, a: Account, e: ChainEvent) {
    || IsStop(e)
    || match a.call
       case None => WasmCallIn(w.codec, e).Some? && e.eventType == Utf8("wasm")
       case Some(call) =>
         match w.guest(a.state, call.name, call.params, call.outputs)
         case Import(interface, function_, input) =>
           var host := HostCallIn(w.codec, e);
           && host.Some? && host.value.(output := input) == HostCall(interface, function_, input, input)
           && e.eventType == Utf8(interface + "/" + function_)
         case Return(state, response) =>
           ResultIn(w.codec, e) == Some((call.name, state, response)) && e.eventType == Utf8("wasm")
         case Trap(message) =>
           FailureIn(w.codec, e) == Some((call.name, message)) && e.eventType == Utf8("wasm")
  }

  /** The machine is where its chain says. */
  ghost predicate Accounted(w: World, state: Value, m: Machine) {
    && AccountOf(w.codec, state, m.chain) ==
         Account(m.state, match m.phase
                          case Running(name, params, outputs) => Some(Open(name, params, outputs))
                          case _ => None)
    && forall k :: 0 <= k < |m.chain| ==> Follows(w, AccountOf(w.codec, state, m.chain[..k]), m.chain[k])
  }

  lemma AccountSnoc(codec: Codec, state: Value, chain: seq<ChainEvent>, longer: seq<ChainEvent>)
    requires |longer| == |chain| + 1 && longer[..|chain|] == chain
    ensures var a, e := AccountOf(codec, state, chain), longer[|chain|];
      AccountOf(codec, state, longer) ==
        if IsStop(e) then a
        else if WasmCallIn(codec, e).Some? then
          a.(call := Some(Open(WasmCallIn(codec, e).value.0, WasmCallIn(codec, e).value.1, [])))
        else if ResultIn(codec, e).Some? then Account(ResultIn(codec, e).value.1, None)
        else if FailureIn(codec, e).Some? then a.(call := None)
        else if HostCallIn(codec, e).Some? && a.call.Some? then
          a.(call := Some(a.call.value.(outputs := a.call.value.outputs + [HostCallIn(codec, e).value.output])))
        else a
  {
  }

  /** It is enough to look at the new event. */
  lemma AccountedStep(w: World, state: Value, m: Machine, m': Machine)
    requires Accounted(w, state, m) && |m'.chain| == |m.chain| + 1 && m'.chain[..|m.chain|] == m.chain
    requires Follows(w, AccountOf(w.codec, state, m.chain), m'.chain[|m.chain|])
    requires AccountOf(w.codec, state, m'.chain) ==
      Account(m'.state, match m'.phase
                        case Running(name, params, outputs) => Some(Open(name, params, outputs))
                        case _ => None)
    ensures Accounted(w, state, m')
  {
    hide Follows, AccountOf;
    forall k | 0 <= k < |m'.chain|
      ensures Follows(w, AccountOf(w.codec, state, m'.chain[..k]), m'.chain[k])
    {
      if k < |m.chain| {
        assert m'.chain[..k] == m.chain[..k] && m'.chain[k] == m.chain[k];
      }
    }
  }

  lemma StopAccounted(w: World, state: Value, m: Machine)
    requires Lossless(w.codec) && Accounted(w, state, m)
    ensures Accounted(w, state, Stop(w, m))
  {
    hide Append, AccountOf, WasmCallIn, ResultIn, FailureIn, HostCallIn, Utf8;
    if !m.stopped {
      var m' := Stop(w, m);
      AppendKeeps(w, m.chain);
      AppendedReadsBack(w, m.chain, "shutdown", STOP);
      AccountSnoc(w.codec, state, m.chain, m'.chain);
      AccountedStep(w, state, m, m');
    }
  }

  lemma ServeAccounted(w: World, mode: Mode, state: Value, m: Machine, host: Value)
    requires Lossless(w.codec) && Accounted(w, state, m) && m.phase != Trapped
    ensures Accounted(w, state, Serve(w, mode, m, host))
  {
    hide Append, AccountOf, WasmCallIn, ResultIn, FailureIn, HostCallIn, ErrorIn, BeforeImport, Utf8;
    var m' := Serve(w, mode, m, host);
    AppendKeeps(w, m.chain);
    WasmIsNotStop();
    if m.phase == Idle {
      if m.calls != [] {
        AppendedReadsBack(w, m.chain, "wasm", Wasm(WasmCall(m.calls[0].0, m.calls[0].1)));
        AccountSnoc(w.codec, state, m.chain, m'.chain);
        AccountedStep(w, state, m, m');
      }
    } else {
      var name := m.phase.name;
      match w.guest(m.state, name, m.phase.params, m.phase.outputs) {
        case Import(interface, function_, input) =>
          var (answer, _) := BeforeImport(w.codec, mode, m.cursor, interface, function_);
          var output := if answer.Some? then answer.value else host;
          ImportIsNotStop(interface, function_);
          AppendedReadsBack(w, m.chain, interface + "/" + function_,
                            HostFunction(HostCall(interface, function_, input, output)));
        case Return(state', response) =>
          AppendedReadsBack(w, m.chain, "wasm", Wasm(WasmResult(name, state', response)));
        case Trap(message) =>
          AppendedReadsBack(w, m.chain, "wasm", Wasm(WasmError(name, message)));
      }
      AccountSnoc(w.codec, state, m.chain, m'.chain);
      AccountedStep(w, state, m, m');
    }
  }

  /** After any run, recording or replaying: the machine's state is that of the last result in
      its chain, it is in the call the chain says, and every recorded call, import, result and
      failure is what the guest does from the state and with the outputs recorded before it. */
  lemma {:induction false} ChainIsTheGuests(w: World, mode: Mode, state: Value, calls: seq<(string, Value)>, inputs: seq<Input>)
    requires Lossless(w.codec)
    ensures Accounted(w, state, Run(w, mode, Start(state, calls), inputs))
  {
    hide Serve, Stop, Accounted;
    var m0 := Start(state, calls);
    if inputs == [] {
      StartAccounted(w, state, calls);
    } else {
      var before, input := Run(w, mode, m0, inputs[..|inputs| - 1]), inputs[|inputs| - 1];
      ChainIsTheGuests(w, mode, state, calls, inputs[..|inputs| - 1]);
      if input == StopRequest || before.phase == Trapped {
        StopAccounted(w, state, before);
      } else {
        ServeAccounted(w, mode, state, before, input.host);
      }
    }
  }

  lemma StartAccounted(w: World, state: Value, calls: seq<(string, Value)>)
    ensures Accounted(w, state, Start(state, calls))
  {
  }

  /** The calls that were started, in order, as the chain has them. */
  function StartedCalls(codec: Codec, chain: seq<ChainEvent>): (calls: seq<(string, Value)>) {
    if chain == [] then []
    else
      var e := chain[|chain| - 1];
      StartedCalls(codec, chain[..|chain| - 1]) +
      if !IsStop(e) && WasmCallIn(codec, e).Some? then [WasmCallIn(codec, e).value] else []
  }

  /** A failure is the last thing an actor records, except for its stop; there is one stop. */
  ghost predicate EndsOk(codec: Codec, m: Machine) {
    && (m.stopped <==> exists i :: 0 <= i < |m.chain| && IsStop(m.chain[i]))
    && (forall i, j :: 0 <= i < j < |m.chain| && IsStop(m.chain[i]) ==> !IsStop(m.chain[j]))
    && (forall i, j :: 0 <= i < j < |m.chain| && Fails(codec, m.chain[i]) ==> IsStop(m.chain[j]))
    && (forall i :: 0 <= i < |m.chain| && Fails(codec, m.chain[i]) ==> m.phase == Trapped)
  }

  predicate Fails(codec: Codec, e: ChainEvent) {
    !IsStop(e) && FailureIn(codec, e).Some?
  }

  /** The new event of a step: a stop, a call, or what a call under way does. */
  lemma StepRecords(w: World, mode: Mode, m: Machine, input: Input)
    requires Lossless(w.codec) && |Step(w, mode, m, input).chain| == |m.chain| + 1
    ensures var m' := Step(w, mode, m, input);
      var e := m'.chain[|m.chain|];
      && m'.chain[..|m.chain|] == m.chain
      && (if input == StopRequest || m.phase == Trapped
          then IsStop(e) && !m.stopped && m' == m.(stopped := true, chain := m'.chain)
          else !IsStop(e) && m'.stopped == m.stopped)
      && (!IsStop(e) && WasmCallIn(w.codec, e).Some? ==> m.calls != [] && m.calls == [WasmCallIn(w.codec, e).value] + m'.calls)
      && (IsStop(e) || WasmCallIn(w.codec, e).None? ==> m'.calls == m.calls)
      && (Fails(w.codec, e) ==> m'.phase == Trapped)
      && (mode == Recording && !IsStop(e) && HostCallIn(w.codec, e).Some? ==> input == Work(HostCallIn(w.codec, e).value.output))
  {
    hide Append, WasmCallIn, ResultIn, FailureIn, HostCallIn, ErrorIn, Lookup, Utf8;
    AppendKeeps(w, m.chain);
    WasmIsNotStop();
    if input == StopRequest || m.phase == Trapped {
      AppendedReadsBack(w, m.chain, "shutdown", STOP);
    } else if m.phase == Idle {
      AppendedReadsBack(w, m.chain, "wasm", Wasm(WasmCall(m.calls[0].0, m.calls[0].1)));
    } else {
      var name := m.phase.name;
      match w.guest(m.state, name, m.phase.params, m.phase.outputs) {
        case Import(interface, function_, i) =>
          var (answer, _) := BeforeImport(w.codec, mode, m.cursor, interface, function_);
          var output := if answer.Some? then answer.value else input.host;
          ImportIsNotStop(interface, function_);
          AppendedReadsBack(w, m.chain, interface + "/" + function_,
                            HostFunction(HostCall(interface, function_, i, output)));
        case Return(state', response) =>
          AppendedReadsBack(w, m.chain, "wasm", Wasm(WasmResult(name, state', response)));
        case Trap(message) =>
          AppendedReadsBack(w, m.chain, "wasm", Wasm(WasmError(name, message)));
      }
    }
  }

  /** After any run, in either mode: the calls in the chain are the given ones, in order, as far
      as they have been started; a failure is followed by the stop at most, and there is at most
      one stop. */
  lemma {:induction false} CallsAndEnds(w: World, mode: Mode, state: Value, calls: seq<(string, Value)>, inputs: seq<Input>)
    requires Lossless(w.codec)
    ensures var m := Run(w, mode, Start(state, calls), inputs);
      StartedCalls(w.codec, m.chain) + m.calls == calls && EndsOk(w.codec, m)
  {
    hide Step, WasmCallIn, FailureIn, IsStop;
    if inputs != [] {
      var m, input := Run(w, mode, Start(state, calls), inputs[..|inputs| - 1]), inputs[|inputs| - 1];
      CallsAndEnds(w, mode, state, calls, inputs[..|inputs| - 1]);
      StepAppendsAtMostOne(w, mode, m, input);
      if |Step(w, mode, m, input).chain| > |m.chain| {
        StepRecords(w, mode, m, input);
        hide Run;
        EndsStep(w.codec, m, Step(w, mode, m, input), input);
        CallsStep(w.codec, m, Step(w, mode, m, input), calls);
      }
    }
  }

  lemma CallsStep(codec: Codec, m: Machine, m': Machine, calls: seq<(string, Value)>)
    requires StartedCalls(codec, m.chain) + m.calls == calls
    requires |m'.chain| == |m.chain| + 1 && m'.chain[..|m.chain|] == m.chain
    requires var e := m'.chain[|m.chain|];
      if !IsStop(e) && WasmCallIn(codec, e).Some? then m.calls == [WasmCallIn(codec, e).value] + m'.calls
      else m'.calls == m.calls
    ensures StartedCalls(codec, m'.chain) + m'.calls == calls
  {
    hide WasmCallIn, IsStop;
  }

  lemma EndsStep(codec: Codec, m: Machine, m': Machine, input: Input)
    requires EndsOk(codec, m) && |m'.chain| == |m.chain| + 1 && m'.chain[..|m.chain|] == m.chain
    requires var e := m'.chain[|m.chain|];
      && (if input == StopRequest || m.phase == Trapped
          then IsStop(e) && !m.stopped && m' == m.(stopped := true, chain := m'.chain)
          else !IsStop(e) && m'.stopped == m.stopped)
      && (Fails(codec, e) ==> m'.phase == Trapped)
    ensures EndsOk(codec, m')
  {
    hide FailureIn, IsStop;
    assert forall i :: 0 <= i < |m.chain| ==> m'.chain[i] == m.chain[i];
    if m'.stopped && m.stopped {
      var i :| 0 <= i < |m.chain| && IsStop(m.chain[i]);
      assert IsStop(m'.chain[i]);
    }
  }

  /** The outputs in a recording are the host's answers: the event of an import carries what the
      host gave for it. */
  lemma HostsRecorded(w: World, state: Value, calls: seq<(string, Value)>, inputs: seq<Input>, k: nat)
    requires Lossless(w.codec) && k < |inputs|
    requires |Run(w, Recording, Start(state, calls), inputs).chain| == |inputs|
    ensures var e := Run(w, Recording, Start(state, calls), inputs).chain[k];
      !IsStop(e) && HostCallIn(w.codec, e).Some? ==> inputs[k] == Work(HostCallIn(w.codec, e).value.output)
  {
    hide Run, Step, IsStop, HostCallIn, WasmCallIn, FailureIn;
    var m0 := Start(state, calls);
    FullPrefix(w, m0, inputs, k);
    FullPrefix(w, m0, inputs, k + 1);
    assert inputs[..k + 1] == inputs[..k] + [inputs[k]];
    RunSnoc(w, Recording, m0, inputs[..k], inputs[k]);
    StepRecords(w, Recording, Run(w, Recording, m0, inputs[..k]), inputs[k]);
  }
}
