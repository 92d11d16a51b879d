/** What a chain file is good for once it has been read back: whether the chain in it still
    verifies, and whether it can be replayed. The file keeps hashes, parents and payloads and
    drops the event types. */
module ChainFiles {
  import opened Prelude
  import opened HashChain
  import opened StateChain
  import opened Replay
  import opened ReplayRuns
  import ChainFormat

  /** The event as the file gives it back, if it has a hash: without its type, and without its
      payload if that cannot be decoded. */
  function Kept<V>(vs: ChainFormat.Values<V>, e: ChainEvent): (r: ChainEvent) {
    e.(eventType := [], data := ChainFormat.ParsedData(vs, e.data))
  }

  function AllKept<V>(vs: ChainFormat.Values<V>, es: seq<ChainEvent>): (r: seq<ChainEvent>)
    ensures |r| == |es| && forall i :: 0 <= i < |es| ==> r[i] == Kept(vs, es[i])
  {
    seq(|es|, i requires 0 <= i < |es| => Kept(vs, es[i]))
  }

  /** What is read back from the file of a chain. */
  function ReadBack<V>(vs: ChainFormat.Values<V>, es: seq<ChainEvent>): (r: seq<ChainEvent>) {
    ChainFormat.Parsed(vs, ChainFormat.SplitLines(ChainFormat.FormatChain(vs, es)))
  }

  predicate Hashed(es: seq<ChainEvent>) {
    forall i :: 0 <= i < |es| ==> es[i].hash != []
  }

  lemma ReadBackIs<V(!new)>(vs: ChainFormat.Values<V>, es: seq<ChainEvent>)
    requires ChainFormat.OneLineValues(vs) && Hashed(es)
    ensures ReadBack(vs, es) == AllKept(vs, es)
  {
    hide ChainFormat.Parsed, ChainFormat.SplitLines, ChainFormat.FormatChain;
    ChainFormat.ParseOfFormat(vs, es);
    ExpectedIs(vs, es);
  }

  lemma {:induction false} ExpectedIs<V>(vs: ChainFormat.Values<V>, es: seq<ChainEvent>)
    requires Hashed(es)
    ensures ChainFormat.Expected(vs, es) == AllKept(vs, es)
  {
    hide ChainFormat.ParsedData;
    if es != [] {
      assert forall i :: 0 <= i < |es[1..]| ==> es[1..][i] == es[i + 1];
      ExpectedIs(vs, es[1..]);
      assert AllKept(vs, es) == [Kept(vs, es[0])] + AllKept(vs, es[1..]);
    }
  }

  // ----- Does it verify? -----

  /** The event loses nothing that is hashed, or the loss is a SHA-1 collision. */
  predicate KeptFits<V>(sha: Sha1, vs: ChainFormat.Values<V>, e: ChainEvent) {
    || (e.eventType == [] && (e.data == [] || vs.decode(e.data).Some?))
    || Collision(sha, HashedText(e), HashedText(Kept(vs, e)))
  }

  lemma FitsExactly<V>(sha: Sha1, vs: ChainFormat.Values<V>, e: ChainEvent)
    requires ChainFormat.LosslessData(vs, e.data) && e.hash == sha(HashedText(e))
    ensures e.hash == sha(HashedText(Kept(vs, e))) <==> KeptFits(sha, vs, e)
  {
    hide Serialize, ChainFormat.ParsedData, ChainFormat.LosslessData;
    ChainFormat.DataIsSame(vs, e.data);
    var k := Kept(vs, e);
    if HashedText(e) == HashedText(k) {
      SerializeInjective(e.parent, e.eventType, e.data, k.parent, k.eventType, k.data);
    }
  }

  lemma {:induction false} KeptLinkedExactly<V>(sha: Sha1, vs: ChainFormat.Values<V>, es: seq<ChainEvent>)
    requires ChainFormat.LosslessValues(vs, es) && Linked(sha, es)
    ensures Linked(sha, AllKept(vs, es)) <==> forall i :: 0 <= i < |es| ==> KeptFits(sha, vs, es[i])
  {
    hide KeptFits, HashedText, Collision, Linked, ChainFormat.LosslessData, ChainFormat.ParsedData;
    if es != [] {
      var n := |es| - 1;
      var init, e := es[..n], es[n];
      assert forall i :: 0 <= i < n ==> es[i] == init[i];
      LinkedLast(sha, es);
      LinkedLast(sha, AllKept(vs, es));
      KeptLinkedExactly(sha, vs, init);
      assert AllKept(vs, es)[..n] == AllKept(vs, init);
      assert HeadOf(AllKept(vs, init)) == HeadOf(init);
      FitsExactly(sha, vs, e);
    } else {
      assert AllKept(vs, es) == es;
    }
  }

  lemma LinkedLast(sha: Sha1, es: seq<ChainEvent>)
    requires es != []
    ensures var n := |es| - 1;
      Linked(sha, es) <==>
      Linked(sha, es[..n]) && es[n].hash == sha(HashedText(es[n])) && es[n].parent == HeadOf(es[..n])
  {
    hide Serialize;
  }

  lemma {:induction false} LinkedHashed(sha: Sha1, es: seq<ChainEvent>)
    requires Linked(sha, es)
    ensures Hashed(es)
  {
    hide HashedText, Linked;
    if es != [] {
      LinkedLast(sha, es);
      LinkedHashed(sha, es[..|es| - 1]);
      assert forall i :: 0 <= i < |es| - 1 ==> es[i] == es[..|es| - 1][i];
    }
  }

  /** The chain read back from the file of a verified chain verifies if and only if every event
      had a blank type and a payload that is empty or decodable, up to SHA-1 collisions at the
      others. */
  lemma FileVerifiesExactly<V(!new)>(sha: Sha1, vs: ChainFormat.Values<V>, es: seq<ChainEvent>)
    requires ChainFormat.LosslessValues(vs, es) && ChainFormat.OneLineValues(vs)
    requires Linked(sha, es)
    ensures Linked(sha, ReadBack(vs, es)) <==> forall i :: 0 <= i < |es| ==> KeptFits(sha, vs, es[i])
  {
    hide ReadBack, Linked, KeptFits, ChainFormat.LosslessValues;
    LinkedHashed(sha, es);
    ReadBackIs(vs, es);
    KeptLinkedExactly(sha, vs, es);
  }

  /** The smallest failing cases: a verified chain of one event that has a type, or a payload
      that cannot be decoded. */
  lemma OneEventFails<V(!new)>(sha: Sha1, vs: ChainFormat.Values<V>, eventType: Bytes, data: Bytes)
    requires ChainFormat.LosslessData(vs, data) && ChainFormat.OneLineValues(vs)
    requires eventType != [] || (data != [] && vs.decode(data).None?)
    ensures var e := NextEvent(sha, [], eventType, data);
      && Linked(sha, [e])
      && (!Linked(sha, ReadBack(vs, [e])) || Collision(sha, HashedText(e), HashedText(Kept(vs, e))))
  {
    hide ReadBack, Collision, Serialize, Kept, ChainFormat.LosslessData, ChainFormat.OneLineValues;
    var e := NextEvent(sha, [], eventType, data);
    assert [e][..0] == [];
    LinkedLast(sha, [e]);
    FileVerifiesExactly(sha, vs, [e]);
    assert KeptFits(sha, vs, [e][0]) <==> Collision(sha, HashedText(e), HashedText(Kept(vs, e)));
  }

  // ----- Can it be replayed? -----

  /** A replay looks only at the payloads of the expected chain. */
  predicate SamePayloads(a: seq<ChainEvent>, b: seq<ChainEvent>) {
    |a| == |b| && forall i :: 0 <= i < |a| ==> a[i].data == b[i].data && a[i].hash == b[i].hash
  }

  lemma {:induction false} NextMatchAlike(codec: Codec, a: seq<ChainEvent>, b: seq<ChainEvent>, pos: nat,
                                          interface: string, function_: string)
    requires SamePayloads(a, b) && pos <= |a|
    ensures NextMatch(codec, a, pos, interface, function_) == NextMatch(codec, b, pos, interface, function_)
    decreases |a| - pos
  {
    hide AsHostCall;
    if pos < |a| {
      NextMatchAlike(codec, a, b, pos + 1, interface, function_);
    }
  }

  lemma LookupAlike(codec: Codec, a: seq<ChainEvent>, b: seq<ChainEvent>, cursor: nat, interface: string, function_: string)
    requires SamePayloads(a, b)
    ensures BeforeImport(codec, Replaying(a), cursor, interface, function_)
         == BeforeImport(codec, Replaying(b), cursor, interface, function_)
  {
    hide AsHostCall, NextMatch;
    if cursor <= |a| {
      NextMatchAlike(codec, a, b, cursor, interface, function_);
    }
  }

  lemma StepAlike(w: World, a: seq<ChainEvent>, b: seq<ChainEvent>, m: Machine, input: Input)
    requires SamePayloads(a, b)
    ensures Step(w, Replaying(a), m, input) == Step(w, Replaying(b), m, input)
  {
    hide BeforeImport, Append, SamePayloads;
    if m.phase.Running? {
      var act := w.guest(m.state, m.phase.name, m.phase.params, m.phase.outputs);
      if act.Import? {
        LookupAlike(w.codec, a, b, m.cursor, act.interface, act.function_);
      }
    }
  }

  lemma {:induction false} RunAlike(w: World, a: seq<ChainEvent>, b: seq<ChainEvent>, m: Machine, inputs: seq<Input>)
    requires SamePayloads(a, b)
    ensures Run(w, Replaying(a), m, inputs) == Run(w, Replaying(b), m, inputs)
  {
    hide Step, SamePayloads;
    if inputs != [] {
      RunAlike(w, a, b, m, inputs[..|inputs| - 1]);
      StepAlike(w, a, b, Run(w, Replaying(b), m, inputs[..|inputs| - 1]), inputs[|inputs| - 1]);
    }
  }

  lemma {:induction false} CallsAlike(codec: Codec, a: seq<ChainEvent>, b: seq<ChainEvent>)
    requires SamePayloads(a, b)
    ensures RecordedCalls(codec, a) == RecordedCalls(codec, b)
  {
    hide AsWasmCall;
    if a != [] {
      assert forall i :: 0 <= i < |a[1..]| ==> a[1..][i] == a[i + 1] && b[1..][i] == b[i + 1];
      CallsAlike(codec, a[1..], b[1..]);
    }
  }

  lemma JudgeAlike(a: seq<ChainEvent>, b: seq<ChainEvent>, actual: seq<ChainEvent>)
    requires SamePayloads(a, b)
    ensures Judge(a, actual) == Judge(b, actual)
  {
    hide FirstMismatch;
    FirstMismatchIs(b, actual, FirstMismatch(a, actual));
  }

  /** Every payload a run records can be decoded, and every hash is one of SHA-1. */
  predicate Decodable(codec: Codec, chain: seq<ChainEvent>) {
    forall i :: 0 <= i < |chain| ==> codec.dec(chain[i].data).Some? && |chain[i].hash| == 20
  }

  lemma AppendDecodable(w: World, chain: seq<ChainEvent>, eventType: string, p: Payload)
    requires Lossless(w.codec) && Decodable(w.codec, chain)
    ensures Decodable(w.codec, Append(w.sha, w.codec, chain, eventType, p))
  {
    hide PayloadValue, Utf8, Serialize;
  }

  lemma {:induction false} RunDecodable(w: World, mode: Mode, m: Machine, inputs: seq<Input>)
    requires Lossless(w.codec) && Decodable(w.codec, m.chain)
    ensures Decodable(w.codec, Run(w, mode, m, inputs).chain)
  {
    hide Step, Decodable;
    if inputs != [] {
      RunDecodable(w, mode, m, inputs[..|inputs| - 1]);
      StepDecodable(w, mode, Run(w, mode, m, inputs[..|inputs| - 1]), inputs[|inputs| - 1]);
    }
  }

  lemma StepDecodable(w: World, mode: Mode, m: Machine, input: Input)
    requires Lossless(w.codec) && Decodable(w.codec, m.chain)
    ensures Decodable(w.codec, Step(w, mode, m, input).chain)
  {
    hide Append, Decodable, BeforeImport;
    if input == StopRequest || m.phase == Trapped {
      AppendDecodable(w, m.chain, "shutdown", STOP);
    } else if m.phase == Idle && m.calls != [] {
      AppendDecodable(w, m.chain, "wasm", Wasm(WasmCall(m.calls[0].0, m.calls[0].1)));
    } else if m.phase.Running? {
      var name := m.phase.name;
      match w.guest(m.state, name, m.phase.params, m.phase.outputs) {
        case Import(interface, function_, i) =>
          var (answer, _) := BeforeImport(w.codec, mode, m.cursor, interface, function_);
          var output := if answer.Some? then answer.value else input.host;
          AppendDecodable(w, m.chain, interface + "/" + function_,
                          HostFunction(HostCall(interface, function_, i, output)));
        case Return(state, response) =>
          AppendDecodable(w, m.chain, "wasm", Wasm(WasmResult(name, state, response)));
        case Trap(message) =>
          AppendDecodable(w, m.chain, "wasm", Wasm(WasmError(name, message)));
      }
    }
  }

  /** The file's value language decodes what the chain's codec does. */
  ghost predicate SameDecoder(codec: Codec, vs: ChainFormat.Values<Value>) {
    forall data :: vs.decode(data) == codec.dec(data)
  }

  lemma KeepsPayloads(vs: ChainFormat.Values<Value>, codec: Codec, chain: seq<ChainEvent>)
    requires SameDecoder(codec, vs) && ChainFormat.LosslessValues(vs, chain) && Decodable(codec, chain)
    ensures forall i :: 0 <= i < |chain| ==> Kept(vs, chain[i]) == chain[i].(eventType := [])
    ensures SamePayloads(AllKept(vs, chain), chain)
  {
    hide ChainFormat.ParsedData, ChainFormat.LosslessData;
    forall i | 0 <= i < |chain|
      ensures Kept(vs, chain[i]) == chain[i].(eventType := [])
    {
      ChainFormat.DataIsSame(vs, chain[i].data);
    }
  }

  /** Record, write to a file, read back, replay: the replay of what is read back is the replay
      of the recording itself, with the same verdict. So it reproduces the recording, types
      and all, exactly when every stop in the recording follows a trap. */
  lemma FileReplaysExactly(w: World, vs: ChainFormat.Values<Value>, state: Value, calls: seq<(string, Value)>,
                           inputs: seq<Input>, hosts': seq<Value>)
    requires Lossless(w.codec) && SameDecoder(w.codec, vs)
    requires ChainFormat.OneLineValues(vs)
    requires var chain := Run(w, Recording, Start(state, calls), inputs).chain;
      ChainFormat.LosslessValues(vs, chain) && |hosts'| >= |chain|
    ensures var chain := Run(w, Recording, Start(state, calls), inputs).chain;
      var file := ReadBack(vs, chain);
      var actual := Replayed(w, state, file, hosts').chain;
      && |file| == |chain| && (forall i :: 0 <= i < |chain| ==> file[i] == chain[i].(eventType := []))
      && actual == Replayed(w, state, chain, hosts').chain
      && Judge(file, actual) == Judge(chain, actual)
      && (Replayable(w.codec, chain) ==> chain <= actual && Judge(file, actual) == Complete)
      && (!Replayable(w.codec, chain) ==> exists n: nat :: DivergesAt(w, chain, actual, n))
  {
    hide Run, ReadBack, Judge, Replayable, DivergesAt, RecordedCalls, ChainFormat.LosslessValues, ChainFormat.OneLineValues, Kept, SamePayloads;
    var chain := Run(w, Recording, Start(state, calls), inputs).chain;
    RunDecodable(w, Recording, Start(state, calls), inputs);
    ReadBackIs(vs, chain);
    var file := AllKept(vs, chain);
    KeepsPayloads(vs, w.codec, chain);
    CallsAlike(w.codec, file, chain);
    RunAlike(w, file, chain, Start(state, RecordedCalls(w.codec, chain)), Works(hosts'));
    JudgeAlike(file, chain, Replayed(w, state, chain, hosts').chain);
    ReplayExactly(w, state, calls, inputs, hosts');
  }
}
