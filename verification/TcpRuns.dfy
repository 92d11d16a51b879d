/** Runs of the TCP handler: host functions and background tasks of any number of actors,
    interleaved at their critical sections, and what holds in every state and over every run. */
module TcpRuns {
  import opened Prelude
  import opened Tcp

  /** What is in flight. */
  datatype Task =
    | SendIo(a: ActorId, c: ConnId)          // send has passed its check
    | ReceiveIo(a: ActorId, c: ConnId)       // receive has passed its check
    | UpgradeIo(a: ActorId, c: ConnId)       // upgrade-to-tls-* has passed its check
    | Closing(c: ConnId)                     // removed from the map, stream not yet shut down
    | ReadLoop(a: ActorId, c: ConnId, once: bool)
    | OnceDone(a: ActorId, c: ConnId)        // a "once" loop has delivered its data
    | HandleConnection(a: ActorId, c: ConnId)   // the accepting actor's callback runs
    | TransferCall(a: ActorId, c: ConnId)    // the target's detached callback of transfer-async runs
    | Cleaning(a: ActorId, ids: set<ConnId>)    // shutdown cleanup, with the ids collected

  /** Who has taken an id and will insert a connection under it. */
  datatype Reservation = Reservation(a: ActorId, state: ConnState)

  datatype State = State(table: Table, tasks: multiset<Task>, reserved: map<ConnId, Reservation>)

  const INIT := State(EMPTY, multiset{}, map[])

  datatype Step =
    | Reserve(a: ActorId, state: ConnState)           // takes an id: Active to connect, Pending to accept
    | Insert(c: ConnId, a: ActorId, state: ConnState, tls: bool)
    | Abandon(c: ConnId)                              // the handshake before the insert failed
    | ConnectionCallFailed(a: ActorId, c: ConnId)
    | Activate(a: ActorId, c: ConnId)
    | SetActive(a: ActorId, c: ConnId, mode: DataMode, handle: bool)
    | Transfer(a: ActorId, c: ConnId, target: ActorId, detached: bool)
    | TransferCallFailed(a: ActorId, c: ConnId)
    | CheckSend(a: ActorId, c: ConnId)
    | Send(a: ActorId, c: ConnId)
    | CheckReceive(a: ActorId, c: ConnId)
    | Receive(a: ActorId, c: ConnId)
    | CheckUpgrade(a: ActorId, c: ConnId)
    | Upgrade(a: ActorId, c: ConnId, ok: bool)
    | Close(a: ActorId, c: ConnId)
    | ShutStream(c: ConnId)
    | ReadData(a: ActorId, c: ConnId, once: bool)
    | ReadEnd(a: ActorId, c: ConnId, once: bool)      // end of stream, error or cancellation
    | OnceFinish(a: ActorId, c: ConnId)
    | Collect(a: ActorId)
    | CleanNext(a: ActorId, ids: set<ConnId>, c: ConnId)

  /** What a step continues, if it does not start from scratch. */
  function Continues(e: Step): (k: Option<Task>) {
    match e
    case ConnectionCallFailed(a, c) => Some(HandleConnection(a, c))
    case TransferCallFailed(a, c) => Some(TransferCall(a, c))
    case Send(a, c) => Some(SendIo(a, c))
    case Receive(a, c) => Some(ReceiveIo(a, c))
    case Upgrade(a, c, _) => Some(UpgradeIo(a, c))
    case ShutStream(c) => Some(Closing(c))
    case ReadData(a, c, once) => Some(ReadLoop(a, c, once))
    case ReadEnd(a, c, once) => Some(ReadLoop(a, c, once))
    case OnceFinish(a, c) => Some(OnceDone(a, c))
    case CleanNext(a, ids, _) => Some(Cleaning(a, ids))
    case _ => None
  }

  predicate Enabled(s: State, e: Step) {
    && (Continues(e).Some? ==> Continues(e).value in s.tasks)
    && (e.CleanNext? ==> e.c in e.ids)
    && (e.Send? || e.Receive? || e.Upgrade? ==> e.c in s.table.streams)
    && (e.Insert? ==> e.c in s.reserved && s.reserved[e.c] == Reservation(e.a, e.state))
    && (e.Abandon? ==> e.c in s.reserved)
  }

  function TableAfter(t: Table, e: Step): (t': Table)
    requires e.Upgrade? ==> e.c in t.streams
  {
    match e
    case Reserve(_, _) => IdTaken(t)
    case Insert(c, a, state, tls) => Inserted(t, c, a, state, tls)
    case ConnectionCallFailed(_, c) => Removed(t, c)
    case Activate(a, c) => Activated(t, a, c).0
    case SetActive(a, c, mode, handle) => WithMode(t, a, c, mode, handle).0
    case Transfer(a, c, target, _) => Transferred(t, a, c, target).0
    case TransferCallFailed(_, c) => Removed(t, c)
    case Upgrade(a, c, ok) => Upgraded(t, c, ok).0
    case Close(a, c) => ClosedBy(t, a, c).0
    case ShutStream(c) => Shut(t, c)
    case ReadEnd(a, c, once) => Removed(t, c)
    case OnceFinish(a, c) => BackToPassive(t, c)
    case CleanNext(_, _, c) => Removed(t, c)
    case _ => t
  }

  /** Tasks started by a step; closing is started only by whoever finds the entry. */
  function Starts(t: Table, e: Step): (tasks: multiset<Task>) {
    match e
    case Insert(c, a, state, _) => if state == Pending then multiset{HandleConnection(a, c)} else multiset{}
    case SetActive(a, c, mode, handle) =>
      if handle && Splits(t, a, c, mode, handle) then multiset{ReadLoop(a, c, mode == Once)} else multiset{}
    case Transfer(a, c, target, detached) =>
      if detached && Transferred(t, a, c, target).1 == Done then multiset{TransferCall(target, c)} else multiset{}
    case TransferCallFailed(_, c) => if c in t.connections then multiset{Closing(c)} else multiset{}
    case CheckSend(a, c) => if Checked(t, a, c, false) == Done then multiset{SendIo(a, c)} else multiset{}
    case CheckReceive(a, c) => if Checked(t, a, c, true) == Done then multiset{ReceiveIo(a, c)} else multiset{}
    case CheckUpgrade(a, c) => if Checked(t, a, c, true) == Done then multiset{UpgradeIo(a, c)} else multiset{}
    case Close(a, c) => if ClosedBy(t, a, c).1 == Done then multiset{Closing(c)} else multiset{}
    case ReadData(a, c, once) => if once then multiset{OnceDone(a, c)} else multiset{ReadLoop(a, c, once)}
    case ReadEnd(a, c, once) => if c in t.connections then multiset{Closing(c)} else multiset{}
    case Collect(a) => multiset{Cleaning(a, OwnedBy(t, a))}
    case CleanNext(a, ids, c) =>
      multiset{Cleaning(a, ids - {c})} + if c in t.connections then multiset{Closing(c)} else multiset{}
    case _ => multiset{}
  }

  function ReservedAfter(s: State, e: Step): (reserved: map<ConnId, Reservation>) {
    match e
    case Reserve(a, state) => s.reserved[s.table.nextId := Reservation(a, state)]
    case Insert(c, _, _, _) => s.reserved - {c}
    case Abandon(c) => s.reserved - {c}
    case _ => s.reserved
  }

  function Apply(s: State, e: Step): (s': State)
    requires Enabled(s, e)
  {
    var left := if Continues(e).Some? then s.tasks - multiset{Continues(e).value} else s.tasks;
    State(TableAfter(s.table, e), left + Starts(s.table, e), ReservedAfter(s, e))
  }

  /** The state after a run from the empty table, if all its steps can be taken. */
  function After(run: seq<Step>): (s: Option<State>) {
    if run == [] then Some(INIT)
    else
      var before := After(run[..|run| - 1]);
      if before.Some? && Enabled(before.value, run[|run| - 1])
      then Some(Apply(before.value, run[|run| - 1])) else None
  }

  lemma {:induction false} PrefixRuns(run: seq<Step>, k: nat)
    requires After(run).Some? && k <= |run|
    ensures After(run[..k]).Some?
    ensures k < |run| ==>
      Enabled(After(run[..k]).value, run[k]) && After(run[..k + 1]) == Some(Apply(After(run[..k]).value, run[k]))
  {
    hide Enabled, Apply;
    if k < |run| {
      var init := run[..|run| - 1];
      if k < |init| {
        PrefixRuns(init, k);
        assert init[..k] == run[..k] && init[..k + 1] == run[..k + 1];
      } else {
        assert run[..k] == init && run[..k + 1] == run;
      }
    } else {
      assert run[..k] == run;
    }
  }

  // ----- What every reachable state satisfies -----

  /** A mapped connection is not pending any more. */
  predicate NotPending(t: Table, c: ConnId) {
    c in t.connections ==> t.connections[c].state == Active
  }

  predicate TaskOk(t: Table, k: Task) {
    match k
    case SendIo(_, c) => c in t.streams && NotPending(t, c)
    case ReceiveIo(_, c) => c in t.streams && NotPending(t, c)
    case UpgradeIo(_, c) => c in t.streams && NotPending(t, c)
    case Closing(c) => c in t.streams && c !in t.connections
    case ReadLoop(_, c, _) => c in t.streams && !t.streams[c].Full? && NotPending(t, c)
    case OnceDone(_, c) => c in t.streams && !t.streams[c].Full? && NotPending(t, c)
    case HandleConnection(_, c) => c in t.streams
    case TransferCall(_, c) => c in t.streams
    case Cleaning(_, ids) => forall c :: c in ids ==> c in t.streams
  }

  /** Ids that are taken and not yet used have no connection and no stream. */
  predicate ReservedOk(s: State) {
    forall c :: c in s.reserved ==> c < s.table.nextId && c !in s.table.streams
  }

  predicate Inv(s: State) {
    TableOk(s.table) && ReservedOk(s) && forall k :: k in s.tasks ==> TaskOk(s.table, k)
  }

  /** What can happen to any one connection that is known already: it is never inserted
      again, never pending again, never whole again once it is not, and keeps its stream cell. */
  predicate Evolves(t: Table, t': Table, c: ConnId) {
    && t.nextId <= t'.nextId
    && (c in t.streams && c in t'.connections ==> c in t.connections)
    && (c in t.streams ==> c in t'.streams)
    && (c in t.streams && !t.streams[c].Full? ==> !t'.streams[c].Full?)
    && (c in t.connections && c in t'.connections && t.connections[c].state == Active ==>
          t'.connections[c].state == Active)
  }

  lemma StepEvolves(s: State, e: Step, c: ConnId)
    requires Inv(s) && Enabled(s, e)
    ensures Evolves(s.table, TableAfter(s.table, e), c)
  {
    if Continues(e).Some? { assert TaskOk(s.table, Continues(e).value); }
  }

  lemma StepTableOk(s: State, e: Step)
    requires Inv(s) && Enabled(s, e)
    ensures TableOk(TableAfter(s.table, e))
  {
    var t, t' := s.table, TableAfter(s.table, e);
    if Continues(e).Some? { assert TaskOk(t, Continues(e).value); }
    forall c | c in t'.connections
      ensures EntryOk(t', c)
    {
      assert c in t.connections ==> EntryOk(t, c);
    }
  }

  /** A task left over from before the step. */
  lemma OldTaskOk(t: Table, t': Table, k: Task)
    requires TaskOk(t, k) && TableOk(t) && forall c :: Evolves(t, t', c)
    ensures TaskOk(t', k)
  {
    match k
    case Cleaning(_, ids) =>
      forall c | c in ids ensures c in t'.streams { assert Evolves(t, t', c); }
    case _ =>
      assert Evolves(t, t', k.c);
  }

  lemma StartedTaskOk(s: State, e: Step, k: Task)
    requires Inv(s) && Enabled(s, e) && k in Starts(s.table, e)
    ensures TaskOk(TableAfter(s.table, e), k)
  {
    hide TableAfter, Starts, TaskOk, TableOk;
    match k
    case Closing(c) => StartedClosing(s.table, e, c);
    case SendIo(a, c) => StartedIo(s.table, e, k);
    case ReceiveIo(a, c) => StartedIo(s.table, e, k);
    case UpgradeIo(a, c) => StartedIo(s.table, e, k);
    case ReadLoop(a, c, once) => StartedLoop(s.table, e, a, c, once);
    case HandleConnection(_, _) => StartedCallback(s.table, e, k);
    case TransferCall(_, _) => StartedCallback(s.table, e, k);
    case Cleaning(a, ids) => StartedCleaning(s.table, e, a, ids);
    case OnceDone(a, c) => StartedOnce(s.table, e, a, c);
  }

  lemma StartedCallback(t: Table, e: Step, k: Task)
    requires TableOk(t) && k in Starts(t, e) && (e.Upgrade? ==> e.c in t.streams)
    requires k.HandleConnection? || k.TransferCall?
    ensures TaskOk(TableAfter(t, e), k)
  {
    if k.TransferCall? { assert e.Transfer? && EntryOk(t, k.c); }
  }

  lemma StartedCleaning(t: Table, e: Step, a: ActorId, ids: set<ConnId>)
    requires TableOk(t) && Cleaning(a, ids) in Starts(t, e) && (e.Upgrade? ==> e.c in t.streams)
    requires e.CleanNext? ==> TaskOk(t, Cleaning(e.a, e.ids))
    ensures TaskOk(TableAfter(t, e), Cleaning(a, ids))
  {
    if e.Collect? { assert forall c :: c in ids ==> EntryOk(t, c); }
  }

  lemma StartedOnce(t: Table, e: Step, a: ActorId, c: ConnId)
    requires OnceDone(a, c) in Starts(t, e) && (e.Upgrade? ==> e.c in t.streams)
    requires e.ReadData? ==> TaskOk(t, ReadLoop(e.a, e.c, e.once))
    ensures TaskOk(TableAfter(t, e), OnceDone(a, c))
  {
  }

  lemma StartedClosing(t: Table, e: Step, c: ConnId)
    requires TableOk(t) && Closing(c) in Starts(t, e) && (e.Upgrade? ==> e.c in t.streams)
    ensures TaskOk(TableAfter(t, e), Closing(c))
  {
    assert c in t.connections && EntryOk(t, c);
  }

  lemma StartedIo(t: Table, e: Step, k: Task)
    requires TableOk(t) && k in Starts(t, e) && (k.SendIo? || k.ReceiveIo? || k.UpgradeIo?)
    requires e.Upgrade? ==> e.c in t.streams
    ensures TaskOk(TableAfter(t, e), k)
  {
    assert e.CheckSend? || e.CheckReceive? || e.CheckUpgrade?;
    assert TableAfter(t, e) == t;
    hide TableAfter, Starts;
    assert k.c in t.connections && EntryOk(t, k.c);
  }

  lemma StartedLoop(t: Table, e: Step, a: ActorId, c: ConnId, once: bool)
    requires TableOk(t) && ReadLoop(a, c, once) in Starts(t, e) && (e.Upgrade? ==> e.c in t.streams)
    requires e.ReadData? ==> TaskOk(t, ReadLoop(e.a, e.c, e.once))
    ensures TaskOk(TableAfter(t, e), ReadLoop(a, c, once))
  {
    assert c in t.connections ==> EntryOk(t, c);
  }

  lemma StepReservedOk(s: State, e: Step)
    requires Inv(s) && Enabled(s, e)
    ensures ReservedOk(Apply(s, e))
  {
    hide TaskOk, Starts, EntryOk;
    if Continues(e).Some? { assert TaskOk(s.table, Continues(e).value); }
    forall c | c in ReservedAfter(s, e)
      ensures c < TableAfter(s.table, e).nextId && c !in TableAfter(s.table, e).streams
    {
      StreamsGrow(s, e, c);
    }
  }

  /** Only an insert adds a stream cell. */
  lemma StreamsGrow(s: State, e: Step, c: ConnId)
    requires Inv(s) && Enabled(s, e) && c !in s.table.streams
    ensures c in TableAfter(s.table, e).streams ==> e.Insert? && e.c == c
    ensures s.table.nextId <= TableAfter(s.table, e).nextId
  {
    if Continues(e).Some? { assert TaskOk(s.table, Continues(e).value); }
  }

  lemma StepKeepsInv(s: State, e: Step)
    requires Inv(s) && Enabled(s, e)
    ensures Inv(Apply(s, e))
  {
    StepTableOk(s, e);
    StepReservedOk(s, e);
    hide ReservedOk, ReservedAfter;
    forall c
      ensures Evolves(s.table, TableAfter(s.table, e), c)
    {
      StepEvolves(s, e, c);
    }
    hide TableAfter, Starts, Evolves, TaskOk, TableOk;
    forall k | k in Apply(s, e).tasks
      ensures TaskOk(TableAfter(s.table, e), k)
    {
      if k in Starts(s.table, e) {
        StartedTaskOk(s, e, k);
      } else {
        assert k in s.tasks;
        OldTaskOk(s.table, TableAfter(s.table, e), k);
      }
    }
  }

  /** Every interleaving keeps every mapped connection in order. */
  lemma {:induction false} RunKeepsInv(run: seq<Step>)
    requires After(run).Some?
    ensures Inv(After(run).value)
  {
    hide Apply, Enabled;
    if run != [] {
      var init := run[..|run| - 1];
      RunKeepsInv(init);
      StepKeepsInv(After(init).value, run[|run| - 1]);
    }
  }

  // ----- Over a run -----

  function TableAt(run: seq<Step>, k: nat): (t: Table)
    requires After(run).Some? && k <= |run|
  {
    PrefixRuns(run, k);
    After(run[..k]).value.table
  }

  lemma TableStep(run: seq<Step>, k: nat)
    requires After(run).Some? && k < |run|
    ensures After(run[..k]).Some? && Inv(After(run[..k]).value) && Enabled(After(run[..k]).value, run[k])
    ensures TableAt(run, k + 1) == TableAfter(TableAt(run, k), run[k])
  {
    hide TableAfter, Inv, Enabled;
    PrefixRuns(run, k);
    RunKeepsInv(run[..k]);
  }

  lemma EvolvesTransitive(t: Table, t': Table, t'': Table, c: ConnId)
    requires Evolves(t, t', c) && Evolves(t', t'', c) && (c in t.connections ==> c in t.streams)
    ensures Evolves(t, t'', c)
  {
  }

  lemma EvolvesRefl(t: Table, c: ConnId)
    ensures Evolves(t, t, c)
  {
  }

  lemma KnownBelow(s: State, c: ConnId)
    requires Inv(s) && c in s.table.connections
    ensures c < s.table.nextId && c in s.table.streams
  {
    hide TaskOk;
    assert EntryOk(s.table, c);
  }

  /** Between any two moments of a run: active stays active, not whole stays not whole, and
      what has left the map does not come back. */
  lemma {:induction false} EvolvesOver(run: seq<Step>, i: nat, j: nat, c: ConnId)
    requires After(run).Some? && i <= j <= |run|
    ensures Evolves(TableAt(run, i), TableAt(run, j), c)
    decreases j
  {
    hide Evolves, TableAfter, Inv, Enabled;
    if i == j {
      EvolvesRefl(TableAt(run, i), c);
    } else {
      EvolvesOver(run, i, j - 1, c);
      TableStep(run, j - 1);
      StepEvolves(After(run[..j - 1]).value, run[j - 1], c);
      PrefixRuns(run, i);
      RunKeepsInv(run[..i]);
      if c in TableAt(run, i).connections { KnownBelow(After(run[..i]).value, c); }
      EvolvesTransitive(TableAt(run, i), TableAt(run, j - 1), TableAt(run, j), c);
    }
  }

  lemma StreamsPersist(run: seq<Step>, i: nat, j: nat, c: ConnId)
    requires After(run).Some? && i <= j <= |run| && c in TableAt(run, i).streams
    ensures c in TableAt(run, j).streams
    ensures !TableAt(run, i).streams[c].Full? ==> !TableAt(run, j).streams[c].Full?
  {
    hide After;
    EvolvesOver(run, i, j, c);
  }

  lemma MappedBetween(run: seq<Step>, i: nat, k: nat, j: nat, c: ConnId)
    requires After(run).Some? && i <= k <= j <= |run|
    requires c in TableAt(run, i).connections && c in TableAt(run, j).connections
    ensures c in TableAt(run, k).connections
  {
    PrefixRuns(run, i);
    RunKeepsInv(run[..i]);
    KnownBelow(After(run[..i]).value, c);
    hide After, Inv;
    EvolvesOver(run, i, k, c);
    EvolvesOver(run, k, j, c);
  }

  // ----- One split, one reader -----

  /** Step `k` of the run splits the stream of `c`. */
  predicate SplitAt(run: seq<Step>, k: nat, c: ConnId)
    requires After(run).Some?
  {
    && k < |run| && run[k].SetActive? && run[k].c == c
    && Splits(TableAt(run, k), run[k].a, c, run[k].mode, run[k].handle)
  }

  /** After a split the stream is never whole again. */
  lemma NotWholeAfterSplit(run: seq<Step>, i: nat, j: nat, c: ConnId)
    requires After(run).Some? && SplitAt(run, i, c) && i < j <= |run|
    ensures c in TableAt(run, j).streams && !TableAt(run, j).streams[c].Full?
  {
    hide After, Inv, Enabled;
    TableStep(run, i);
    SplitLeavesWriteOnly(TableAt(run, i), run[i], c);
    hide TableAfter, Splits;
    StreamsPersist(run, i + 1, j, c);
  }

  lemma SplitLeavesWriteOnly(t: Table, e: Step, c: ConnId)
    requires e.SetActive? && e.c == c && Splits(t, e.a, c, e.mode, e.handle)
    ensures c in TableAfter(t, e).streams && TableAfter(t, e).streams[c] == WriteOnly
  {
  }

  /** A connection is split at most once in a run, so at most one read loop is ever started for it. */
  lemma SplitOnce(run: seq<Step>, i: nat, j: nat, c: ConnId)
    requires After(run).Some? && SplitAt(run, i, c) && SplitAt(run, j, c)
    ensures i == j
  {
    if i < j { NotWholeAfterSplit(run, i, j, c); }
    if j < i { NotWholeAfterSplit(run, j, i, c); }
  }

  lemma LoopNeedsSplit(run: seq<Step>, k: nat, a: ActorId, c: ConnId, once: bool)
    requires After(run).Some? && k < |run|
    requires ReadLoop(a, c, once) in Starts(TableAt(run, k), run[k])
    ensures (SplitAt(run, k, c) && run[k].a == a) || run[k] == ReadData(a, c, once)
  {
    hide After;
  }

  /** No receive reads after the split, not even one whose check ran before it. */
  lemma NoReceiveAfterSplit(run: seq<Step>, i: nat, j: nat, a: ActorId, c: ConnId)
    requires After(run).Some? && SplitAt(run, i, c) && i < j < |run| && run[j] == Receive(a, c)
    ensures c in TableAt(run, j).streams && ReceiveReply(TableAt(run, j), c) != Done
  {
    NotWholeAfterSplit(run, i, j, c);
  }

  predicate IsLoop(k: Task, c: ConnId) {
    (k.ReadLoop? || k.OnceDone?) && k.c == c
  }

  /** At any moment at most one task holds the read half of `c`. */
  predicate OneLoop(s: State, c: ConnId) {
    forall k, k' :: k in s.tasks && k' in s.tasks && IsLoop(k, c) && IsLoop(k', c) ==> k == k' && s.tasks[k] == 1
  }

  lemma StepOneLoop(s: State, e: Step, c: ConnId)
    requires Inv(s) && Enabled(s, e) && OneLoop(s, c)
    ensures OneLoop(Apply(s, e), c)
  {
    hide TableAfter, TableOk, TaskOk, OneLoop;
    var s' := Apply(s, e);
    if e.SetActive? && e.c == c && Splits(s.table, e.a, c, e.mode, e.handle) {
      forall k | k in s.tasks
        ensures !IsLoop(k, c)
      {
        WholeHasNoLoop(s, k, c);
      }
      FirstLoop(s, s', ReadLoop(e.a, c, e.mode == Once), c);
    } else if e.ReadData? && e.c == c {
      NextLoop(s, s', ReadLoop(e.a, c, e.once), if e.once then OnceDone(e.a, c) else ReadLoop(e.a, c, e.once), c);
    } else {
      NoLoopStarted(s.table, e, c);
      FewerLoops(s, s', c);
    }
  }

  lemma FirstLoop(s: State, s': State, k: Task, c: ConnId)
    requires forall k' :: k' in s.tasks ==> !IsLoop(k', c)
    requires s'.tasks == s.tasks + multiset{k} || s'.tasks == s.tasks + multiset{}
    ensures OneLoop(s', c)
  {
  }

  lemma NextLoop(s: State, s': State, k: Task, k': Task, c: ConnId)
    requires OneLoop(s, c) && k in s.tasks && IsLoop(k, c)
    requires s'.tasks == s.tasks - multiset{k} + multiset{k'}
    ensures OneLoop(s', c)
  {
  }

  lemma FewerLoops(s: State, s': State, c: ConnId)
    requires OneLoop(s, c) && forall k :: IsLoop(k, c) ==> s'.tasks[k] <= s.tasks[k]
    ensures OneLoop(s', c)
  {
  }

  lemma WholeHasNoLoop(s: State, k: Task, c: ConnId)
    requires Inv(s) && k in s.tasks && c in s.table.streams && s.table.streams[c].Full?
    ensures !IsLoop(k, c)
  {
    assert TaskOk(s.table, k);
  }

  lemma NoLoopStarted(t: Table, e: Step, c: ConnId)
    requires !(e.SetActive? && e.c == c && Splits(t, e.a, c, e.mode, e.handle)) && !(e.ReadData? && e.c == c)
    ensures forall k :: k in Starts(t, e) ==> !IsLoop(k, c)
  {
  }

  lemma {:induction false} RunOneLoop(run: seq<Step>, c: ConnId)
    requires After(run).Some?
    ensures OneLoop(After(run).value, c)
  {
    hide Apply, Enabled;
    if run != [] {
      var init := run[..|run| - 1];
      RunOneLoop(init, c);
      RunKeepsInv(init);
      StepOneLoop(After(init).value, run[|run| - 1], c);
    }
  }

  /** While it is mapped, a connection is write-only exactly when it has been split. In
      particular a finished "once" read leaves a passive connection that cannot be read. */
  lemma {:induction false} WriteOnlyExactly(run: seq<Step>, n: nat, c: ConnId)
    requires After(run).Some? && n <= |run| && c in TableAt(run, n).connections
    ensures c in TableAt(run, n).streams
    ensures TableAt(run, n).streams[c] == WriteOnly <==> exists k: nat :: k < n && SplitAt(run, k, c)
  {
    hide TableAfter, Inv, Enabled, SplitAt, After, Splits;
    PrefixRuns(run, n);
    RunKeepsInv(run[..n]);
    KnownBelow(After(run[..n]).value, c);
    if n == 0 {
      NothingMapped(run);
    } else {
      TableStep(run, n - 1);
      var s := After(run[..n - 1]).value;
      if c in s.table.connections {
        KnownBelow(s, c);
        WriteOnlyExactly(run, n - 1, c);
        WriteOnlyStep(s, run[n - 1], c);
        SplitAtMeans(run, n - 1, c);
      } else {
        FreshInsert(s, run[n - 1], c);
        forall k: nat | k < n && SplitAt(run, k, c)
          ensures false
        {
          SplitAtMeans(run, k, c);
          StreamsPersist(run, k, n - 1, c);
        }
      }
    }
  }

  lemma NothingMapped(run: seq<Step>)
    requires After(run).Some?
    ensures TableAt(run, 0) == EMPTY && After(run[..0]) == Some(INIT)
  {
    assert run[..0] == [];
  }

  lemma SplitAtMeans(run: seq<Step>, k: nat, c: ConnId)
    requires After(run).Some? && k < |run|
    ensures SplitAt(run, k, c) <==>
      run[k].SetActive? && run[k].c == c && Splits(TableAt(run, k), run[k].a, c, run[k].mode, run[k].handle)
    ensures SplitAt(run, k, c) ==> c in TableAt(run, k).connections && c in TableAt(run, k).streams
  {
  }

  lemma WriteOnlyStep(s: State, e: Step, c: ConnId)
    requires Inv(s) && Enabled(s, e)
    requires c in s.table.connections && c in s.table.streams && c in TableAfter(s.table, e).connections
    ensures c in TableAfter(s.table, e).streams
    ensures TableAfter(s.table, e).streams[c] == WriteOnly <==>
      s.table.streams[c] == WriteOnly
      || (e.SetActive? && e.c == c && Splits(s.table, e.a, c, e.mode, e.handle))
  {
    if Continues(e).Some? { assert TaskOk(s.table, Continues(e).value); }
  }

  /** A step that maps `c` anew gives it a whole stream. */
  lemma FreshInsert(s: State, e: Step, c: ConnId)
    requires Inv(s) && Enabled(s, e) && c !in s.table.connections && c in TableAfter(s.table, e).connections
    ensures c !in s.table.streams
    ensures c in TableAfter(s.table, e).streams && TableAfter(s.table, e).streams[c].Full?
  {
    hide TaskOk;
  }

  // ----- Authority -----

  predicate OwnsActive(t: Table, a: ActorId, c: ConnId) {
    c in t.connections && t.connections[c].owner == a && t.connections[c].state == Active
  }

  /** At some moment up to `n` the actor owned the connection while it was active. */
  ghost predicate HasOwned(run: seq<Step>, n: nat, a: ActorId, c: ConnId)
    requires After(run).Some?
  {
    exists k: nat :: k <= n && k <= |run| && OwnsActive(TableAt(run, k), a, c)
  }

  /** The actor and connection on whose behalf a task touches a stream. */
  predicate ActsFor(k: Task, a: ActorId, c: ConnId) {
    match k
    case SendIo(a', c') => a == a' && c == c'
    case ReceiveIo(a', c') => a == a' && c == c'
    case UpgradeIo(a', c') => a == a' && c == c'
    case ReadLoop(a', c', _) => a == a' && c == c'
    case OnceDone(a', c') => a == a' && c == c'
    case _ => false
  }

  lemma StartedByOwner(t: Table, e: Step, k: Task, a: ActorId, c: ConnId)
    requires k in Starts(t, e) && ActsFor(k, a, c)
    ensures OwnsActive(t, a, c) || (e.ReadData? && ActsFor(Continues(e).value, a, c))
  {
  }

  lemma {:induction false} TasksOfOwners(run: seq<Step>, n: nat, k: Task, a: ActorId, c: ConnId)
    requires After(run).Some? && n <= |run|
    requires After(run[..n]).Some? && k in After(run[..n]).value.tasks && ActsFor(k, a, c)
    ensures HasOwned(run, n, a, c)
  {
    hide TableAfter, Starts, ActsFor, After, HasOwned, Enabled, OwnsActive;
    if n == 0 {
      NothingMapped(run);
    } else {
      PrefixRuns(run, n - 1);
      var s, e := After(run[..n - 1]).value, run[n - 1];
      OwnedLater(run, n - 1, a, c);
      if k in s.tasks {
        TasksOfOwners(run, n - 1, k, a, c);
      } else {
        assert k in Starts(s.table, e);
        StartedByOwner(s.table, e, k, a, c);
        if !OwnsActive(s.table, a, c) {
          ContinuesEnabled(s, e);
          TasksOfOwners(run, n - 1, Continues(e).value, a, c);
        }
      }
    }
  }

  lemma ContinuesEnabled(s: State, e: Step)
    requires Enabled(s, e) && Continues(e).Some?
    ensures Continues(e).value in s.tasks
  {
  }

  lemma OwnedLater(run: seq<Step>, n: nat, a: ActorId, c: ConnId)
    requires After(run).Some? && n < |run|
    ensures HasOwned(run, n, a, c) || OwnsActive(TableAt(run, n), a, c) ==> HasOwned(run, n + 1, a, c)
  {
    hide After, OwnsActive;
  }

  /** Every send, receive, upgrade and pushed read that touches a stream is on behalf of an
      actor that owned the connection while it was active at some earlier moment of the run,
      whatever transfers happened since. */
  lemma Authority(run: seq<Step>, n: nat, a: ActorId, c: ConnId)
    requires After(run).Some? && n < |run|
    requires Continues(run[n]).Some? && ActsFor(Continues(run[n]).value, a, c)
    ensures HasOwned(run, n, a, c)
  {
    hide TableAfter, Starts, ActsFor, Apply, After, HasOwned;
    PrefixRuns(run, n);
    TasksOfOwners(run, n, Continues(run[n]).value, a, c);
  }

  /** The owner according to the transfers alone: each moves the connection if it is issued by
      the owner of the moment. */
  function OwnerAfter(owner: ActorId, steps: seq<Step>, c: ConnId): (o: ActorId) {
    if steps == [] then owner
    else
      var before, e := OwnerAfter(owner, steps[..|steps| - 1], c), steps[|steps| - 1];
      if e.Transfer? && e.c == c && e.a == before then e.target else before
  }

  lemma StepOwner(s: State, e: Step, c: ConnId)
    requires Inv(s) && Enabled(s, e)
    requires c in s.table.connections && c in TableAfter(s.table, e).connections
    ensures TableAfter(s.table, e).connections[c].owner == OwnerAfter(s.table.connections[c].owner, [e], c)
  {
    hide TaskOk;
    assert [e][..0] == [];
    assert EntryOk(s.table, c);
  }

  /** Ownership changes only by transfers issued by the owner: between two moments at which it
      is mapped, the owner of a connection is what the transfers in between make it. */
  lemma {:induction false} OwnerExactly(run: seq<Step>, i: nat, j: nat, c: ConnId)
    requires After(run).Some? && i <= j <= |run|
    requires c in TableAt(run, i).connections && c in TableAt(run, j).connections
    ensures TableAt(run, j).connections[c].owner == OwnerAfter(TableAt(run, i).connections[c].owner, run[i..j], c)
    decreases j
  {
    hide TableAfter, Inv, Enabled, After;
    if i < j {
      TableStep(run, j - 1);
      MappedBetween(run, i, j - 1, j, c);
      OwnerExactly(run, i, j - 1, c);
      StepOwner(After(run[..j - 1]).value, run[j - 1], c);
      assert run[i..j][..|run[i..j]| - 1] == run[i..j - 1];
      assert [run[j - 1]][..0] == [];
    } else {
      assert run[i..j] == [];
    }
  }

  // ----- Readable streams -----

  /** Step `k` of the run is a handshake on the plain stream of `c` that fails. */
  predicate UpgradeFailsAt(run: seq<Step>, k: nat, c: ConnId)
    requires After(run).Some?
  {
    && k < |run| && run[k].Upgrade? && run[k].c == c && !run[k].ok
    && c in TableAt(run, k).streams && TableAt(run, k).streams[c] == Full(false)
  }

  lemma FullStep(s: State, e: Step, c: ConnId)
    requires Inv(s) && Enabled(s, e)
    requires c in s.table.connections && c in s.table.streams && c in TableAfter(s.table, e).connections
    ensures c in TableAfter(s.table, e).streams
    ensures TableAfter(s.table, e).streams[c].Full? <==>
      && s.table.streams[c].Full?
      && !(e.SetActive? && e.c == c && Splits(s.table, e.a, c, e.mode, e.handle))
      && !(e.Upgrade? && e.c == c && !e.ok && s.table.streams[c] == Full(false))
  {
    if Continues(e).Some? { assert TaskOk(s.table, Continues(e).value); }
  }

  lemma UpgradeFailsMeans(run: seq<Step>, k: nat, c: ConnId)
    requires After(run).Some? && k < |run|
    ensures UpgradeFailsAt(run, k, c) <==>
      && run[k].Upgrade? && run[k].c == c && !run[k].ok
      && c in TableAt(run, k).streams && TableAt(run, k).streams[c] == Full(false)
  {
  }

  /** While it is mapped, a connection can be read exactly when it was never split and no
      handshake on it failed. */
  lemma {:induction false} ReadableExactly(run: seq<Step>, n: nat, c: ConnId)
    requires After(run).Some? && n <= |run| && c in TableAt(run, n).connections
    ensures c in TableAt(run, n).streams
    ensures TableAt(run, n).streams[c].Full? <==>
      forall k: nat :: k < n ==> !SplitAt(run, k, c) && !UpgradeFailsAt(run, k, c)
  {
    hide TableAfter, Inv, Enabled, SplitAt, UpgradeFailsAt, After, Splits;
    PrefixRuns(run, n);
    RunKeepsInv(run[..n]);
    KnownBelow(After(run[..n]).value, c);
    if n == 0 {
      NothingMapped(run);
    } else {
      TableStep(run, n - 1);
      var s := After(run[..n - 1]).value;
      SplitAtMeans(run, n - 1, c);
      UpgradeFailsMeans(run, n - 1, c);
      if c in s.table.connections {
        KnownBelow(s, c);
        ReadableExactly(run, n - 1, c);
        FullStep(s, run[n - 1], c);
      } else {
        FreshInsert(s, run[n - 1], c);
        forall k: nat | k < n
          ensures !SplitAt(run, k, c) && !UpgradeFailsAt(run, k, c)
        {
          SplitAtMeans(run, k, c);
          UpgradeFailsMeans(run, k, c);
          if SplitAt(run, k, c) || UpgradeFailsAt(run, k, c) {
            StreamsPersist(run, k, n - 1, c);
          }
        }
      }
    }
  }

  /** A handshake that fails finds the stream whole, and so no split comes before or after it. */
  lemma SplitOrFailed(run: seq<Step>, i: nat, j: nat, c: ConnId)
    requires After(run).Some? && SplitAt(run, i, c)
    ensures !UpgradeFailsAt(run, j, c)
  {
    hide After, Inv, Enabled;
    if j < |run| && UpgradeFailsAt(run, j, c) {
      if i < j {
        NotWholeAfterSplit(run, i, j, c);
      } else if j < i {
        TableStep(run, j);
        StreamsPersist(run, j + 1, i, c);
      }
    }
  }

  /** While it is mapped, a connection can be sent on exactly when no handshake on it failed;
      a split does not stand in the way. */
  lemma SendableExactly(run: seq<Step>, n: nat, c: ConnId)
    requires After(run).Some? && n <= |run| && c in TableAt(run, n).connections
    ensures c in TableAt(run, n).streams
    ensures SendReply(TableAt(run, n), c) == Done <==> forall k: nat :: k < n ==> !UpgradeFailsAt(run, k, c)
  {
    hide After, SplitAt, UpgradeFailsAt;
    ReadableExactly(run, n, c);
    WriteOnlyExactly(run, n, c);
    if i: nat :| i < n && SplitAt(run, i, c) {
      forall k: nat | k < n
        ensures !UpgradeFailsAt(run, k, c)
      {
        SplitOrFailed(run, i, k, c);
      }
    }
  }

  // ----- Acting on what has changed hands -----

  /** Task `k` goes on acting for `a` on connection `c` without checking the owner again. */
  predicate Behind(k: Task, a: ActorId, c: ConnId) {
    match k
    case ReadLoop(a', c', _) => a == a' && c == c'
    case OnceDone(a', c') => a == a' && c == c'
    case HandleConnection(a', c') => a == a' && c == c'
    case TransferCall(a', c') => a == a' && c == c'
    case Cleaning(a', ids) => a == a' && c in ids
    case _ => false
  }

  /** The step from which task `k` got connection `c`: the split for a read loop, the insert
      for the callback on an accepted connection, the transfer for the target's callback, the
      collection for a cleanup. */
  predicate Origin(run: seq<Step>, i: nat, k: Task, a: ActorId, c: ConnId)
    requires After(run).Some?
  {
    && i < |run|
    && match k
       case ReadLoop(_, _, _) => SplitAt(run, i, c) && run[i].a == a
       case OnceDone(_, _) => SplitAt(run, i, c) && run[i].a == a
       case HandleConnection(_, _) => run[i].Insert? && run[i].c == c && run[i].a == a && run[i].state == Pending
       case TransferCall(_, _) =>
         && run[i].Transfer? && run[i].c == c && run[i].target == a && run[i].detached
         && Transferred(TableAt(run, i), run[i].a, c, a).1 == Done
       case Cleaning(_, _) => run[i] == Collect(a) && c in OwnedBy(TableAt(run, i), a)
       case _ => false
  }

  /** Right after its origin, the connection belongs to the actor that is acted for. */
  lemma OriginOwns(run: seq<Step>, i: nat, k: Task, a: ActorId, c: ConnId)
    requires After(run).Some? && Origin(run, i, k, a, c)
    ensures i < |run| && c in TableAt(run, i + 1).connections && TableAt(run, i + 1).connections[c].owner == a
  {
    hide After, Inv, Enabled;
    TableStep(run, i);
  }

  /** What is started comes from this step, or from what this step continues. */
  lemma OriginStep(run: seq<Step>, n: nat, k: Task, a: ActorId, c: ConnId)
    requires After(run).Some? && n < |run|
    requires k in Starts(TableAt(run, n), run[n]) && Behind(k, a, c)
    ensures || Origin(run, n, k, a, c)
            || (&& Continues(run[n]).Some? && Behind(Continues(run[n]).value, a, c)
                && (Continues(run[n]).value.ReadLoop? || Continues(run[n]).value.Cleaning?)
                && (k.Cleaning? <==> Continues(run[n]).value.Cleaning?)
                && (k.ReadLoop? || k.OnceDone? || k.Cleaning?))
  {
    hide After, Starts, Transferred, OwnedBy, Splits;
    StartKinds(TableAt(run, n), run[n], k);
  }

  lemma StartKinds(t: Table, e: Step, k: Task)
    requires k in Starts(t, e)
    ensures match k
      case ReadLoop(a, c, once) =>
        || (e.SetActive? && e.c == c && e.a == a && Splits(t, a, c, e.mode, e.handle))
        || e == ReadData(a, c, once)
      case OnceDone(a, c) => e == ReadData(a, c, true)
      case HandleConnection(a, c) => e.Insert? && e.c == c && e.a == a && e.state == Pending
      case TransferCall(a, c) =>
        e.Transfer? && e.c == c && e.target == a && e.detached && Transferred(t, e.a, c, a).1 == Done
      case Cleaning(a, ids) =>
        (e == Collect(a) && ids == OwnedBy(t, a)) || (e.CleanNext? && e.a == a && ids <= e.ids)
      case _ => true
  {
    hide Transferred, OwnedBy, Splits, ClosedBy, Checked;
  }

  lemma OriginAlike(run: seq<Step>, i: nat, k: Task, k': Task, a: ActorId, c: ConnId)
    requires After(run).Some? && Origin(run, i, k, a, c)
    requires (k.Cleaning? && k'.Cleaning?) || (k.ReadLoop? && (k'.ReadLoop? || k'.OnceDone?))
    ensures Origin(run, i, k', a, c)
  {
    hide After;
  }

  lemma {:induction false} HasOrigin(run: seq<Step>, n: nat, k: Task, a: ActorId, c: ConnId) returns (i: nat)
    requires After(run).Some? && n <= |run| && Behind(k, a, c)
    requires After(run[..n]).Some? && k in After(run[..n]).value.tasks
    ensures i < n && Origin(run, i, k, a, c)
  {
    hide TableAfter, Starts, Behind, Origin, After, Enabled;
    if n == 0 {
      NothingMapped(run);
    } else {
      PrefixRuns(run, n - 1);
      var s, e := After(run[..n - 1]).value, run[n - 1];
      if k in s.tasks {
        i := HasOrigin(run, n - 1, k, a, c);
      } else {
        assert k in Starts(s.table, e);
        OriginStep(run, n - 1, k, a, c);
        if Origin(run, n - 1, k, a, c) {
          i := n - 1;
        } else {
          ContinuesEnabled(s, e);
          var k' := Continues(e).value;
          i := HasOrigin(run, n - 1, k', a, c);
          OriginAlike(run, i, k', k, a, c);
        }
      }
    }
  }

  /** Steps by which tasks act on a connection without asking who owns it now. */
  predicate ActsOn(e: Step, a: ActorId, c: ConnId) {
    && (e.ReadData? || Unmaps(e))
    && Continues(e).Some? && Behind(Continues(e).value, a, c) && e.c == c
  }

  predicate Unmaps(e: Step) {
    e.ReadEnd? || e.CleanNext? || e.ConnectionCallFailed? || e.TransferCallFailed?
  }

  /** Whenever a task acts on a mapped connection, it does so for the owner of the moment
      exactly when the transfers since its origin have left the connection with its actor. */
  lemma ActsForOwnerExactly(run: seq<Step>, j: nat, a: ActorId, c: ConnId) returns (i: nat)
    requires After(run).Some? && j < |run| && ActsOn(run[j], a, c) && c in TableAt(run, j).connections
    ensures i < j && Origin(run, i, Continues(run[j]).value, a, c)
    ensures TableAt(run, j).connections[c].owner == a <==> OwnerAfter(a, run[i + 1..j], c) == a
  {
    hide TableAfter, Starts, Behind, Origin, After, Apply, OwnerAfter;
    PrefixRuns(run, j);
    ContinuesEnabled(After(run[..j]).value, run[j]);
    i := HasOrigin(run, j, Continues(run[j]).value, a, c);
    OriginOwns(run, i, Continues(run[j]).value, a, c);
    OwnerExactly(run, i + 1, j, c);
  }

  /** Every removal that is not a close by the owner: it takes away somebody else's connection
      if and only if the transfers since the removing task's origin have moved it. */
  lemma RemovesForeignExactly(run: seq<Step>, j: nat, a: ActorId, c: ConnId) returns (i: nat)
    requires After(run).Some? && j < |run| && Unmaps(run[j]) && ActsOn(run[j], a, c)
    requires c in TableAt(run, j).connections
    ensures i < j && Origin(run, i, Continues(run[j]).value, a, c)
    ensures c !in TableAt(run, j + 1).connections
    ensures TableAt(run, j).connections[c].owner != a <==> OwnerAfter(a, run[i + 1..j], c) != a
  {
    hide After, Inv, Enabled, OwnerAfter, Origin, Behind, TableAfter;
    i := ActsForOwnerExactly(run, j, a, c);
    TableStep(run, j);
    UnmapsGone(TableAt(run, j), run[j]);
  }

  lemma UnmapsGone(t: Table, e: Step)
    requires Unmaps(e)
    ensures e.c !in TableAfter(t, e).connections
  {
  }

  /** Data that a read loop pushes goes to the actor that split the stream, which is the owner
      of the moment if and only if the transfers since the split have left it so. */
  lemma PushedToOwnerExactly(run: seq<Step>, j: nat, a: ActorId, c: ConnId, once: bool) returns (i: nat)
    requires After(run).Some? && j < |run| && run[j] == ReadData(a, c, once) && c in TableAt(run, j).connections
    ensures i < j && SplitAt(run, i, c) && run[i].a == a
    ensures TableAt(run, j).connections[c].owner == a <==> OwnerAfter(a, run[i + 1..j], c) == a
  {
    i := ActsForOwnerExactly(run, j, a, c);
  }

  /** A connection leaves the map only by a close of its owner or by one of those removals. */
  lemma LeavesOnlyBy(run: seq<Step>, j: nat, c: ConnId)
    requires After(run).Some? && j < |run|
    requires c in TableAt(run, j).connections && c !in TableAt(run, j + 1).connections
    ensures || (Unmaps(run[j]) && exists a :: ActsOn(run[j], a, c))
            || (run[j].Close? && run[j].c == c && run[j].a == TableAt(run, j).connections[c].owner)
  {
    hide After, Inv;
    TableStep(run, j);
    if Unmaps(run[j]) {
      assert ActsOn(run[j], run[j].a, c);
    }
  }

  // ----- After a cleanup -----

  predicate Owns(t: Table, a: ActorId, c: ConnId) {
    c in t.connections && t.connections[c].owner == a
  }

  /** Step `k` gives connection `c` to `a`: an insert for it, or a transfer to it. */
  predicate AcquiresAt(run: seq<Step>, k: nat, a: ActorId, c: ConnId)
    requires After(run).Some?
  {
    k < |run| && Acquires(TableAt(run, k), run[k], a, c)
  }

  predicate Acquires(t: Table, e: Step, a: ActorId, c: ConnId) {
    || (e.Insert? && e.c == c && e.a == a)
    || (e.Transfer? && e.c == c && e.target == a && Transferred(t, e.a, c, a).1 == Done)
  }

  lemma OwnsStep(t: Table, e: Step, a: ActorId, c: ConnId)
    requires e.Upgrade? ==> e.c in t.streams
    ensures Acquires(t, e, a, c) ==> Owns(TableAfter(t, e), a, c)
    ensures Owns(TableAfter(t, e), a, c) && !Acquires(t, e, a, c) ==> Owns(t, a, c)
  {
  }

  lemma {:induction false} OwnedSince(run: seq<Step>, i: nat, n: nat, a: ActorId, c: ConnId)
    requires After(run).Some? && i <= n <= |run| && Owns(TableAt(run, n), a, c)
    requires forall k: nat :: i <= k < n ==> !AcquiresAt(run, k, a, c)
    ensures Owns(TableAt(run, i), a, c)
    decreases n
  {
    hide After, TableAfter, Acquires, Owns, Inv;
    if i < n {
      TableStep(run, n - 1);
      OwnsStep(TableAt(run, n - 1), run[n - 1], a, c);
      assert !AcquiresAt(run, n - 1, a, c);
      OwnedSince(run, i, n - 1, a, c);
    }
  }

  /** A cleanup that still has `c` to remove is under way. */
  ghost predicate CleaningFor(s: State, a: ActorId, c: ConnId) {
    exists ids :: c in ids && Cleaning(a, ids) in s.tasks
  }

  lemma CleaningStep(s: State, e: Step, a: ActorId, c: ConnId)
    requires Enabled(s, e) && CleaningFor(s, a, c)
    ensures CleaningFor(Apply(s, e), a, c) || c !in Apply(s, e).table.connections
  {
    var ids :| c in ids && Cleaning(a, ids) in s.tasks;
    if e.CleanNext? && e.a == a && e.ids == ids {
      if e.c != c {
        assert Cleaning(a, ids - {e.c}) in Apply(s, e).tasks;
      }
    } else {
      assert Cleaning(a, ids) in Apply(s, e).tasks;
    }
  }

  /** What was collected and is still mapped is still to be removed. */
  lemma {:induction false} StillCleaning(run: seq<Step>, i: nat, n: nat, a: ActorId, c: ConnId)
    requires After(run).Some? && i < n <= |run| && run[i] == Collect(a)
    requires Owns(TableAt(run, i), a, c) && c in TableAt(run, n).connections
    ensures After(run[..n]).Some? && CleaningFor(After(run[..n]).value, a, c)
    decreases n
  {
    hide After, Inv, Enabled, Apply, CleaningFor, TableAfter;
    PrefixRuns(run, n - 1);
    var s := After(run[..n - 1]).value;
    if i == n - 1 {
      JustCollected(s, a, c);
    } else {
      MappedBetween(run, i, n - 1, n, c);
      StillCleaning(run, i, n - 1, a, c);
      CleaningStep(s, run[n - 1], a, c);
    }
  }

  lemma JustCollected(s: State, a: ActorId, c: ConnId)
    requires Enabled(s, Collect(a)) && Owns(s.table, a, c)
    ensures CleaningFor(Apply(s, Collect(a)), a, c)
  {
    assert Cleaning(a, OwnedBy(s.table, a)) in Apply(s, Collect(a)).tasks;
  }

  /** No cleanup of `a` has anything left to remove. */
  ghost predicate CleanupOver(s: State, a: ActorId) {
    forall ids :: Cleaning(a, ids) in s.tasks ==> ids == {}
  }

  /** In any interleaving: when the cleanup of `a` is over, what `a` owns is exactly what came to
      it after the collection, by an insert or a transfer, and has stayed with it. */
  lemma AfterCleanupExactly(run: seq<Step>, i: nat, n: nat, a: ActorId, c: ConnId)
    requires After(run).Some? && i < n <= |run| && run[i] == Collect(a)
    requires After(run[..n]).Some? && CleanupOver(After(run[..n]).value, a)
    ensures Owns(TableAt(run, n), a, c) <==>
      && c in TableAt(run, n).connections
      && exists k: nat :: i < k < n && AcquiresAt(run, k, a, c) && OwnerAfter(a, run[k + 1..n], c) == a
  {
    hide After, TableAfter, OwnerAfter, Acquires, Inv;
    if c in TableAt(run, n).connections {
      forall k: nat | i < k < n && AcquiresAt(run, k, a, c)
        ensures TableAt(run, n).connections[c].owner == OwnerAfter(a, run[k + 1..n], c)
      {
        TableStep(run, k);
        OwnsStep(TableAt(run, k), run[k], a, c);
        OwnerExactly(run, k + 1, n, c);
      }
      if Owns(TableAt(run, n), a, c) && forall k: nat :: i < k < n ==> !AcquiresAt(run, k, a, c) {
        NotAcquired(run, i, a, c);
        OwnedSince(run, i, n, a, c);
        StillCleaning(run, i, n, a, c);
      }
    }
  }

  lemma NotAcquired(run: seq<Step>, i: nat, a: ActorId, c: ConnId)
    requires After(run).Some? && i < |run| && run[i] == Collect(a)
    ensures !AcquiresAt(run, i, a, c)
  {
    hide After;
  }

  // ----- Failing cases -----

  /** An id taken before the collection and used after it: the actor is left with a connection
      when its cleanup is over. */
  lemma ReservedEscapes() returns (run: seq<Step>)
    ensures run == [Reserve(1, Active), Collect(1), Insert(1, 1, Active, false)]
    ensures After(run).Some? && CleanupOver(After(run).value, 1)
    ensures TableAt(run, 3).connections == map[1 := Entry(1, Active, Passive)]
  {
    hide After;
    NothingYet();
    var s1 := State(IdTaken(EMPTY), multiset{}, map[1 := Reservation(1, Active)]);
    var s2 := s1.(tasks := multiset{Cleaning(1, {})});
    assert OwnedBy(IdTaken(EMPTY), 1) == {};
    run := Then([], INIT, Reserve(1, Active), s1);
    run := Then(run, s1, Collect(1), s2);
    run := Then(run, s2, Insert(1, 1, Active, false), CONNECTED.(tasks := multiset{Cleaning(1, {})}));
    assert run[..3] == run;
  }

  lemma NothingYet()
    ensures After([]) == Some(INIT)
  {
  }

  lemma AfterSnoc(run: seq<Step>, e: Step)
    requires After(run).Some? && Enabled(After(run).value, e)
    ensures After(run + [e]) == Some(Apply(After(run).value, e))
  {
    hide Enabled, Apply;
    assert (run + [e])[..|run|] == run;
  }

  lemma Then(run: seq<Step>, s: State, e: Step, s': State) returns (run': seq<Step>)
    requires After(run) == Some(s) && Enabled(s, e)
    requires Apply(s, e).table.connections == s'.table.connections
    requires Apply(s, e).table.streams == s'.table.streams
    requires Apply(s, e).table.nextId == s'.table.nextId
    requires Apply(s, e).tasks == s'.tasks
    requires Apply(s, e).reserved == s'.reserved
    ensures run' == run + [e] && After(run') == Some(s')
  {
    run' := run + [e];
    AfterSnoc(run, e);
  }

  /** Actor 1 has connected under id 1. */
  const CONNECTED := State(Table(map[1 := Entry(1, Active, Passive)], map[1 := Full(false)], 2), multiset{}, map[])

  lemma Connected() returns (run: seq<Step>)
    ensures run == [Reserve(1, Active), Insert(1, 1, Active, false)]
    ensures After(run) == Some(CONNECTED)
  {
    hide After;
    NothingYet();
    var s := State(IdTaken(EMPTY), multiset{}, map[1 := Reservation(1, Active)]);
    run := Then([], INIT, Reserve(1, Active), s);
    run := Then(run, s, Insert(1, 1, Active, false), CONNECTED);
  }

  /** A connection handed on after the cleanup of its owner has collected it is removed. */
  lemma CleanupRace() returns (run: seq<Step>)
    ensures run == [Reserve(1, Active), Insert(1, 1, Active, false), Collect(1), Transfer(1, 1, 2, false),
                    CleanNext(1, {1}, 1)]
    ensures After(run).Some?
    ensures TableAt(run, 4).connections == map[1 := Entry(2, Active, Passive)]
    ensures TableAt(run, 5).connections == map[]
  {
    hide After, Apply, Enabled;
    run := Connected();
    var s1, s2, s3 := CleanupRaceSteps();
    run := Then(run, CONNECTED, Collect(1), s1);
    run := Then(run, s1, Transfer(1, 1, 2, false), s2);
    var before := run;
    run := Then(run, s2, CleanNext(1, {1}, 1), s3);
    assert run[..4] == before && run[..5] == run;
  }

  lemma CleanupRaceSteps() returns (s1: State, s2: State, s3: State)
    ensures Enabled(CONNECTED, Collect(1)) && Apply(CONNECTED, Collect(1)) == s1
    ensures Enabled(s1, Transfer(1, 1, 2, false)) && Apply(s1, Transfer(1, 1, 2, false)) == s2
    ensures Enabled(s2, CleanNext(1, {1}, 1)) && Apply(s2, CleanNext(1, {1}, 1)) == s3
    ensures s2.table.connections == map[1 := Entry(2, Active, Passive)]
    ensures s3.table.connections == map[]
  {
    assert OwnedBy(CONNECTED.table, 1) == {1};
    s1 := Apply(CONNECTED, Collect(1));
    s2 := Apply(s1, Transfer(1, 1, 2, false));
    s3 := Apply(s2, CleanNext(1, {1}, 1));
  }

  /** A pushing connection is handed on; the old owner's read loop, cancelled or at the end of
      the stream, removes it from its new owner. */
  lemma ReadLoopRace() returns (run: seq<Step>)
    ensures run == [Reserve(1, Active), Insert(1, 1, Active, false), SetActive(1, 1, Pushing, true),
                    Transfer(1, 1, 2, false), ReadEnd(1, 1, false)]
    ensures After(run).Some?
    ensures TableAt(run, 4).connections == map[1 := Entry(2, Active, Pushing)]
    ensures TableAt(run, 5).connections == map[]
  {
    hide After, Apply, Enabled;
    run := Connected();
    var s1, s2, s3 := ReadLoopRaceSteps();
    run := Then(run, CONNECTED, SetActive(1, 1, Pushing, true), s1);
    run := Then(run, s1, Transfer(1, 1, 2, false), s2);
    var before := run;
    run := Then(run, s2, ReadEnd(1, 1, false), s3);
    assert run[..4] == before && run[..5] == run;
  }

  lemma SplitByOne(mode: DataMode) returns (s: State)
    requires mode != Passive
    ensures Enabled(CONNECTED, SetActive(1, 1, mode, true)) && Apply(CONNECTED, SetActive(1, 1, mode, true)) == s
    ensures s.table.connections == map[1 := Entry(1, Active, mode)]
    ensures s.table.streams == map[1 := WriteOnly]
    ensures s.tasks == multiset{ReadLoop(1, 1, mode == Once)}
  {
    s := Apply(CONNECTED, SetActive(1, 1, mode, true));
  }

  lemma ReadLoopRaceSteps() returns (s1: State, s2: State, s3: State)
    ensures Enabled(CONNECTED, SetActive(1, 1, Pushing, true)) && Apply(CONNECTED, SetActive(1, 1, Pushing, true)) == s1
    ensures Enabled(s1, Transfer(1, 1, 2, false)) && Apply(s1, Transfer(1, 1, 2, false)) == s2
    ensures Enabled(s2, ReadEnd(1, 1, false)) && Apply(s2, ReadEnd(1, 1, false)) == s3
    ensures s2.table.connections == map[1 := Entry(2, Active, Pushing)]
    ensures s3.table.connections == map[]
  {
    s1 := SplitByOne(Pushing);
    s2 := Apply(s1, Transfer(1, 1, 2, false));
    s3 := Apply(s2, ReadEnd(1, 1, false));
  }

  /** A passive connection that passes the check before a receive and cannot be read: what a
      finished "once" read leaves behind. */
  lemma OnceLeavesUnreadable() returns (run: seq<Step>)
    ensures run == [Reserve(1, Active), Insert(1, 1, Active, false), SetActive(1, 1, Once, true),
                    ReadData(1, 1, true), OnceFinish(1, 1)]
    ensures After(run).Some?
    ensures Checked(TableAt(run, 5), 1, 1, true) == Done
    ensures TableAt(run, 5).streams == map[1 := WriteOnly]
  {
    hide After, Apply, Enabled;
    run := Connected();
    var s1, s2, s3 := OnceSteps();
    run := Then(run, CONNECTED, SetActive(1, 1, Once, true), s1);
    run := Then(run, s1, ReadData(1, 1, true), s2);
    run := Then(run, s2, OnceFinish(1, 1), s3);
    assert run[..5] == run;
  }

  lemma OnceSteps() returns (s1: State, s2: State, s3: State)
    ensures Enabled(CONNECTED, SetActive(1, 1, Once, true)) && Apply(CONNECTED, SetActive(1, 1, Once, true)) == s1
    ensures Enabled(s1, ReadData(1, 1, true)) && Apply(s1, ReadData(1, 1, true)) == s2
    ensures Enabled(s2, OnceFinish(1, 1)) && Apply(s2, OnceFinish(1, 1)) == s3
    ensures Checked(s3.table, 1, 1, true) == Done
    ensures s3.table.streams == map[1 := WriteOnly]
  {
    s1 := SplitByOne(Once);
    s2 := Apply(s1, ReadData(1, 1, true));
    s3 := Apply(s2, OnceFinish(1, 1));
  }
}
