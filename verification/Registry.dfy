/** The theater runtime's command loop over its tables of actors and chains. Commands are
    handled one at a time; the tasks that shut an actor down on its own request run detached
    and report back with a command of their own, at any later time, however often. Setup
    outcomes are facts of the environment that come with the command. Identifiers are handed
    out by a counter, which like the generator it stands for never repeats one. */
module Registry {
  import opened Prelude

  type ActorId = nat

  datatype Command =
    | Spawn(supervised: bool, ready: bool)
    | Stop(id: ActorId)
    | Terminate(id: ActorId)
    | ShuttingDown(id: ActorId)
    | ShutdownComplete(id: ActorId)
    | ActorFailed(id: ActorId)
    | Query
    | ShutdownRuntime

  datatype NoticeKind = Success | ExternalStop | Failure

  /** What the runtime does to the outside, in order. */
  datatype Effect =
    | Registered(id: ActorId)
    | Notice(id: ActorId, kind: NoticeKind)        // issued to the supervisor
    | EventRecorded(id: ActorId)                   // "shutdown" appended to the chain
    | StopRequested(id: ActorId)                   // sent to the actor's control channel
    | HandlersSignalled(id: ActorId)

  datatype State = State(actors: map<ActorId, bool>, chains: set<ActorId>, nextId: nat,
                         log: seq<Effect>, running: bool)

  const INITIAL := State(map[], {}, 0, [], true)

  // ----- One command, as a function -----

  function Spawned(s: State, supervised: bool, ready: bool): (result: State) {
    var id := s.nextId;
    var s1 := s.(nextId := id + 1, chains := s.chains + {id});
    if ready then s1.(actors := s.actors[id := supervised], log := s.log + [Registered(id)]) else s1
  }

  function Stopped(s: State, id: ActorId): (result: State) {
    if id !in s.actors then s
    else s.(actors := s.actors - {id}, chains := s.chains - {id},
            log := s.log + (if id in s.chains then [EventRecorded(id)] else []) + [StopRequested(id), HandlersSignalled(id)])
  }

  function Notified(s: State, id: ActorId, kind: NoticeKind): (result: State) {
    if id in s.actors && s.actors[id] then s.(log := s.log + [Notice(id, kind)]) else s
  }

  function ShutdownBegun(s: State, id: ActorId): (result: State) {
    var s1 := Notified(s, id, Success);
    if id in s1.actors then s1.(log := s1.log + [StopRequested(id)]) else s1
  }

  function ShutdownCompleted(s: State, id: ActorId): (result: State) {
    var s1 := if id in s.actors then s.(actors := s.actors - {id}, log := s.log + [HandlersSignalled(id)]) else s;
    s1.(chains := s1.chains - {id}, running := s1.actors != map[])
  }

  function Process(s: State, cmd: Command): (result: State) {
    if !s.running then s
    else
      match cmd
      case Spawn(supervised, ready) => Spawned(s, supervised, ready)
      case Stop(id) => Stopped(Notified(s, id, ExternalStop), id)
      case Terminate(id) => Stopped(s, id)
      case ShuttingDown(id) => ShutdownBegun(s, id)
      case ShutdownComplete(id) => ShutdownCompleted(s, id)
      case ActorFailed(id) => Stopped(Notified(s, id, Failure), id)
      case Query => s
      case ShutdownRuntime => s.(running := false)
  }

  function After(h: seq<Command>): (result: State) {
    if h == [] then INITIAL else Process(After(h[..|h| - 1]), h[|h| - 1])
  }

  // ----- The runtime, updated in place -----

  class TheaterRuntime {
    var actors: map<ActorId, bool>
    var chains: set<ActorId>
    var nextId: nat
    var log: seq<Effect>
    var running: bool

    ghost function View(): (result: State)
      reads this
    {
      State(actors, chains, nextId, log, running)
    }

    constructor ()
      ensures View() == INITIAL
    {
      actors, chains, nextId, log, running := map[], {}, 0, [], true;
    }

    method Emit(e: Effect)
      modifies this`log
      ensures log == old(log) + [e]
    {
      log := log + [e];
    }

    method SpawnActor(supervised: bool, ready: bool) returns (id: Option<ActorId>)
      modifies this
      ensures View() == Spawned(old(View()), supervised, ready)
      ensures id == if ready then Some(old(nextId)) else None
    {
      var created := nextId;
      nextId := nextId + 1;
      chains := chains + {created};
      if !ready {
        return None;
      }
      actors := actors[created := supervised];
      Emit(Registered(created));
      return Some(created);
    }

    method StopActor(id: ActorId)
      modifies this
      ensures View() == Stopped(old(View()), id)
    {
      if id !in actors {
        return;
      }
      if id in chains {
        Emit(EventRecorded(id));
      }
      chains := chains - {id};
      Emit(StopRequested(id));
      actors := actors - {id};
      Emit(HandlersSignalled(id));
    }

    method Notify(id: ActorId, kind: NoticeKind)
      modifies this`log
      ensures View() == Notified(old(View()), id, kind)
    {
      if id in actors {
        if actors[id] {
          Emit(Notice(id, kind));
        }
      }
    }

    method CompleteShutdown(id: ActorId)
      modifies this
      ensures View() == ShutdownCompleted(old(View()), id)
    {
      if id in actors {
        actors := actors - {id};
        Emit(HandlersSignalled(id));
      }
      chains := chains - {id};
      running := actors != map[];
    }

    method Handle(cmd: Command)
      requires running
      modifies this
      ensures View() == Process(old(View()), cmd)
    {
      match cmd {
        case Spawn(supervised, ready) => var _ := SpawnActor(supervised, ready);
        case Stop(id) =>
          Notify(id, ExternalStop);
          StopActor(id);
        case Terminate(id) => StopActor(id);
        case ShuttingDown(id) =>
          Notify(id, Success);
          if id in actors {
            Emit(StopRequested(id));
          }
        case ShutdownComplete(id) => CompleteShutdown(id);
        case ActorFailed(id) =>
          Notify(id, Failure);
          StopActor(id);
        case Query =>
        case ShutdownRuntime => running := false;
      }
    }

    /** Work off the queue until it is empty or the loop breaks; `n` commands are handled. */
    method Run(queue: seq<Command>) returns (n: nat)
      requires View() == INITIAL
      modifies this
      ensures n <= |queue| && Processed(queue[..n])
      ensures View() == After(queue[..n])
      ensures n < |queue| ==> !running
    {
      hide Process;
      n := 0;
      assert queue[..0] == [];
      while running && n < |queue|
        invariant n <= |queue| && Processed(queue[..n])
        invariant View() == After(queue[..n])
        decreases |queue| - n
      {
        assert queue[..n + 1][..n] == queue[..n];
        Handle(queue[n]);
        n := n + 1;
      }
    }
  }

  // ----- What the history of commands says, without any tables -----

  /** Every command of `h` was handled: the loop was still running before the last one. */
  predicate Processed(h: seq<Command>) {
    h != [] ==> After(h[..|h| - 1]).running
  }

  function Spawns(h: seq<Command>): (result: nat) {
    if h == [] then 0 else Spawns(h[..|h| - 1]) + (if h[|h| - 1].Spawn? then 1 else 0)
  }

  /** Command `k` creates the actor `id`. */
  predicate CreatesAt(h: seq<Command>, k: nat, id: ActorId) {
    k < |h| && h[k].Spawn? && Spawns(h[..k]) == id
  }

  predicate Removes(cmd: Command, id: ActorId) {
    (cmd.Stop? || cmd.Terminate? || cmd.ShutdownComplete? || cmd.ActorFailed?) && cmd.id == id
  }

  ghost predicate LiveSince(h: seq<Command>, k: nat, id: ActorId) {
    && CreatesAt(h, k, id) && h[k].ready
    && forall j :: k < j < |h| ==> !Removes(h[j], id)
  }

  /** A spawn that failed after its chain was entered, and that nobody has reported complete. */
  ghost predicate LeftoverSince(h: seq<Command>, k: nat, id: ActorId) {
    && CreatesAt(h, k, id) && !h[k].ready
    && forall j :: k < j < |h| ==> h[j] != ShutdownComplete(id)
  }

  ghost predicate ActorAgrees(h: seq<Command>, s: State, id: ActorId) {
    && (id in s.actors ==> exists k: nat :: LiveSince(h, k, id))
    && (forall k: nat :: LiveSince(h, k, id) ==> id in s.actors && s.actors[id] == h[k].supervised)
  }

  ghost predicate ActorsAgree(h: seq<Command>, s: State) {
    s.nextId == Spawns(h) && forall id :: ActorAgrees(h, s, id)
  }

  ghost predicate ChainsAgree(h: seq<Command>, s: State) {
    forall id :: id in s.chains <==> id in s.actors || exists k: nat :: LeftoverSince(h, k, id)
  }

  // ----- The tables are what the history says -----

  lemma {:induction false} SpawnsGrow(h: seq<Command>, j: nat, k: nat)
    requires j <= k <= |h|
    ensures Spawns(h[..j]) <= Spawns(h[..k])
    ensures j < k && h[j].Spawn? ==> Spawns(h[..j]) < Spawns(h[..k])
  {
    if j < k {
      SpawnsGrow(h, j, k - 1);
      assert h[..k][..k - 1] == h[..k - 1];
    }
  }

  lemma CreatedOnce(h: seq<Command>, j: nat, k: nat, id: ActorId)
    requires CreatesAt(h, j, id) && CreatesAt(h, k, id)
    ensures j == k
  {
    if j < k {
      SpawnsGrow(h, j, k);
    } else if k < j {
      SpawnsGrow(h, k, j);
    }
  }

  lemma CreatedBelow(h: seq<Command>, k: nat, id: ActorId)
    requires CreatesAt(h, k, id)
    ensures id < Spawns(h)
  {
    SpawnsGrow(h, k, |h|);
    assert h[..|h|] == h;
  }

  lemma CreatesSnoc(h: seq<Command>, cmd: Command, k: nat, id: ActorId)
    requires k <= |h|
    ensures CreatesAt(h + [cmd], k, id) <==>
            if k < |h| then CreatesAt(h, k, id) else cmd.Spawn? && id == Spawns(h)
  {
    assert (h + [cmd])[..k] == h[..k];
    assert h[..|h|] == h;
  }

  lemma LiveSnoc(h: seq<Command>, cmd: Command, k: nat, id: ActorId)
    requires k <= |h|
    ensures LiveSince(h + [cmd], k, id) <==>
            if k < |h| then LiveSince(h, k, id) && !Removes(cmd, id)
            else cmd.Spawn? && cmd.ready && id == Spawns(h)
  {
    hide CreatesAt, Removes, Spawns;
    var h' := h + [cmd];
    CreatesSnoc(h, cmd, k, id);
    if k < |h| {
      assert h'[k] == h[k] && h'[|h|] == cmd;
      assert forall j :: k < j < |h| ==> h'[j] == h[j];
    }
  }

  lemma LeftoverSnoc(h: seq<Command>, cmd: Command, k: nat, id: ActorId)
    requires k <= |h|
    ensures LeftoverSince(h + [cmd], k, id) <==>
            if k < |h| then LeftoverSince(h, k, id) && cmd != ShutdownComplete(id)
            else cmd.Spawn? && !cmd.ready && id == Spawns(h)
  {
    hide CreatesAt, Spawns;
    var h' := h + [cmd];
    CreatesSnoc(h, cmd, k, id);
    if k < |h| {
      assert h'[k] == h[k] && h'[|h|] == cmd;
      assert forall j :: k < j < |h| ==> h'[j] == h[j];
    }
  }

  /** How one command moves the actor table and the identifiers. */
  lemma ActorsMove(s: State, cmd: Command, id: ActorId)
    requires s.running
    ensures Process(s, cmd).nextId == s.nextId + (if cmd.Spawn? then 1 else 0)
    ensures var s' := Process(s, cmd);
            var created := cmd.Spawn? && cmd.ready && id == s.nextId;
            && (id in s'.actors <==> created || (id in s.actors && !Removes(cmd, id)))
            && (id in s'.actors ==> s'.actors[id] == if created then cmd.supervised else s.actors[id])
  {
  }

  lemma ActorStep(h: seq<Command>, cmd: Command, s: State, id: ActorId)
    requires s.running && s.nextId == Spawns(h) && ActorAgrees(h, s, id)
    ensures ActorAgrees(h + [cmd], Process(s, cmd), id)
  {
    hide Process, LiveSince, Removes, Spawns;
    var h' := h + [cmd];
    ActorsMove(s, cmd, id);
    LiveSnoc(h, cmd, |h|, id);
    if k: nat :| LiveSince(h, k, id) {
      LiveInside(h, k, id);
      LiveSnoc(h, cmd, k, id);
    }
    forall k: nat | LiveSince(h', k, id)
      ensures k < |h'| && h'[k].Spawn?
      ensures id in Process(s, cmd).actors && Process(s, cmd).actors[id] == h'[k].supervised
    {
      LiveInside(h', k, id);
      LiveSnoc(h, cmd, k, id);
      if k < |h| {
        LiveInside(h, k, id);
      }
    }
  }

  lemma ActorsStep(h: seq<Command>, cmd: Command, s: State)
    requires s.running && ActorsAgree(h, s)
    ensures ActorsAgree(h + [cmd], Process(s, cmd))
  {
    hide Process, ActorAgrees;
    assert (h + [cmd])[..|h|] == h;
    ActorsMove(s, cmd, 0);
    forall id
      ensures ActorAgrees(h + [cmd], Process(s, cmd), id)
    {
      ActorStep(h, cmd, s, id);
    }
  }

  lemma LiveInside(h: seq<Command>, k: nat, id: ActorId)
    requires LiveSince(h, k, id)
    ensures k < |h| && h[k].Spawn? && id < Spawns(h)
  {
    CreatedBelow(h, k, id);
  }

  lemma LeftoverInside(h: seq<Command>, k: nat, id: ActorId)
    requires LeftoverSince(h, k, id)
    ensures k < |h| && id < Spawns(h)
    ensures forall j: nat :: !LiveSince(h, j, id)
  {
    CreatedBelow(h, k, id);
    forall j: nat | CreatesAt(h, j, id)
      ensures j == k
    {
      CreatedOnce(h, j, k, id);
    }
  }

  lemma ChainsMove(s: State, cmd: Command, id: ActorId)
    requires s.running
    ensures id in Process(s, cmd).chains <==>
            || (cmd.Spawn? && id == s.nextId)
            || (id in s.chains && cmd != ShutdownComplete(id) && !(id in s.actors && Removes(cmd, id)))
  {
  }

  lemma ChainsStep(h: seq<Command>, cmd: Command, s: State)
    requires s.running && ActorsAgree(h, s) && ChainsAgree(h, s)
    ensures ChainsAgree(h + [cmd], Process(s, cmd))
  {
    hide Process, LiveSince, LeftoverSince;
    var h', s' := h + [cmd], Process(s, cmd);
    forall id
      ensures id in s'.chains <==> id in s'.actors || exists k: nat :: LeftoverSince(h', k, id)
    {
      ActorsMove(s, cmd, id);
      ChainsMove(s, cmd, id);
      LeftoverMoves(h, cmd, id);
      assert ActorAgrees(h, s, id);
      if k: nat :| LeftoverSince(h, k, id) {
        LeftoverInside(h, k, id);
      }
    }
  }

  lemma LeftoverMoves(h: seq<Command>, cmd: Command, id: ActorId)
    ensures (exists k: nat :: LeftoverSince(h + [cmd], k, id)) <==>
            || (cmd.Spawn? && !cmd.ready && id == Spawns(h))
            || (cmd != ShutdownComplete(id) && exists k: nat :: LeftoverSince(h, k, id))
  {
    hide LeftoverSince, Spawns;
    LeftoverSnoc(h, cmd, |h|, id);
    if k: nat :| LeftoverSince(h, k, id) {
      LeftoverInside(h, k, id);
      LeftoverSnoc(h, cmd, k, id);
    }
    if k: nat :| LeftoverSince(h + [cmd], k, id) {
      LeftoverInside(h + [cmd], k, id);
      LeftoverSnoc(h, cmd, k, id);
    }
  }

  /** After every run the live actors are exactly those spawned and not removed since, and
      the chains are exactly theirs plus those of the failed spawns nobody cleaned up. */
  lemma {:induction false} TablesMatchHistory(h: seq<Command>)
    requires Processed(h)
    ensures ActorsAgree(h, After(h)) && ChainsAgree(h, After(h))
  {
    hide ActorsAgree, ChainsAgree, Process;
    if h == [] {
      NothingYet();
    } else {
      var before, cmd := h[..|h| - 1], h[|h| - 1];
      RunningBefore(h, |h| - 1);
      TablesMatchHistory(before);
      assert before + [cmd] == h;
      ActorsStep(before, cmd, After(before));
      ChainsStep(before, cmd, After(before));
    }
  }

  lemma NothingYet()
    ensures ActorsAgree([], INITIAL) && ChainsAgree([], INITIAL)
  {
    assert forall k: nat, id :: !LiveSince([], k, id) && !LeftoverSince([], k, id);
  }

  /** A stopped loop stays stopped, so the loop ran before every command of a handled run. */
  lemma {:induction false} RunningBefore(h: seq<Command>, k: nat)
    requires Processed(h) && k < |h|
    ensures After(h[..k]).running && Processed(h[..k])
    decreases |h| - k
  {
    if k < |h| - 1 {
      RunningBefore(h, k + 1);
      assert h[..k + 1][..k] == h[..k];
    }
    if k > 0 {
      StoppedStays(After(h[..k][..k - 1]), h[..k][k - 1]);
    }
  }

  lemma StoppedStays(s: State, cmd: Command)
    ensures Process(s, cmd).running ==> s.running
  {
  }

  /** Every registered actor has a chain, so its "shutdown" event can always be recorded. */
  lemma EveryActorHasChain(h: seq<Command>)
    requires Processed(h)
    ensures After(h).actors.Keys <= After(h).chains
  {
    TablesMatchHistory(h);
  }

  /** A failed spawn leaves its chain behind: it stays until a completion is reported for an
      actor that never was registered. */
  lemma FailedSpawnLeavesChain(h: seq<Command>, k: nat)
    requires Processed(h) && k < |h| && h[k].Spawn? && !h[k].ready
    ensures var id := Spawns(h[..k]);
            && id !in After(h).actors
            && (id in After(h).chains <==> forall j :: k < j < |h| ==> h[j] != ShutdownComplete(id))
  {
    hide After, CreatesAt;
    TablesMatchHistory(h);
    var id := Spawns(h[..k]);
    assert CreatesAt(h, k, id) by { CreatesHere(h, k); }
    assert ActorAgrees(h, After(h), id);
    assert LeftoverSince(h, k, id) <==> forall j :: k < j < |h| ==> h[j] != ShutdownComplete(id);
    if j: nat :| LeftoverSince(h, j, id) {
      CreatedOnce(h, j, k, id);
    }
    if j: nat :| LiveSince(h, j, id) {
      CreatedOnce(h, j, k, id);
    }
  }

  lemma CreatesHere(h: seq<Command>, k: nat)
    requires k < |h| && h[k].Spawn?
    ensures CreatesAt(h, k, Spawns(h[..k]))
  {
  }

  /** The loop ends exactly at a request to shut the runtime down, or at a report of a
      completed shutdown that finds no actor left. The last actor's leaving by any other
      command does not end it. */
  lemma LoopEndsExactly(h: seq<Command>)
    requires Processed(h) && h != []
    ensures !After(h).running <==>
            || h[|h| - 1] == ShutdownRuntime
            || (h[|h| - 1].ShutdownComplete? && forall k: nat, id :: !LiveSince(h, k, id))
  {
    hide ActorsAgree, LiveSince, ChainsAgree;
    TablesMatchHistory(h);
    EmptyExactly(h, After(h));
    assert After(h) == Process(After(h[..|h| - 1]), h[|h| - 1]);
  }

  lemma EmptyExactly(h: seq<Command>, s: State)
    requires ActorsAgree(h, s)
    ensures s.actors == map[] <==> forall k: nat, id :: !LiveSince(h, k, id)
  {
    if s.actors != map[] {
      var id :| id in s.actors;
      assert ActorAgrees(h, s, id);
    }
    forall k: nat, id | LiveSince(h, k, id)
      ensures s.actors != map[]
    {
      assert ActorAgrees(h, s, id);
    }
  }

  // ----- What goes out -----

  predicate Terminal(e: Effect) {
    e.Notice? && e.kind != Success
  }

  /** How often each effect on `id` has happened, against whether `id` is live. */
  ghost predicate CountsFor(s: State, id: ActorId) {
    var c := multiset(s.log);
    var live := if id in s.actors then 1 else 0;
    && c[Registered(id)] == live + c[HandlersSignalled(id)]
    && c[HandlersSignalled(id)] <= 1 - live
    && c[Notice(id, ExternalStop)] + c[Notice(id, Failure)] <= 1 - live
    && (id >= s.nextId ==> c[Registered(id)] == 0 && live == 0)
    && (c[Notice(id, Success)] + c[Notice(id, ExternalStop)] + c[Notice(id, Failure)] > 0 ==> c[Registered(id)] > 0)
  }

  ghost predicate Counts(s: State) {
    forall id :: CountsFor(s, id)
  }

  /** Nothing is told to a supervisor once the actor's handlers were signalled, or after a
      notice that it failed or was stopped. */
  ghost predicate InOrder(log: seq<Effect>) {
    forall i, j :: 0 <= i < j < |log| && (log[i].HandlersSignalled? || Terminal(log[i])) && log[j].Notice?
      ==> log[i].id != log[j].id
  }

  lemma CountSnoc(log: seq<Effect>, e: Effect, x: Effect)
    ensures multiset(log + [e])[x] == multiset(log)[x] + if x == e then 1 else 0
  {
    assert multiset(log + [e]) == multiset(log) + multiset{e};
  }

  lemma StoppedCount(s: State, id: ActorId, x: Effect)
    requires id in s.actors
    ensures multiset(Stopped(s, id).log)[x] == multiset(s.log)[x] +
            if x in {StopRequested(id), HandlersSignalled(id)} || (id in s.chains && x == EventRecorded(id)) then 1 else 0
  {
    var recorded := s.log + if id in s.chains then [EventRecorded(id)] else [];
    if id in s.chains {
      CountSnoc(s.log, EventRecorded(id), x);
    } else {
      assert recorded == s.log;
    }
    CountSnoc(recorded, StopRequested(id), x);
    CountSnoc(recorded + [StopRequested(id)], HandlersSignalled(id), x);
    assert Stopped(s, id).log == recorded + [StopRequested(id)] + [HandlersSignalled(id)];
  }

  lemma NotifiedCount(s: State, id: ActorId, kind: NoticeKind, x: Effect)
    ensures multiset(Notified(s, id, kind).log)[x] == multiset(s.log)[x] +
            if id in s.actors && s.actors[id] && x == Notice(id, kind) then 1 else 0
  {
    CountSnoc(s.log, Notice(id, kind), x);
  }

  /** How often a command makes the effect `x` happen. */
  function Adds(s: State, cmd: Command, x: Effect): (result: nat) {
    match cmd
    case Spawn(_, ready) => if ready && x == Registered(s.nextId) then 1 else 0
    case Stop(id) => Leaves(s, id, x) + Tells(s, id, ExternalStop, x)
    case Terminate(id) => Leaves(s, id, x)
    case ShuttingDown(id) => Tells(s, id, Success, x) + (if id in s.actors && x == StopRequested(id) then 1 else 0)
    case ShutdownComplete(id) => if id in s.actors && x == HandlersSignalled(id) then 1 else 0
    case ActorFailed(id) => Leaves(s, id, x) + Tells(s, id, Failure, x)
    case Query => 0
    case ShutdownRuntime => 0
  }

  function Leaves(s: State, id: ActorId, x: Effect): (result: nat) {
    if id !in s.actors then 0
    else if x in {StopRequested(id), HandlersSignalled(id)} || (id in s.chains && x == EventRecorded(id)) then 1 else 0
  }

  function Tells(s: State, id: ActorId, kind: NoticeKind, x: Effect): (result: nat) {
    if id in s.actors && s.actors[id] && x == Notice(id, kind) then 1 else 0
  }

  lemma LeavesCount(s: State, id: ActorId, x: Effect)
    ensures multiset(Stopped(s, id).log)[x] == multiset(s.log)[x] + Leaves(s, id, x)
  {
    if id in s.actors {
      StoppedCount(s, id, x);
    }
  }

  lemma ToldAndLeft(s: State, id: ActorId, kind: NoticeKind, x: Effect)
    ensures multiset(Stopped(Notified(s, id, kind), id).log)[x] ==
            multiset(s.log)[x] + Leaves(s, id, x) + Tells(s, id, kind, x)
  {
    hide Stopped;
    NotifiedCount(s, id, kind, x);
    LeavesCount(Notified(s, id, kind), id, x);
  }

  lemma ProcessCount(s: State, cmd: Command, x: Effect)
    requires s.running
    ensures multiset(Process(s, cmd).log)[x] == multiset(s.log)[x] + Adds(s, cmd, x)
  {
    hide Stopped, Leaves;
    match cmd {
      case Spawn(_, ready) => CountSnoc(s.log, Registered(s.nextId), x);
      case Stop(id) => ToldAndLeft(s, id, ExternalStop, x);
      case Terminate(id) => LeavesCount(s, id, x);
      case ShuttingDown(id) =>
        NotifiedCount(s, id, Success, x);
        CountSnoc(Notified(s, id, Success).log, StopRequested(id), x);
      case ShutdownComplete(id) => CountSnoc(s.log, HandlersSignalled(id), x);
      case ActorFailed(id) => ToldAndLeft(s, id, Failure, x);
      case Query =>
      case ShutdownRuntime =>
    }
  }

  lemma StepKeepsCountsFor(s: State, cmd: Command, id: ActorId)
    requires s.running && CountsFor(s, id)
    ensures CountsFor(Process(s, cmd), id)
  {
    hide Process;
    ActorsMove(s, cmd, id);
    ProcessCount(s, cmd, Registered(id));
    ProcessCount(s, cmd, HandlersSignalled(id));
    ProcessCount(s, cmd, Notice(id, Success));
    ProcessCount(s, cmd, Notice(id, ExternalStop));
    ProcessCount(s, cmd, Notice(id, Failure));
  }

  lemma InOrderSnoc(log: seq<Effect>, e: Effect)
    requires InOrder(log)
    requires e.Notice? ==> forall x :: x in log && (x.HandlersSignalled? || Terminal(x)) ==> x.id != e.id
    ensures InOrder(log + [e])
  {
  }

  /** A live actor's handlers have not been signalled, and no last word about it was given. */
  lemma LiveIsOpen(s: State, id: ActorId)
    requires CountsFor(s, id) && id in s.actors
    ensures forall x :: x in s.log && (x.HandlersSignalled? || Terminal(x)) ==> x.id != id
  {
    forall x | x in s.log && x.id == id
      ensures !x.HandlersSignalled? && !Terminal(x)
    {
      assert multiset(s.log)[x] > 0;
    }
  }

  lemma NotifiedInOrder(s: State, id: ActorId, kind: NoticeKind)
    requires Counts(s) && InOrder(s.log)
    ensures InOrder(Notified(s, id, kind).log)
  {
    hide InOrder;
    if id in s.actors && s.actors[id] {
      assert CountsFor(s, id);
      LiveIsOpen(s, id);
      InOrderSnoc(s.log, Notice(id, kind));
    }
  }

  lemma StoppedInOrder(s: State, id: ActorId)
    requires InOrder(s.log)
    ensures InOrder(Stopped(s, id).log)
  {
    hide InOrder;
    if id in s.actors {
      var recorded := s.log + if id in s.chains then [EventRecorded(id)] else [];
      if id in s.chains {
        InOrderSnoc(s.log, EventRecorded(id));
      } else {
        assert recorded == s.log;
      }
      InOrderSnoc(recorded, StopRequested(id));
      InOrderSnoc(recorded + [StopRequested(id)], HandlersSignalled(id));
      assert Stopped(s, id).log == recorded + [StopRequested(id)] + [HandlersSignalled(id)];
    }
  }

  lemma StepKeepsOrder(s: State, cmd: Command)
    requires s.running && Counts(s) && InOrder(s.log)
    ensures InOrder(Process(s, cmd).log)
  {
    hide InOrder, Stopped, Counts;
    match cmd {
      case Spawn(_, _) => InOrderSnoc(s.log, Registered(s.nextId));
      case Stop(id) =>
        NotifiedInOrder(s, id, ExternalStop);
        StoppedInOrder(Notified(s, id, ExternalStop), id);
      case Terminate(id) => StoppedInOrder(s, id);
      case ShuttingDown(id) =>
        NotifiedInOrder(s, id, Success);
        InOrderSnoc(Notified(s, id, Success).log, StopRequested(id));
      case ShutdownComplete(id) => InOrderSnoc(s.log, HandlersSignalled(id));
      case ActorFailed(id) =>
        NotifiedInOrder(s, id, Failure);
        StoppedInOrder(Notified(s, id, Failure), id);
      case Query =>
      case ShutdownRuntime =>
    }
  }

  /** Over every run, late and repeated reports included: the actors ever registered are the
      live ones plus those whose handlers were signalled, each exactly once; at most one
      notice of a stop or a failure goes out per actor; and after that notice, or once its
      handlers were signalled, its supervisor hears nothing more about it. */
  lemma {:induction false} EffectsAreSound(h: seq<Command>)
    requires Processed(h)
    ensures Counts(After(h)) && InOrder(After(h).log)
  {
    hide Process, Counts, InOrder;
    if h == [] {
      NothingOut();
    } else {
      var before, cmd := h[..|h| - 1], h[|h| - 1];
      RunningBefore(h, |h| - 1);
      EffectsAreSound(before);
      StepKeepsCounts(After(before), cmd);
      StepKeepsOrder(After(before), cmd);
    }
  }

  lemma NothingOut()
    ensures Counts(INITIAL) && InOrder(INITIAL.log)
  {
  }

  lemma StepKeepsCounts(s: State, cmd: Command)
    requires s.running && Counts(s)
    ensures Counts(Process(s, cmd))
  {
    hide CountsFor, Process;
    forall id
      ensures CountsFor(Process(s, cmd), id)
    {
      assert CountsFor(s, id);
      StepKeepsCountsFor(s, cmd, id);
    }
  }

  /** A notice goes out exactly when the command calls for it and the actor is live, by the
      history, and was spawned with a supervisor. */
  lemma NoticeExactly(h: seq<Command>, k: nat, id: ActorId, kind: NoticeKind)
    requires Processed(h) && k < |h|
    ensures multiset(After(h[..k + 1]).log)[Notice(id, kind)] > multiset(After(h[..k]).log)[Notice(id, kind)] <==>
            && h[k] == (match kind case Success => ShuttingDown(id) case ExternalStop => Stop(id) case Failure => ActorFailed(id))
            && exists j: nat :: LiveSince(h[..k], j, id) && h[j].supervised
  {
    hide Process, LiveSince;
    RunningBefore(h, k);
    assert h[..k + 1][..k] == h[..k];
    var s := After(h[..k]);
    assert After(h[..k + 1]) == Process(s, h[k]);
    ProcessCount(s, h[k], Notice(id, kind));
    TablesMatchHistory(h[..k]);
    assert ActorAgrees(h[..k], s, id);
    forall j: nat | LiveSince(h[..k], j, id)
      ensures j < k && h[..k][j] == h[j]
    {
      LiveInside(h[..k], j, id);
    }
  }

  // ----- The whole log, told by the history -----

  ghost predicate LiveBy(h: seq<Command>, id: ActorId) {
    exists k: nat :: LiveSince(h, k, id)
  }

  ghost predicate SupervisedBy(h: seq<Command>, id: ActorId) {
    exists k: nat :: LiveSince(h, k, id) && h[k].supervised
  }

  /** A stop of a live actor: the notice first, if there is one to give, then the event on its
      chain, the request to its own task, and last the signal to its handlers. */
  ghost function StopBy(h: seq<Command>, id: ActorId, notice: Option<NoticeKind>): (effects: seq<Effect>) {
    if !LiveBy(h, id) then []
    else
      (if notice.Some? && SupervisedBy(h, id) then [Notice(id, notice.value)] else [])
      + [EventRecorded(id), StopRequested(id), HandlersSignalled(id)]
  }

  /** What one more command does to the outside after the history `h`, in order. */
  ghost function EffectsBy(h: seq<Command>, cmd: Command): (effects: seq<Effect>) {
    match cmd
    case Spawn(_, ready) => if ready then [Registered(Spawns(h))] else []
    case Stop(id) => StopBy(h, id, Some(ExternalStop))
    case Terminate(id) => StopBy(h, id, None)
    case ActorFailed(id) => StopBy(h, id, Some(Failure))
    case ShuttingDown(id) =>
      if !LiveBy(h, id) then []
      else (if SupervisedBy(h, id) then [Notice(id, Success)] else []) + [StopRequested(id)]
    case ShutdownComplete(id) => if LiveBy(h, id) then [HandlersSignalled(id)] else []
    case Query => []
    case ShutdownRuntime => []
  }

  ghost function LogBy(h: seq<Command>): (log: seq<Effect>) {
    if h == [] then [] else LogBy(h[..|h| - 1]) + EffectsBy(h[..|h| - 1], h[|h| - 1])
  }

  lemma LiveMeans(h: seq<Command>, s: State, id: ActorId)
    requires ActorsAgree(h, s)
    ensures id in s.actors <==> LiveBy(h, id)
    ensures id in s.actors ==> (s.actors[id] <==> SupervisedBy(h, id))
  {
    hide LiveSince;
    assert ActorAgrees(h, s, id);
    forall k: nat | LiveSince(h, k, id)
      ensures k < |h| && h[k].Spawn?
    {
      LiveInside(h, k, id);
    }
  }

  lemma StopEffects(h: seq<Command>, s: State, id: ActorId, kind: NoticeKind)
    requires ActorsAgree(h, s) && ChainsAgree(h, s)
    ensures Stopped(s, id).log == s.log + StopBy(h, id, None)
    ensures Stopped(Notified(s, id, kind), id).log == s.log + StopBy(h, id, Some(kind))
  {
    hide ActorsAgree, LiveBy, SupervisedBy;
    LiveMeans(h, s, id);
    if id in s.actors {
      var ends := [EventRecorded(id), StopRequested(id), HandlersSignalled(id)];
      assert Stopped(s, id).log == s.log + ends;
      assert s.log + [Notice(id, kind)] + ends == s.log + ([Notice(id, kind)] + ends);
    }
  }

  lemma StepEffects(h: seq<Command>, s: State, cmd: Command)
    requires s.running && ActorsAgree(h, s) && ChainsAgree(h, s)
    ensures Process(s, cmd).log == s.log + EffectsBy(h, cmd)
  {
    hide ActorsAgree, ChainsAgree, LiveBy, SupervisedBy, Stopped, StopBy;
    match cmd {
      case Spawn(_, _) => NextIs(h, s);
      case Stop(id) => StopEffects(h, s, id, ExternalStop);
      case Terminate(id) => StopEffects(h, s, id, Failure);
      case ActorFailed(id) => StopEffects(h, s, id, Failure);
      case ShuttingDown(id) =>
        LiveMeans(h, s, id);
        assert s.log + [Notice(id, Success)] + [StopRequested(id)] == s.log + ([Notice(id, Success)] + [StopRequested(id)]);
      case ShutdownComplete(id) => LiveMeans(h, s, id);
      case Query =>
      case ShutdownRuntime =>
    }
  }

  lemma NextIs(h: seq<Command>, s: State)
    requires ActorsAgree(h, s)
    ensures s.nextId == Spawns(h)
  {
  }

  /** Over every run, what has gone out is exactly what the history of commands calls for, in
      that order, within a command as well as between commands. */
  lemma {:induction false} LogExactly(h: seq<Command>)
    requires Processed(h)
    ensures After(h).log == LogBy(h)
  {
    hide Process, EffectsBy, ActorsAgree, ChainsAgree;
    if h != [] {
      var before, cmd := h[..|h| - 1], h[|h| - 1];
      RunningBefore(h, |h| - 1);
      LogExactly(before);
      TablesMatchHistory(before);
      StepEffects(before, After(before), cmd);
    }
  }
}
