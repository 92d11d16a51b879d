/** Shutting an actor down: the controller signals every subscriber and waits until each one
    has let go of its signal. The message-server handler holds up to three subscriptions and
    hands them between its own setup and the actor's call of `register`;
    the two run side by side, one lock at a time. */
module Shutdown {
  import opened Prelude

  // ----- The controller -----

  /** Subscribers are numbered in the order they subscribed. */
  class ShutdownController {
    var subscribers: seq<nat>
    var next: nat

    ghost predicate Valid()
      reads this
    {
      && (forall i :: 0 <= i < |subscribers| ==> subscribers[i] < next)
      && (forall i, j :: 0 <= i < j < |subscribers| ==> subscribers[i] != subscribers[j])
    }

    constructor ()
      ensures Valid() && subscribers == [] && next == 0
    {
      subscribers, next := [], 0;
    }

    method Subscribe() returns (id: nat)
      requires Valid()
      modifies this
      ensures Valid()
      ensures id !in old(subscribers) && id == old(next) && next == id + 1
      ensures subscribers == old(subscribers) + [id]
    {
      id := next;
      next := next + 1;
      subscribers := subscribers + [id];
    }

    /** Send the signal to every subscriber and wait for them in order. `letGo(id, t)` says
        that subscriber `id` has dropped its signal, or its receiver, by time `t`; `patience`
        bounds how long the caller is observed. The call returns exactly when all have. */
    method SignalShutdown(letGo: (nat, nat) -> bool, patience: nat) returns (signalled: seq<nat>, returned: bool)
      requires Valid()
      requires forall id, t, u :: letGo(id, t) && t <= u ==> letGo(id, u)
      modifies this`subscribers
      ensures Valid() && subscribers == []
      ensures signalled == old(subscribers)
      ensures returned <==> forall id :: id in old(subscribers) ==> letGo(id, patience)
    {
      var taken := subscribers;
      subscribers := [];
      signalled := [];
      for i := 0 to |taken|
        invariant subscribers == []
        invariant signalled == taken[..i]
      {
        signalled := signalled + [taken[i]];
      }
      var t := 0;
      for i := 0 to |taken|
        invariant subscribers == []
        invariant t <= patience
        invariant forall k :: 0 <= k < i ==> letGo(taken[k], patience)
      {
        while !letGo(taken[i], t)
          invariant t <= patience
          decreases patience - t
        {
          if t == patience {
            return signalled, false;
          }
          t := t + 1;
        }
      }
      returned := true;
    }
  }

  // ----- The handler's three subscriptions -----

  /** The receiver kept for `register`, the one kept for setup, and the one the runtime
      passes to setup. */
  datatype Receiver = ForRegister | ForSetup | Passed

  datatype SetupStage = Fresh | HandleStored | OwnTaken | Waiting | Draining | Finished

  datatype RegisterStage = NotCalled | Entered | HandleTaken | ReceiverTaken | Registering | Consuming | Over

  datatype State = State(
    sent: set<Receiver>,                  // whose signal has been sent
    handleSlot: bool,
    registerSlot: Option<Receiver>,
    setupSlot: Option<Receiver>,
    permit: bool,                         // a notification nobody has taken yet
    setup: SetupStage,
    passed: Option<Receiver>,             // held by setup
    own: Option<Receiver>,
    drained: Option<Receiver>,
    register: RegisterStage,
    hasHandle: bool,                      // held by register
    held: Option<Receiver>)

  /** What the host context offers: a controller to subscribe to, and an actor id. */
  datatype Setting = Setting(controller: bool, actorId: bool)

  datatype Step =
    | Send(r: Receiver)
    | StoreHandle | TakeOwn | Park | Notified | Signalled | Drained
    | Enter | TakeHandle | TakeReceiver | Decide | Register(ok: bool) | Cancel | ConsumerSignalled

  function Start(c: Setting): (s: State) {
    State({}, false,
          if c.controller then Some(ForRegister) else None,
          if c.controller then Some(ForSetup) else None,
          false, Fresh, Some(Passed), None, None, NotCalled, false, None)
  }

  function Subscribed(c: Setting): (rs: set<Receiver>) {
    if c.controller then {ForRegister, ForSetup, Passed} else {Passed}
  }

  predicate Enabled(c: Setting, s: State, step: Step) {
    match step
    case Send(r) => r in Subscribed(c) && r !in s.sent
    case StoreHandle => s.setup == Fresh
    case TakeOwn => s.setup == HandleStored
    case Park => s.setup == OwnTaken
    case Notified => s.setup == Waiting && s.permit
    case Signalled => s.setup == Waiting && s.own.Some? && s.own.value in s.sent
    case Drained => s.setup == Draining && (s.drained.Some? ==> s.drained.value in s.sent)
    case Enter => s.register == NotCalled
    case TakeHandle => s.register == Entered
    case TakeReceiver => s.register == HandleTaken
    case Decide => s.register == ReceiverTaken
    case Register(_) => s.register == Registering
    case Cancel => s.register in {Entered, HandleTaken, ReceiverTaken, Registering}
    case ConsumerSignalled => s.register == Consuming && s.held.Some? && s.held.value in s.sent
  }

  function Apply(c: Setting, s: State, step: Step): (s': State)
    requires Enabled(c, s, step)
  {
    match step
    case Send(r) => s.(sent := s.sent + {r})
    case StoreHandle => s.(setup := HandleStored, handleSlot := true)
    case TakeOwn => s.(setup := OwnTaken, own := s.setupSlot, setupSlot := None)
    case Park =>
      if s.own.None? then s.(setup := Waiting, own := s.passed, passed := None)
      else if s.registerSlot.None? then s.(setup := Waiting, registerSlot := s.passed, passed := None)
      else s.(setup := Waiting, passed := None)
    case Notified => s.(setup := Finished, permit := false, own := None)
    case Signalled => s.(setup := Draining, drained := s.registerSlot, registerSlot := None)
    case Drained => s.(setup := Finished, drained := None, own := None)
    case Enter => s.(register := if c.actorId then Entered else Over)
    case TakeHandle => s.(register := HandleTaken, hasHandle := s.handleSlot, handleSlot := false)
    case TakeReceiver => s.(register := ReceiverTaken, held := s.registerSlot, registerSlot := None)
    case Decide =>
      if s.hasHandle && s.held.Some? then s.(register := Registering, permit := true)
      else s.(register := Over, held := None)
    case Register(ok) => if ok then s.(register := Consuming) else s.(register := Over, held := None)
    case Cancel => s.(register := Over, held := None)
    case ConsumerSignalled => s.(register := Over, held := None)
  }

  function Opt(r: Option<Receiver>): (rs: set<Receiver>) {
    if r.Some? then {r.value} else {}
  }

  /** The receivers somebody still holds. A receiver, or the signal taken from it, is
      acknowledged when it is dropped. */
  function Held(s: State): (rs: set<Receiver>) {
    Opt(s.registerSlot) + Opt(s.setupSlot) + Opt(s.passed) + Opt(s.own) + Opt(s.drained) + Opt(s.held)
  }

  predicate IsRun(c: Setting, run: seq<Step>)
    decreases |run|, 0
  {
    run != [] ==>
      && IsRun(c, run[..|run| - 1])
      && Enabled(c, After(c, run[..|run| - 1]), run[|run| - 1])
  }

  function After(c: Setting, run: seq<Step>): (s: State)
    requires IsRun(c, run)
    decreases |run|, 1
  {
    if run == [] then Start(c)
    else Apply(c, After(c, run[..|run| - 1]), run[|run| - 1])
  }

  /** All signals are out and nothing is left to do, except that the actor may never call
      `register`. */
  ghost predicate Quiet(c: Setting, s: State) {
    forall step :: Enabled(c, s, step) ==> step == Enter
  }

  /** `register` took its receiver before setup parked the one it was passed. */
  ghost predicate TookEarly(run: seq<Step>) {
    exists i :: 0 <= i < |run| && run[i] == TakeReceiver && Park !in run[..i]
  }

  // ----- Every run ends -----

  function SetupRank(stage: SetupStage): (result: nat) {
    match stage
    case Fresh => 5 case HandleStored => 4 case OwnTaken => 3 case Waiting => 2 case Draining => 1 case Finished => 0
  }

  function RegisterRank(stage: RegisterStage): (result: nat) {
    match stage
    case NotCalled => 6 case Entered => 5 case HandleTaken => 4 case ReceiverTaken => 3
    case Registering => 2 case Consuming => 1 case Over => 0
  }

  function Unsent(c: Setting, sent: set<Receiver>): (result: nat) {
    |Subscribed(c) - sent|
  }

  function Rank(c: Setting, s: State): (result: nat) {
    Unsent(c, s.sent) + SetupRank(s.setup) + RegisterRank(s.register)
  }

  lemma SendDescends(c: Setting, sent: set<Receiver>, r: Receiver)
    requires r in Subscribed(c) && r !in sent
    ensures Unsent(c, sent + {r}) < Unsent(c, sent)
  {
    hide Subscribed;
    assert Subscribed(c) - (sent + {r}) == (Subscribed(c) - sent) - {r};
  }

  lemma StepDescends(c: Setting, s: State, step: Step)
    requires Enabled(c, s, step)
    ensures Rank(c, Apply(c, s, step)) < Rank(c, s)
  {
    hide Unsent, Subscribed;
    if step.Send? {
      SendDescends(c, s.sent, step.r);
    }
  }

  /** No schedule goes on for more than fourteen steps. */
  lemma {:induction false} RunsAreShort(c: Setting, run: seq<Step>)
    requires IsRun(c, run)
    ensures |run| + Rank(c, After(c, run)) <= 14
  {
    if run == [] {
      assert Subscribed(c) - {} == Subscribed(c);
    } else {
      var before := run[..|run| - 1];
      RunsAreShort(c, before);
      StepDescends(c, After(c, before), run[|run| - 1]);
    }
  }

  // ----- Where the receivers are -----

  predicate Took(stage: RegisterStage) {
    stage in {ReceiverTaken, Registering, Consuming}
  }

  predicate Parked(stage: SetupStage) {
    stage in {Waiting, Draining, Finished}
  }

  /** What setup holds, by how far it has come. */
  ghost predicate SetupHolds(c: Setting, s: State) {
    match s.setup
    case Fresh =>
      && s.passed == Some(Passed) && s.own.None? && s.drained.None? && !s.handleSlot
      && s.setupSlot == if c.controller then Some(ForSetup) else None
    case HandleStored =>
      && s.passed == Some(Passed) && s.own.None? && s.drained.None?
      && s.setupSlot == if c.controller then Some(ForSetup) else None
    case OwnTaken =>
      && s.passed == Some(Passed) && s.drained.None? && s.setupSlot.None?
      && s.own == if c.controller then Some(ForSetup) else None
    case Waiting =>
      && s.passed.None? && s.drained.None? && s.setupSlot.None?
      && s.own == Some(if c.controller then ForSetup else Passed)
    case Draining =>
      && s.passed.None? && s.setupSlot.None? && s.registerSlot.None?
      && Opt(s.drained) <= Subscribed(c)
    case Finished => s.passed.None? && s.drained.None? && s.setupSlot.None? && s.own.None?
  }

  /** What is in the slot for `register`, and what `register` holds. `took`: it has taken from
      the slot; `early`: it did so before setup parked; `noticed`: setup left by the notification. */
  ghost predicate RegisterHolds(c: Setting, s: State, took: bool, early: bool, noticed: bool) {
    && (early ==> took)
    && (took && !early ==> Parked(s.setup))
    && (Took(s.register) ==> took)
    && (took ==> Took(s.register) || s.register == Over)
    && (!Took(s.register) ==> s.held.None?)
    && (s.register in {Registering, Consuming} ==> s.held.Some?)
    && (s.permit || noticed ==> took && c.controller)
    && (s.held.Some? ==> s.held.value in Subscribed(c))
    && (noticed ==> s.setup == Finished)
    && s.sent <= Subscribed(c)
    && SlotHolds(c, s, took, early, noticed)
  }

  ghost predicate SlotHolds(c: Setting, s: State, took: bool, early: bool, noticed: bool) {
    if !c.controller then s.registerSlot.None? && s.held.None?
    else if s.setup == Finished && !noticed then s.registerSlot.None?
    else if s.setup == Draining then s.registerSlot.None?
    else if !took then s.registerSlot == Some(ForRegister)
    else if early && Parked(s.setup) then s.registerSlot == Some(Passed)
    else s.registerSlot.None?
  }

  ghost predicate Inv(c: Setting, s: State, took: bool, early: bool, noticed: bool) {
    SetupHolds(c, s) && RegisterHolds(c, s, took, early, noticed)
  }

  predicate BySetup(step: Step) {
    step in {StoreHandle, TakeOwn, Park, Notified, Signalled, Drained}
  }

  lemma SetupStepKeepsInv(c: Setting, s: State, step: Step, took: bool, early: bool, noticed: bool)
    requires Inv(c, s, took, early, noticed) && Enabled(c, s, step) && BySetup(step)
    ensures Inv(c, Apply(c, s, step), took, early, noticed || step == Notified)
  {
  }

  lemma RegisterStepKeepsInv(c: Setting, s: State, step: Step, took: bool, early: bool, noticed: bool)
    requires Inv(c, s, took, early, noticed) && Enabled(c, s, step) && !BySetup(step)
    ensures Inv(c, Apply(c, s, step), took || step == TakeReceiver,
                early || (step == TakeReceiver && !Parked(s.setup)), noticed)
  {
  }

  lemma TookEarlySnoc(run: seq<Step>, step: Step)
    ensures TookEarly(run + [step]) <==> TookEarly(run) || (step == TakeReceiver && Park !in run)
  {
    var run' := run + [step];
    if i :| 0 <= i < |run| && run[i] == TakeReceiver && Park !in run[..i] {
      assert run'[i] == TakeReceiver && run'[..i] == run[..i];
    }
    if i :| 0 <= i < |run'| && run'[i] == TakeReceiver && Park !in run'[..i] {
      assert run'[..i] == run[..i];
    }
    if step == TakeReceiver && Park !in run {
      assert run'[|run|] == TakeReceiver && run'[..|run|] == run;
    }
  }

  ghost predicate RunInv(c: Setting, run: seq<Step>)
    requires IsRun(c, run)
  {
    && Inv(c, After(c, run), TakeReceiver in run, TookEarly(run), Notified in run)
    && (Parked(After(c, run).setup) <==> Park in run)
  }

  lemma StepKeepsRunInv(c: Setting, run: seq<Step>, step: Step)
    requires IsRun(c, run) && Enabled(c, After(c, run), step) && RunInv(c, run)
    requires IsRun(c, run + [step]) && After(c, run + [step]) == Apply(c, After(c, run), step)
    ensures RunInv(c, run + [step])
  {
    hide IsRun, After, Inv, TookEarly, Apply, Enabled, Parked;
    var s := After(c, run);
    ParkedStep(c, s, step);
    TookEarlySnoc(run, step);
    assert TakeReceiver in run + [step] <==> TakeReceiver in run || step == TakeReceiver;
    assert Notified in run + [step] <==> Notified in run || step == Notified;
    assert Park in run + [step] <==> Park in run || step == Park;
    if BySetup(step) {
      SetupStepKeepsInv(c, s, step, TakeReceiver in run, TookEarly(run), Notified in run);
    } else {
      RegisterStepKeepsInv(c, s, step, TakeReceiver in run, TookEarly(run), Notified in run);
    }
  }

  lemma {:induction false} RunKeepsInv(c: Setting, run: seq<Step>)
    requires IsRun(c, run)
    ensures RunInv(c, run)
  {
    hide Inv, TookEarly, Apply, Enabled, Start, Parked;
    if run == [] {
      StartInv(c);
    } else {
      var before, step := run[..|run| - 1], run[|run| - 1];
      RunKeepsInv(c, before);
      assert run == before + [step];
      hide RunInv;
      StepKeepsRunInv(c, before, step);
    }
  }

  lemma ParkedStep(c: Setting, s: State, step: Step)
    requires Enabled(c, s, step)
    ensures Parked(Apply(c, s, step).setup) <==> Parked(s.setup) || step == Park
  {
  }

  lemma StartInv(c: Setting)
    ensures Inv(c, Start(c), false, false, false)
    ensures !TookEarly([]) && !Parked(Start(c).setup)
  {
  }

  // ----- When shutdown completes -----

  /** In a quiet state every part has run to its end. */
  lemma QuietMeans(c: Setting, s: State, took: bool, early: bool, noticed: bool)
    requires Inv(c, s, took, early, noticed) && Quiet(c, s)
    ensures Subscribed(c) <= s.sent
    ensures s.setup == Finished
    ensures s.register in {NotCalled, Over}
  {
    forall r | r in Subscribed(c)
      ensures r in s.sent
    {
      assert !Enabled(c, s, Send(r));
    }
    assert !Enabled(c, s, StoreHandle) && !Enabled(c, s, TakeOwn) && !Enabled(c, s, Park);
    assert !Enabled(c, s, Signalled) && !Enabled(c, s, Drained);
    assert !Enabled(c, s, TakeHandle) && !Enabled(c, s, TakeReceiver) && !Enabled(c, s, Decide);
    assert !Enabled(c, s, Register(true)) && !Enabled(c, s, ConsumerSignalled);
  }

  /** When a run has come to rest, every receiver has been let go, and so the controller's
      call returns, unless `register` took its receiver before setup parked and setup then
      left by the notification. In that case exactly the receiver the runtime passed to setup
      is left in the slot, where nobody looks again. */
  lemma ShutdownCompletesExactly(c: Setting, run: seq<Step>)
    requires IsRun(c, run) && Quiet(c, After(c, run))
    ensures Held(After(c, run)) == if TookEarly(run) && Notified in run then {Passed} else {}
  {
    hide Inv, TookEarly, Quiet;
    RunKeepsInv(c, run);
    RestHolds(c, After(c, run), TakeReceiver in run, TookEarly(run), Notified in run);
  }

  lemma RestHolds(c: Setting, s: State, took: bool, early: bool, noticed: bool)
    requires Inv(c, s, took, early, noticed) && Quiet(c, s)
    ensures Held(s) == if early && noticed then {Passed} else {}
  {
    QuietMeans(c, s, took, early, noticed);
    hide Quiet;
  }

  /** Nobody picks a receiver up again once it has been let go. */
  lemma StepLetsGo(c: Setting, s: State, step: Step)
    requires Enabled(c, s, step)
    ensures Held(Apply(c, s, step)) <= Held(s)
  {
    hide Held, Subscribed;
    forall r | r in Held(Apply(c, s, step))
      ensures r in Held(s)
    {
      HeldMeans(s, r);
      HeldMeans(Apply(c, s, step), r);
    }
  }

  lemma HeldMeans(s: State, r: Receiver)
    ensures r in Held(s) <==>
      Some(r) in {s.registerSlot, s.setupSlot, s.passed, s.own, s.drained, s.held}
  {
  }

  lemma {:induction false} PrefixIsRun(c: Setting, run: seq<Step>, k: nat)
    requires IsRun(c, run) && k <= |run|
    ensures IsRun(c, run[..k])
    ensures Held(After(c, run)) <= Held(After(c, run[..k]))
  {
    hide Apply, Enabled, Held;
    if k == |run| {
      assert run[..k] == run;
    } else {
      var init := run[..|run| - 1];
      PrefixIsRun(c, init, k);
      assert init[..k] == run[..k];
      StepLetsGo(c, After(c, init), run[|run| - 1]);
    }
  }

  /** In the order in which they are subscribed. */
  function Order(c: Setting): (order: seq<Receiver>)
    ensures forall r :: r in order <==> r in Subscribed(c)
  {
    if c.controller then [ForRegister, ForSetup, Passed] else [Passed]
  }

  /** Subscriber `id` has let go after `t` steps of the run, or at its end. */
  predicate LetGo(c: Setting, run: seq<Step>, id: nat, t: nat) {
    var k := if t < |run| then t else |run|;
    id < |Order(c)| && IsRun(c, run[..k]) && Order(c)[id] !in Held(After(c, run[..k]))
  }

  lemma LetGoStays(c: Setting, run: seq<Step>, id: nat, t: nat, u: nat)
    requires IsRun(c, run) && LetGo(c, run, id, t) && t <= u
    ensures LetGo(c, run, id, u)
  {
    hide After, IsRun, Held;
    var k, l := if t < |run| then t else |run|, if u < |run| then u else |run|;
    PrefixIsRun(c, run, l);
    PrefixIsRun(c, run[..l], k);
    assert run[..l][..k] == run[..k];
  }

  /** Only subscribed receivers are ever held. */
  lemma {:induction false} HeldAreSubscribed(c: Setting, run: seq<Step>)
    requires IsRun(c, run)
    ensures Held(After(c, run)) <= Subscribed(c)
  {
    hide Apply, Enabled;
    if run != [] {
      HeldAreSubscribed(c, run[..|run| - 1]);
      hide Held;
      StepLetsGo(c, After(c, run[..|run| - 1]), run[|run| - 1]);
    }
  }

  /** The controller's call over a run that comes to rest: it returns if and only if `register`
      did not take its receiver before setup parked, or setup did not leave by the notification. */
  method ShutDownHandler(c: Setting, run: seq<Step>, patience: nat) returns (returned: bool)
    requires IsRun(c, run) && Quiet(c, After(c, run)) && patience >= |run|
    ensures returned <==> !(TookEarly(run) && Notified in run)
  {
    hide IsRun, After, Quiet, TookEarly, Held, LetGo;
    var controller := new ShutdownController();
    for i := 0 to |Order(c)|
      invariant fresh(controller) && controller.Valid() && controller.next == i
      invariant |controller.subscribers| == i && forall k :: 0 <= k < i ==> controller.subscribers[k] == k
    {
      var _ := controller.Subscribe();
    }
    forall id: nat, t: nat, u: nat | LetGo(c, run, id, t) && t <= u
      ensures LetGo(c, run, id, u)
    {
      LetGoStays(c, run, id, t, u);
    }
    ghost var ids := controller.subscribers;
    var letGo := (id: nat, t: nat) => LetGo(c, run, id, t);
    var _, r := controller.SignalShutdown(letGo, patience);
    forall id: nat | id < |Order(c)|
      ensures id in ids
    {
      assert ids[id] == id;
    }
    assert r <==> forall id: nat :: id < |Order(c)| ==> letGo(id, patience);
    assert forall id: nat :: letGo(id, patience) == LetGo(c, run, id, patience);
    returned := r;
    ShutdownCompletesExactly(c, run);
    AllLetGo(c, run, patience);
  }

  lemma AllLetGo(c: Setting, run: seq<Step>, patience: nat)
    requires IsRun(c, run) && patience >= |run|
    ensures (forall id: nat :: id < |Order(c)| ==> LetGo(c, run, id, patience)) <==> Held(After(c, run)) == {}
  {
    hide IsRun, After, Held;
    assert run[..|run|] == run;
    HeldAreSubscribed(c, run);
    if r :| r in Held(After(c, run)) {
      assert r in Order(c);
      var id: nat :| id < |Order(c)| && Order(c)[id] == r;
      assert !LetGo(c, run, id, patience);
    }
  }

  /** In the stuck case nothing can happen any more: no run goes on from there, so that the
      call never returns. */
  lemma StuckForGood(c: Setting, run: seq<Step>, more: seq<Step>)
    requires IsRun(c, run) && Quiet(c, After(c, run)) && TookEarly(run) && Notified in run
    requires IsRun(c, run + more)
    ensures more == []
  {
    hide Inv, TookEarly, Held;
    if more != [] {
      PrefixIsRun(c, run + more, |run| + 1);
      assert (run + more)[..|run| + 1] == run + [more[0]];
      assert (run + [more[0]])[..|run|] == run;
      RunKeepsInv(c, run);
      assert Enabled(c, After(c, run), more[0]);
      NoStepLeft(c, After(c, run), TakeReceiver in run, TookEarly(run), Notified in run);
    }
  }

  lemma NoStepLeft(c: Setting, s: State, took: bool, early: bool, noticed: bool)
    requires Inv(c, s, took, early, noticed) && Quiet(c, s) && early
    ensures forall step :: !Enabled(c, s, step)
  {
    QuietMeans(c, s, took, early, noticed);
    assert !Enabled(c, s, Enter);
  }

  /** Every run can be brought to rest, whatever has happened so far. */
  lemma {:induction false} ComesToRest(c: Setting, run: seq<Step>) returns (more: seq<Step>)
    requires IsRun(c, run)
    ensures IsRun(c, run + more) && Quiet(c, After(c, run + more))
    decreases 14 - |run|
  {
    hide After, IsRun, Apply, Enabled, Rank;
    if Quiet(c, After(c, run)) {
      more := [];
      assert run + more == run;
    } else {
      var step :| Enabled(c, After(c, run), step) && step != Enter;
      var run' := Then(c, run, step);
      RunsAreShort(c, run');
      var rest := ComesToRest(c, run');
      more := [step] + rest;
      assert run + more == run' + rest;
    }
  }

  /** The schedule that leaves the controller waiting: the actor registers in the gap between
      setup's storing of the handle and its parking of the receiver. */
  lemma StuckSchedule() returns (run: seq<Step>)
    ensures var c := Setting(true, true);
            && IsRun(c, run) && Quiet(c, After(c, run))
            && Held(After(c, run)) == {Passed}
            && TookEarly(run) && Notified in run
            && forall more :: IsRun(c, run + more) ==> more == []
  {
    hide IsRun, After, Quiet, Held, TookEarly;
    var c := Setting(true, true);
    run := GapSchedule(c);
    run := Then(c, run, Send(ForRegister));
    run := Then(c, run, Send(ForSetup));
    run := Then(c, run, Send(Passed));
    run := Then(c, run, ConsumerSignalled);
    RestingPlace(c, After(c, run));
    ShutdownCompletesExactly(c, run);
    forall more | IsRun(c, run + more)
      ensures more == []
    {
      StuckForGood(c, run, more);
    }
  }

  lemma GapSchedule(c: Setting) returns (run: seq<Step>)
    requires c == Setting(true, true)
    ensures IsRun(c, run)
    ensures After(c, run) == State({}, false, Some(Passed), None, false, Finished, None, None, None,
                                   Consuming, true, Some(ForRegister))
  {
    hide After, IsRun;
    run := RegisterInGap(c);
    run := Then(c, run, TakeOwn);
    run := Then(c, run, Park);
    run := Then(c, run, Notified);
    run := Then(c, run, Register(true));
  }

  lemma RegisterInGap(c: Setting) returns (run: seq<Step>)
    requires c == Setting(true, true)
    ensures IsRun(c, run)
    ensures After(c, run) == State({}, false, None, Some(ForSetup), true, HandleStored, Some(Passed), None, None,
                                   Registering, true, Some(ForRegister))
  {
    hide After, IsRun;
    StartOfRun(c);
    run := [];
    run := Then(c, run, StoreHandle);
    run := Then(c, run, Enter);
    run := Then(c, run, TakeHandle);
    run := Then(c, run, TakeReceiver);
    run := Then(c, run, Decide);
  }

  lemma StartOfRun(c: Setting)
    ensures IsRun(c, []) && After(c, []) == Start(c)
  {
  }

  lemma Then(c: Setting, run: seq<Step>, step: Step) returns (run': seq<Step>)
    requires IsRun(c, run) && Enabled(c, After(c, run), step)
    ensures run' == run + [step]
    ensures IsRun(c, run') && After(c, run') == Apply(c, After(c, run), step)
  {
    run' := run + [step];
    assert run'[..|run|] == run;
  }

  lemma RestingPlace(c: Setting, s: State)
    requires s.setup == Finished && s.register == Over
    requires Subscribed(c) <= s.sent
    requires s.registerSlot == Some(Passed)
    requires s.setupSlot.None? && s.passed.None? && s.own.None? && s.drained.None? && s.held.None?
    ensures Quiet(c, s) && Held(s) == {Passed}
  {
  }

  // ----- When `register` goes through -----

  predicate BeforeAt(run: seq<Step>, i: nat, a: Step, b: Step) {
    i < |run| && run[i] == b && a in run[..i]
  }

  /** An `a` comes before a `b`. */
  ghost predicate Before(run: seq<Step>, a: Step, b: Step) {
    exists i: nat :: BeforeAt(run, i, a, b)
  }

  lemma BeforeAtSnoc(run: seq<Step>, step: Step, i: nat, a: Step, b: Step)
    ensures BeforeAt(run + [step], i, a, b) <==> BeforeAt(run, i, a, b) || (i == |run| && step == b && a in run)
  {
    if i <= |run| { assert (run + [step])[..i] == run[..i]; }
    assert run[..|run|] == run;
  }

  lemma BeforeSnoc(run: seq<Step>, step: Step, a: Step, b: Step)
    ensures Before(run + [step], a, b) <==> Before(run, a, b) || (step == b && a in run)
  {
    hide BeforeAt;
    BeforeAtSnoc(run, step, |run|, a, b);
    forall i: nat
      ensures BeforeAt(run + [step], i, a, b) <==> BeforeAt(run, i, a, b) || (i == |run| && step == b && a in run)
    {
      BeforeAtSnoc(run, step, i, a, b);
    }
  }

  /** The steps taken so far, by how far setup and `register` have come. */
  ghost predicate Stages(s: State, run: seq<Step>) {
    && (Signalled in run <==> s.setup == Draining || (s.setup == Finished && Notified !in run))
    && (Notified in run ==> s.setup == Finished)
    && (s.register in {NotCalled, Entered} ==> !Before(run, StoreHandle, TakeHandle))
    && (s.register in {NotCalled, Entered, HandleTaken} ==>
          TakeReceiver !in run && !Before(run, Signalled, TakeReceiver))
  }

  /** What `register` finds, by what setup had done when it came for it. */
  ghost predicate Finds(c: Setting, s: State, run: seq<Step>) {
    FindsHandle(s, run) && FindsReceiver(c, s, run)
  }

  ghost predicate FindsHandle(s: State, run: seq<Step>) {
    && (s.register in {NotCalled, Entered} ==> (s.handleSlot <==> StoreHandle in run))
    && (s.register in {HandleTaken, ReceiverTaken} ==> (s.hasHandle <==> Before(run, StoreHandle, TakeHandle)))
  }

  ghost predicate FindsReceiver(c: Setting, s: State, run: seq<Step>) {
    s.register == ReceiverTaken ==> (s.held.Some? <==> c.controller && !Before(run, Signalled, TakeReceiver))
  }

  lemma StagesStep(c: Setting, s: State, run: seq<Step>, step: Step)
    requires Enabled(c, s, step) && Stages(s, run)
    ensures Stages(Apply(c, s, step), run + [step])
  {
    hide Subscribed, Before;
    BeforeSnoc(run, step, StoreHandle, TakeHandle);
    BeforeSnoc(run, step, Signalled, TakeReceiver);
    assert Signalled in run + [step] <==> Signalled in run || step == Signalled;
    assert Notified in run + [step] <==> Notified in run || step == Notified;
    assert TakeReceiver in run + [step] <==> TakeReceiver in run || step == TakeReceiver;
  }

  /** Until `register` takes it, its receiver is in the slot unless setup has been signalled. */
  lemma SlotForRegister(c: Setting, s: State, noticed: bool)
    requires Inv(c, s, false, false, noticed)
    ensures s.registerSlot.Some? <==> c.controller && s.setup !in {Draining, Finished}
    ensures !noticed
  {
  }

  lemma FindsHandleStep(c: Setting, s: State, run: seq<Step>, step: Step)
    requires Enabled(c, s, step) && Stages(s, run) && FindsHandle(s, run)
    ensures FindsHandle(Apply(c, s, step), run + [step])
  {
    hide Subscribed, Before;
    BeforeSnoc(run, step, StoreHandle, TakeHandle);
    assert StoreHandle in run + [step] <==> StoreHandle in run || step == StoreHandle;
  }

  lemma FindsReceiverStep(c: Setting, s: State, run: seq<Step>, step: Step)
    requires Enabled(c, s, step) && Stages(s, run) && FindsReceiver(c, s, run)
    requires step == TakeReceiver ==> (s.registerSlot.Some? <==> c.controller && Signalled !in run)
    ensures FindsReceiver(c, Apply(c, s, step), run + [step])
  {
    hide Subscribed, Before;
    BeforeSnoc(run, step, Signalled, TakeReceiver);
  }

  lemma SlotAtTake(c: Setting, run: seq<Step>)
    requires IsRun(c, run) && Enabled(c, After(c, run), TakeReceiver) && Stages(After(c, run), run)
    ensures After(c, run).registerSlot.Some? <==> c.controller && Signalled !in run
  {
    hide Inv, IsRun, After;
    RunKeepsInv(c, run);
    NotEarly(run);
    SlotForRegister(c, After(c, run), Notified in run);
  }

  lemma NotEarly(run: seq<Step>)
    ensures TookEarly(run) ==> TakeReceiver in run
  {
  }

  lemma {:induction false} RunFinds(c: Setting, run: seq<Step>)
    requires IsRun(c, run)
    ensures Stages(After(c, run), run) && Finds(c, After(c, run), run)
  {
    hide Stages, FindsHandle, FindsReceiver, Apply, Enabled;
    if run == [] {
      StartFinds(c);
    } else {
      var before, step := run[..|run| - 1], run[|run| - 1];
      RunFinds(c, before);
      assert run == before + [step];
      StagesStep(c, After(c, before), before, step);
      if step == TakeReceiver { SlotAtTake(c, before); }
      FindsHandleStep(c, After(c, before), before, step);
      FindsReceiverStep(c, After(c, before), before, step);
    }
  }

  lemma StartFinds(c: Setting)
    ensures Stages(Start(c), []) && Finds(c, Start(c), [])
  {
  }

  /** `register` goes on to register the actor exactly when there is a controller, setup had
      stored the handle when `register` came for it, and setup had not yet been signalled when
      it came for the receiver. Without an actor id it does not come that far. */
  lemma RegistersExactly(c: Setting, run: seq<Step>)
    requires IsRun(c, run) && Enabled(c, After(c, run), Decide)
    ensures Apply(c, After(c, run), Decide).register ==
      if c.controller && Before(run, StoreHandle, TakeHandle) && !Before(run, Signalled, TakeReceiver)
      then Registering else Over
    ensures c.actorId
  {
    hide Before;
    RunFinds(c, run);
    hide IsRun, After;
    NeedsActorId(c, run);
  }

  lemma {:induction false} NeedsActorId(c: Setting, run: seq<Step>)
    requires IsRun(c, run)
    ensures c.actorId || After(c, run).register in {NotCalled, Over}
  {
    hide Apply, Enabled;
    if run != [] {
      NeedsActorId(c, run[..|run| - 1]);
      if !c.actorId { StaysOut(c, After(c, run[..|run| - 1]), run[|run| - 1]); }
    }
  }

  lemma StaysOut(c: Setting, s: State, step: Step)
    requires Enabled(c, s, step) && !c.actorId && s.register in {NotCalled, Over}
    ensures Apply(c, s, step).register in {NotCalled, Over}
  {
    hide Subscribed;
  }
}
