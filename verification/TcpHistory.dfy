/** The TCP connection table told by the history of a run alone: which connections are mapped,
    who owns them, which are active, in which mode, with what stream; and, from that, what every
    operation answers. */
module TcpHistory {
  import opened Prelude
  import opened Tcp
  import opened TcpRuns

  // ----- What the history says -----

  predicate InsertsAt(run: seq<Step>, i: nat, c: ConnId) {
    i < |run| && run[i].Insert? && run[i].c == c
  }

  /** Step `j` takes connection `c` out of the map. */
  predicate UnmapsAt(run: seq<Step>, j: nat, c: ConnId)
    requires After(run).Some?
  {
    && j < |run|
    && ((Unmaps(run[j]) && run[j].c == c) || (run[j].Close? && run[j].c == c && Owns(TableAt(run, j), run[j].a, c)))
  }

  /** It was inserted and has not been taken out since. */
  ghost predicate MappedBy(run: seq<Step>, n: nat, c: ConnId)
    requires After(run).Some?
  {
    exists i: nat :: i < n && InsertsAt(run, i, c) && forall j: nat :: i < j < n ==> !UnmapsAt(run, j, c)
  }

  /** The transfers since the insert have brought it to `a`. */
  ghost predicate HeldBy(run: seq<Step>, n: nat, a: ActorId, c: ConnId)
    requires n <= |run|
  {
    exists i: nat :: i < n && InsertsAt(run, i, c) && OwnerAfter(run[i].a, run[i + 1..n], c) == a
  }

  /** Step `k` makes it active: an insert as active, an activation by its owner, a transfer by it. */
  predicate GrantsAt(run: seq<Step>, k: nat, c: ConnId)
    requires After(run).Some?
  {
    k < |run| && Grants(TableAt(run, k), run[k], c)
  }

  predicate Grants(t: Table, e: Step, c: ConnId) {
    || (e.Insert? && e.c == c && e.state == Active)
    || ((e.Activate? || e.Transfer?) && e.c == c && Owns(t, e.a, c))
  }

  ghost predicate ActiveBy(run: seq<Step>, n: nat, c: ConnId)
    requires After(run).Some?
  {
    exists k: nat :: k < n && GrantsAt(run, k, c)
  }

  /** It was split for `mode`, and no once-mode read on it has finished since. */
  ghost predicate PushingBy(run: seq<Step>, n: nat, c: ConnId, mode: DataMode)
    requires After(run).Some?
  {
    exists k: nat :: && k < n && SplitAt(run, k, c) && run[k].mode == mode
                     && forall j: nat :: k < j < n && j < |run| ==> !(run[j].OnceFinish? && run[j].c == c)
  }

  ghost predicate SplitBy(run: seq<Step>, n: nat, c: ConnId)
    requires After(run).Some?
  {
    exists k: nat :: k < n && SplitAt(run, k, c)
  }

  /** A handshake on it has failed, or it has been shut down. */
  ghost predicate LostBy(run: seq<Step>, n: nat, c: ConnId)
    requires After(run).Some?
  {
    exists k: nat :: k < n && LosesAt(run, k, c)
  }

  predicate LosesAt(run: seq<Step>, k: nat, c: ConnId)
    requires After(run).Some?
  {
    k < |run| && Loses(TableAt(run, k), run[k], c)
  }

  predicate Loses(t: Table, e: Step, c: ConnId) {
    || (e.Upgrade? && e.c == c && !e.ok && c in t.streams && t.streams[c] == Full(false))
    || e == ShutStream(c)
  }

  /** It was inserted with TLS, or a handshake on it has succeeded. */
  ghost predicate TlsBy(run: seq<Step>, n: nat, c: ConnId)
    requires After(run).Some?
  {
    exists k: nat :: k < n && SecuresAt(run, k, c)
  }

  predicate SecuresAt(run: seq<Step>, k: nat, c: ConnId)
    requires After(run).Some?
  {
    k < |run| && Secures(TableAt(run, k), run[k], c)
  }

  predicate Secures(t: Table, e: Step, c: ConnId) {
    || (e.Insert? && e.c == c && e.tls)
    || (e.Upgrade? && e.c == c && e.ok && c in t.streams && t.streams[c] == Full(false))
  }

  // ----- One step -----

  lemma MapStep(s: State, e: Step, c: ConnId)
    requires Inv(s) && Enabled(s, e)
    ensures c in TableAfter(s.table, e).connections <==>
      || (e.Insert? && e.c == c)
      || (c in s.table.connections && !(Unmaps(e) && e.c == c) && !(e.Close? && e.c == c && Owns(s.table, e.a, c)))
  {
    hide TaskOk;
  }

  lemma ActiveStep(s: State, e: Step, c: ConnId)
    requires Inv(s) && Enabled(s, e)
    requires c in s.table.connections && c in TableAfter(s.table, e).connections
    ensures TableAfter(s.table, e).connections[c].state == Active <==>
      s.table.connections[c].state == Active || Grants(s.table, e, c)
  {
    hide TaskOk;
    if e.Insert? { assert ReservedOk(s); }
    assert EntryOk(s.table, c);
  }

  lemma ModeStep(s: State, e: Step, c: ConnId)
    requires Inv(s) && Enabled(s, e)
    requires c in s.table.connections && c in TableAfter(s.table, e).connections
    ensures TableAfter(s.table, e).connections[c].mode ==
      if e.SetActive? && e.c == c && Splits(s.table, e.a, c, e.mode, e.handle) then e.mode
      else if e.OnceFinish? && e.c == c then Passive
      else s.table.connections[c].mode
    ensures e.SetActive? && e.c == c && Splits(s.table, e.a, c, e.mode, e.handle) ==> e.mode != Passive
  {
    hide TaskOk;
    assert EntryOk(s.table, c);
  }

  lemma StreamStep(s: State, e: Step, c: ConnId)
    requires Inv(s) && Enabled(s, e) && c in s.table.streams
    ensures c in TableAfter(s.table, e).streams
    ensures TableAfter(s.table, e).streams[c] == Closed <==> s.table.streams[c] == Closed || Loses(s.table, e, c)
    ensures TableAfter(s.table, e).streams[c].Full? <==>
      && s.table.streams[c].Full? && !Loses(s.table, e, c)
      && !(e.SetActive? && e.c == c && Splits(s.table, e.a, c, e.mode, e.handle))
    ensures TableAfter(s.table, e).streams[c].Full? ==>
      (TableAfter(s.table, e).streams[c].tls <==> s.table.streams[c].tls || Secures(s.table, e, c))
  {
    hide TaskOk;
    if e.Insert? { assert ReservedOk(s); }
  }

  // ----- The table is what the history says -----

  /** Before a connection has a stream, nothing has happened to it. */
  lemma NothingBefore(run: seq<Step>, n: nat, k: nat, c: ConnId)
    requires After(run).Some? && k < n <= |run| && c !in TableAt(run, n).streams
    ensures !InsertsAt(run, k, c) && !SplitAt(run, k, c) && !GrantsAt(run, k, c)
    ensures !SecuresAt(run, k, c) && !LosesAt(run, k, c)
  {
    hide After, Inv, Enabled;
    TableStep(run, k);
    if c in TableAt(run, k).streams { StreamsPersist(run, k, n, c); }
    if c in TableAt(run, k + 1).streams { StreamsPersist(run, k + 1, n, c); }
    HasStream(run, k, c);
  }

  lemma HasStream(run: seq<Step>, k: nat, c: ConnId)
    requires After(run).Some? && k <= |run|
    ensures c in TableAt(run, k).connections ==> c in TableAt(run, k).streams
  {
    hide After, Inv;
    PrefixRuns(run, k);
    RunKeepsInv(run[..k]);
    if c in TableAt(run, k).connections { KnownBelow(After(run[..k]).value, c); }
  }

  /** The insert of `c` is its first step. */
  lemma FirstStep(run: seq<Step>, n: nat, c: ConnId)
    requires After(run).Some? && InsertsAt(run, n, c)
    ensures c !in TableAt(run, n).streams && c !in TableAt(run, n).connections
    ensures TableAt(run, n + 1) == Inserted(TableAt(run, n), c, run[n].a, run[n].state, run[n].tls)
    ensures !SplitAt(run, n, c) && !LosesAt(run, n, c)
    ensures GrantsAt(run, n, c) <==> run[n].state == Active
    ensures SecuresAt(run, n, c) <==> run[n].tls
  {
    hide After;
    TableStep(run, n);
    InsertsNew(After(run[..n]).value, run[n]);
  }

  lemma InsertsNew(s: State, e: Step)
    requires Inv(s) && Enabled(s, e) && e.Insert?
    ensures e.c !in s.table.streams && e.c !in s.table.connections
  {
    hide TaskOk;
    assert e.c in s.table.connections ==> EntryOk(s.table, e.c);
  }

  /** A connection is mapped exactly when it has been inserted and not taken out since. */
  lemma {:induction false} MappedExactly(run: seq<Step>, n: nat, c: ConnId)
    requires After(run).Some? && n <= |run|
    ensures c in TableAt(run, n).connections <==> MappedBy(run, n, c)
  {
    hide After, Inv, Enabled, TableAfter;
    if n == 0 {
      NothingMapped(run);
    } else {
      MappedExactly(run, n - 1, c);
      TableStep(run, n - 1);
      MapStep(After(run[..n - 1]).value, run[n - 1], c);
      MappedNext(run, n, c);
    }
  }

  lemma MappedNext(run: seq<Step>, n: nat, c: ConnId)
    requires After(run).Some? && 0 < n <= |run|
    ensures MappedBy(run, n, c) <==>
      InsertsAt(run, n - 1, c) || (MappedBy(run, n - 1, c) && !UnmapsAt(run, n - 1, c))
  {
    hide After;
    if i: nat :| i < n - 1 && InsertsAt(run, i, c) && forall j: nat :: i < j < n - 1 ==> !UnmapsAt(run, j, c) {
      assert !UnmapsAt(run, n - 1, c) ==> forall j: nat :: i < j < n ==> !UnmapsAt(run, j, c);
    }
  }

  /** A mapped connection has one insert, and its owner is what the transfers since then make it. */
  lemma HeldExactly(run: seq<Step>, n: nat, a: ActorId, c: ConnId)
    requires After(run).Some? && n <= |run| && c in TableAt(run, n).connections
    ensures TableAt(run, n).connections[c].owner == a <==> HeldBy(run, n, a, c)
  {
    hide After, OwnerAfter, MappedBy;
    MappedExactly(run, n, c);
    var i := Insertion(run, n, c);
    HeldSince(run, i, n, c);
    forall j: nat | j < n && InsertsAt(run, j, c)
      ensures j == i
    {
      InsertOnce(run, i, j, c);
      InsertOnce(run, j, i, c);
    }
  }

  lemma Insertion(run: seq<Step>, n: nat, c: ConnId) returns (i: nat)
    requires After(run).Some? && MappedBy(run, n, c)
    ensures i < n && InsertsAt(run, i, c)
  {
    i :| i < n && InsertsAt(run, i, c);
  }

  lemma InsertOnce(run: seq<Step>, i: nat, j: nat, c: ConnId)
    requires After(run).Some? && InsertsAt(run, i, c) && InsertsAt(run, j, c)
    ensures j <= i
  {
    hide After;
    if i < j {
      FirstStep(run, j, c);
      NothingBefore(run, j, i, c);
    }
  }

  lemma HeldSince(run: seq<Step>, i: nat, n: nat, c: ConnId)
    requires After(run).Some? && InsertsAt(run, i, c) && i < n <= |run| && c in TableAt(run, n).connections
    ensures TableAt(run, n).connections[c].owner == OwnerAfter(run[i].a, run[i + 1..n], c)
  {
    hide After, OwnerAfter;
    FirstStep(run, i, c);
    OwnerExactly(run, i + 1, n, c);
  }

  /** A step that maps `c` anew is its insert. */
  lemma NewlyMapped(run: seq<Step>, n: nat, c: ConnId)
    requires After(run).Some? && n < |run|
    requires c !in TableAt(run, n).connections && c in TableAt(run, n + 1).connections
    ensures InsertsAt(run, n, c)
  {
    hide After, Inv, Enabled, TableAfter;
    TableStep(run, n);
    MapStep(After(run[..n]).value, run[n], c);
  }

  /** A connection is active exactly when it was inserted so, its owner of some moment has
      activated it, or its owner of some moment has handed it on. */
  lemma {:induction false} ActiveExactly(run: seq<Step>, n: nat, c: ConnId)
    requires After(run).Some? && n <= |run| && c in TableAt(run, n).connections
    ensures TableAt(run, n).connections[c].state == Active <==> ActiveBy(run, n, c)
  {
    hide After, Inv, Enabled, TableAfter, Grants;
    if n == 0 {
      NothingMapped(run);
    } else if c in TableAt(run, n - 1).connections {
      ActiveExactly(run, n - 1, c);
      TableStep(run, n - 1);
      ActiveStep(After(run[..n - 1]).value, run[n - 1], c);
      assert GrantsAt(run, n - 1, c) <==> Grants(TableAt(run, n - 1), run[n - 1], c);
    } else {
      NewlyMapped(run, n - 1, c);
      FirstStep(run, n - 1, c);
      forall k: nat | k < n - 1 ensures !GrantsAt(run, k, c) { NothingBefore(run, n - 1, k, c); }
    }
  }

  /** A connection pushes data in the mode it was split for, until a once-mode read finishes. */
  lemma {:induction false} ModeExactly(run: seq<Step>, n: nat, c: ConnId, mode: DataMode)
    requires After(run).Some? && n <= |run| && c in TableAt(run, n).connections && mode != Passive
    ensures TableAt(run, n).connections[c].mode == mode <==> PushingBy(run, n, c, mode)
  {
    hide After, Inv, Enabled, TableAfter, SplitAt, Splits;
    if n == 0 {
      NothingMapped(run);
    } else if c in TableAt(run, n - 1).connections {
      ModeExactly(run, n - 1, c, mode);
      TableStep(run, n - 1);
      ModeStep(After(run[..n - 1]).value, run[n - 1], c);
      SplitAtMeans(run, n - 1, c);
      forall k: nat | k < n - 1 && SplitAt(run, n - 1, c) ensures !SplitAt(run, k, c) {
        if SplitAt(run, k, c) { SplitOnce(run, k, n - 1, c); }
      }
    } else {
      NewlyMapped(run, n - 1, c);
      FirstStep(run, n - 1, c);
      forall k: nat | k < n - 1 ensures !SplitAt(run, k, c) { NothingBefore(run, n - 1, k, c); }
    }
  }

  /** A stream, even of a connection no longer mapped, is closed exactly when a handshake on it
      has failed or it has been shut down, split exactly when it has been split and not closed
      since, and encrypted exactly when it was inserted so or a handshake on it has succeeded. */
  lemma {:induction false} StreamExactly(run: seq<Step>, n: nat, c: ConnId)
    requires After(run).Some? && n <= |run| && c in TableAt(run, n).streams
    ensures TableAt(run, n).streams[c] == Closed <==> LostBy(run, n, c)
    ensures TableAt(run, n).streams[c].Full? <==> !LostBy(run, n, c) && !SplitBy(run, n, c)
    ensures TableAt(run, n).streams[c].Full? ==> (TableAt(run, n).streams[c].tls <==> TlsBy(run, n, c))
  {
    hide After, Inv, Enabled, TableAfter, SplitAt, Splits, Loses, Secures;
    if n == 0 {
      NothingMapped(run);
    } else if c in TableAt(run, n - 1).streams {
      StreamExactly(run, n - 1, c);
      TableStep(run, n - 1);
      StreamStep(After(run[..n - 1]).value, run[n - 1], c);
      assert LosesAt(run, n - 1, c) <==> Loses(TableAt(run, n - 1), run[n - 1], c);
      assert SecuresAt(run, n - 1, c) <==> Secures(TableAt(run, n - 1), run[n - 1], c);
      SplitAtMeans(run, n - 1, c);
    } else {
      NewStream(run, n - 1, c);
      FirstStep(run, n - 1, c);
      forall k: nat | k < n - 1 ensures !LosesAt(run, k, c) && !SplitAt(run, k, c) && !SecuresAt(run, k, c) {
        NothingBefore(run, n - 1, k, c);
      }
    }
  }

  lemma ContinuedOk(s: State, e: Step)
    requires Inv(s) && Enabled(s, e)
    ensures Continues(e).Some? ==> TaskOk(s.table, Continues(e).value)
  {
    hide TaskOk;
  }

  lemma NewStream(run: seq<Step>, n: nat, c: ConnId)
    requires After(run).Some? && n < |run|
    requires c !in TableAt(run, n).streams && c in TableAt(run, n + 1).streams
    ensures InsertsAt(run, n, c)
  {
    hide After, Enabled, Inv;
    TableStep(run, n);
    ContinuedOk(After(run[..n]).value, run[n]);
  }

  // ----- What every operation answers -----

  /** The check before a send (or, with `passive`, before a receive or an upgrade) refuses with
      the first of its four reasons that the history gives, and otherwise lets the actor pass. */
  lemma CheckAnswers(run: seq<Step>, n: nat, a: ActorId, c: ConnId, passive: bool)
    requires After(run).Some? && n <= |run|
    ensures Checked(TableAt(run, n), a, c, passive) ==
      if !MappedBy(run, n, c) then NotFound
      else if !HeldBy(run, n, a, c) then NotOwner
      else if !ActiveBy(run, n, c) then NotActivated
      else if passive && (PushingBy(run, n, c, Pushing) || PushingBy(run, n, c, Once)) then NotPassive
      else Done
  {
    hide After, MappedBy, HeldBy, ActiveBy, PushingBy;
    MappedExactly(run, n, c);
    if c in TableAt(run, n).connections {
      HeldExactly(run, n, a, c);
      ActiveExactly(run, n, c);
      ModeExactly(run, n, c, Pushing);
      ModeExactly(run, n, c, Once);
    }
  }

  lemma ActivateAnswers(run: seq<Step>, n: nat, a: ActorId, c: ConnId)
    requires After(run).Some? && n <= |run|
    ensures Activated(TableAt(run, n), a, c).1 ==
      if !MappedBy(run, n, c) then NotFound
      else if !HeldBy(run, n, a, c) then NotOwner
      else if ActiveBy(run, n, c) then AlreadyActive
      else Done
  {
    hide After, MappedBy, HeldBy, ActiveBy;
    MappedExactly(run, n, c);
    if c in TableAt(run, n).connections {
      HeldExactly(run, n, a, c);
      ActiveExactly(run, n, c);
    }
  }

  /** Handing on and closing are refused to all but the owner, and to the owner never: not even
      a pending connection or a lost stream stands in the way. */
  lemma OwnerAnswers(run: seq<Step>, n: nat, a: ActorId, c: ConnId, target: ActorId)
    requires After(run).Some? && n <= |run|
    ensures Transferred(TableAt(run, n), a, c, target).1 == ClosedBy(TableAt(run, n), a, c).1
    ensures ClosedBy(TableAt(run, n), a, c).1 ==
      if !MappedBy(run, n, c) then NotFound else if !HeldBy(run, n, a, c) then NotOwner else Done
  {
    hide After, MappedBy, HeldBy;
    MappedExactly(run, n, c);
    if c in TableAt(run, n).connections { HeldExactly(run, n, a, c); }
  }

  /** A connection that has been split can be put in no other mode again: after a once-mode read
      has finished it counts as passive, and every other mode is refused as already split. */
  lemma SetActiveAnswers(run: seq<Step>, n: nat, a: ActorId, c: ConnId, mode: DataMode, handle: bool)
    requires After(run).Some? && n <= |run|
    ensures WithMode(TableAt(run, n), a, c, mode, handle).1 ==
      if !MappedBy(run, n, c) then NotFound
      else if !HeldBy(run, n, a, c) then NotOwner
      else if !ActiveBy(run, n, c) then NotActivated
      else if PushingBy(run, n, c, Pushing) then if mode == Pushing then Done else CannotSwitch
      else if PushingBy(run, n, c, Once) then if mode == Once then Done else CannotSwitch
      else if mode == Passive then Done
      else if LostBy(run, n, c) then StreamClosed
      else if SplitBy(run, n, c) then AlreadySplit
      else if handle then Done else NoHandle
  {
    hide After, MappedBy, HeldBy, ActiveBy, PushingBy, LostBy, SplitBy, TlsBy;
    MappedExactly(run, n, c);
    if c in TableAt(run, n).connections {
      HeldExactly(run, n, a, c);
      ActiveExactly(run, n, c);
      ModeExactly(run, n, c, Pushing);
      ModeExactly(run, n, c, Once);
      HasStream(run, n, c);
      StreamExactly(run, n, c);
    }
  }

  /** The I/O that follows a check, whether or not the connection is still mapped: only a lost
      stream stops a send; a receive or an upgrade is also stopped by a split. */
  lemma IoAnswers(run: seq<Step>, n: nat, c: ConnId, ok: bool)
    requires After(run).Some? && n <= |run| && c in TableAt(run, n).streams
    ensures SendReply(TableAt(run, n), c) == if LostBy(run, n, c) then StreamClosed else Done
    ensures ReceiveReply(TableAt(run, n), c) ==
      if LostBy(run, n, c) then StreamClosed else if SplitBy(run, n, c) then AlreadySplit else Done
    ensures Upgraded(TableAt(run, n), c, ok).1 ==
      if LostBy(run, n, c) then StreamClosed
      else if SplitBy(run, n, c) then AlreadySplit
      else if TlsBy(run, n, c) then AlreadyTls
      else if ok then Done else HandshakeFailed
  {
    hide After, LostBy, SplitBy, TlsBy;
    StreamExactly(run, n, c);
  }

  // ----- What is in flight -----

  /** Step `e` takes `c` out of the map in a way that leaves its stream to be shut down: all do
      but the failed callback of an accepted connection. */
  predicate Evicts(t: Table, e: Step, c: ConnId) {
    && c in t.connections
    && ((e.Close? && e.c == c && Owns(t, e.a, c)) || ((e.ReadEnd? || e.TransferCallFailed? || e.CleanNext?) && e.c == c))
  }

  /** Step `e` puts task `k` in flight. */
  predicate Begins(t: Table, e: Step, k: Task) {
    match k
    case SendIo(a, c) => e == CheckSend(a, c) && Checked(t, a, c, false) == Done
    case ReceiveIo(a, c) => e == CheckReceive(a, c) && Checked(t, a, c, true) == Done
    case UpgradeIo(a, c) => e == CheckUpgrade(a, c) && Checked(t, a, c, true) == Done
    case Closing(c) => Evicts(t, e, c)
    case ReadLoop(a, c, once) =>
      || (&& e.SetActive? && e.a == a && e.c == c && e.handle && (once <==> e.mode == Once)
          && Splits(t, a, c, e.mode, e.handle))
      || (e == ReadData(a, c, false) && !once)
    case OnceDone(a, c) => e == ReadData(a, c, true)
    case HandleConnection(a, c) => e.Insert? && e.c == c && e.a == a && e.state == Pending
    case TransferCall(a, c) => e.Transfer? && e.c == c && e.target == a && e.detached && Owns(t, e.a, c)
    case Cleaning(a, ids) =>
      || (e == Collect(a) && ids == OwnedBy(t, a))
      || (e.CleanNext? && e.a == a && ids == e.ids - {e.c})
  }

  function TasksAt(run: seq<Step>, n: nat): (tasks: multiset<Task>)
    requires After(run).Some? && n <= |run|
  {
    PrefixRuns(run, n);
    After(run[..n]).value.tasks
  }

  function Begun(run: seq<Step>, n: nat, k: Task): (count: nat)
    requires After(run).Some? && n <= |run|
  {
    if n == 0 then 0 else Begun(run, n - 1, k) + if Begins(TableAt(run, n - 1), run[n - 1], k) then 1 else 0
  }

  function Continued(run: seq<Step>, n: nat, k: Task): (count: nat)
    requires n <= |run|
  {
    if n == 0 then 0 else Continued(run, n - 1, k) + if Continues(run[n - 1]) == Some(k) then 1 else 0
  }

  lemma StartsBegins(t: Table, e: Step, k: Task)
    ensures Starts(t, e)[k] == if Begins(t, e, k) then 1 else 0
  {
    hide Starts, Begins;
    if e.SetActive? || e.CheckSend? || e.CheckReceive? || e.CheckUpgrade? {
      CheckBegins(t, e, k);
    } else if e.ReadData? || e.Collect? {
      LoopBegins(t, e, k);
    } else if e.CleanNext? {
      CleanBegins(t, e, k);
    } else {
      OwnerBegins(t, e, k);
    }
  }

  lemma CheckBegins(t: Table, e: Step, k: Task)
    requires e.SetActive? || e.CheckSend? || e.CheckReceive? || e.CheckUpgrade?
    ensures Starts(t, e)[k] == if Begins(t, e, k) then 1 else 0
  {
    hide Checked, Splits, OwnedBy;
  }

  lemma CleanBegins(t: Table, e: Step, k: Task)
    requires e.CleanNext?
    ensures Starts(t, e)[k] == if Begins(t, e, k) then 1 else 0
  {
    hide Checked, Splits, OwnedBy;
    var again := Cleaning(e.a, e.ids - {e.c});
    if e.c in t.connections {
      assert Starts(t, e) == multiset{again} + multiset{Closing(e.c)};
    } else {
      assert Starts(t, e) == multiset{again};
    }
  }

  lemma LoopBegins(t: Table, e: Step, k: Task)
    requires e.ReadData? || e.Collect?
    ensures Starts(t, e)[k] == if Begins(t, e, k) then 1 else 0
  {
    hide Checked, Splits, OwnedBy;
  }

  lemma OwnerBegins(t: Table, e: Step, k: Task)
    requires !(e.SetActive? || e.CheckSend? || e.CheckReceive? || e.CheckUpgrade?)
    requires !(e.ReadData? || e.Collect? || e.CleanNext?)
    ensures Starts(t, e)[k] == if Begins(t, e, k) then 1 else 0
  {
    hide Checked, Splits, OwnedBy;
  }

  lemma TasksStep(run: seq<Step>, n: nat, k: Task)
    requires After(run).Some? && n < |run|
    ensures TasksAt(run, n + 1)[k] + (if Continues(run[n]) == Some(k) then 1 else 0) ==
      TasksAt(run, n)[k] + if Begins(TableAt(run, n), run[n], k) then 1 else 0
  {
    hide TableAfter, Inv, Starts, Begins;
    TableStep(run, n);
    PrefixRuns(run, n + 1);
    assert run[..n + 1][..n] == run[..n];
    StartsBegins(TableAt(run, n), run[n], k);
  }

  /** Over every run and for every task: what was begun is what was continued and what is still
      in flight. */
  lemma {:induction false} TasksExactly(run: seq<Step>, n: nat, k: Task)
    requires After(run).Some? && n <= |run|
    ensures Begun(run, n, k) == Continued(run, n, k) + TasksAt(run, n)[k]
  {
    hide After, Begins;
    if n == 0 {
      NothingMapped(run);
      NoTasks(run, k);
    } else {
      TasksExactly(run, n - 1, k);
      TasksStep(run, n - 1, k);
    }
  }

  lemma NoTasks(run: seq<Step>, k: Task)
    requires After(run).Some?
    ensures TasksAt(run, 0)[k] == 0
  {
    assert run[..0] == [];
  }

  predicate EvictsAt(run: seq<Step>, k: nat, c: ConnId)
    requires After(run).Some?
  {
    k < |run| && Evicts(TableAt(run, k), run[k], c)
  }

  /** It has been taken out of the map, and its stream not been shut down since. */
  ghost predicate DoomedBy(run: seq<Step>, n: nat, c: ConnId)
    requires After(run).Some? && n <= |run|
  {
    exists k: nat :: k < n && EvictsAt(run, k, c) && forall j :: k < j < n ==> run[j] != ShutStream(c)
  }

  lemma DoomedNext(run: seq<Step>, n: nat, c: ConnId)
    requires After(run).Some? && 0 < n <= |run|
    ensures DoomedBy(run, n, c) <==>
      EvictsAt(run, n - 1, c) || (DoomedBy(run, n - 1, c) && run[n - 1] != ShutStream(c))
  {
    hide After, Evicts;
    if k: nat :| k < n - 1 && EvictsAt(run, k, c) && forall j :: k < j < n - 1 ==> run[j] != ShutStream(c) {
      assert run[n - 1] != ShutStream(c) ==> forall j :: k < j < n ==> run[j] != ShutStream(c);
    }
  }

  lemma ClosingMeans(run: seq<Step>, n: nat, c: ConnId)
    requires After(run).Some? && n <= |run|
    ensures TasksAt(run, n)[Closing(c)] > 0 ==> c !in TableAt(run, n).connections
    ensures n < |run| && run[n] == ShutStream(c) ==> TasksAt(run, n)[Closing(c)] > 0
  {
    hide After, Inv, Enabled;
    PrefixRuns(run, n);
    RunKeepsInv(run[..n]);
    ClosingUnmapped(After(run[..n]).value, c);
    if n < |run| {
      TableStep(run, n);
      ShutEnabled(After(run[..n]).value, c);
    }
  }

  lemma ClosingUnmapped(s: State, c: ConnId)
    requires Inv(s)
    ensures Closing(c) in s.tasks ==> c !in s.table.connections
  {
    hide TableOk, ReservedOk;
    assert Closing(c) in s.tasks ==> TaskOk(s.table, Closing(c));
  }

  lemma ShutEnabled(s: State, c: ConnId)
    ensures Enabled(s, ShutStream(c)) ==> Closing(c) in s.tasks
  {
  }

  /** The shutdown of a stream is in flight, once, exactly from the step that takes its
      connection out of the map until the stream is shut down. */
  lemma {:induction false} ClosingExactly(run: seq<Step>, n: nat, c: ConnId)
    requires After(run).Some? && n <= |run|
    ensures TasksAt(run, n)[Closing(c)] == if DoomedBy(run, n, c) then 1 else 0
  {
    hide After, Evicts, DoomedBy;
    if n == 0 {
      NotDoomedYet(run, c);
    } else {
      ClosingExactly(run, n - 1, c);
      TasksStep(run, n - 1, Closing(c));
      ClosingMeans(run, n - 1, c);
      DoomedNext(run, n, c);
      EvictsMeans(TableAt(run, n - 1), run[n - 1], c);
    }
  }

  lemma NotDoomedYet(run: seq<Step>, c: ConnId)
    requires After(run).Some?
    ensures !DoomedBy(run, 0, c) && TasksAt(run, 0)[Closing(c)] == 0
  {
    NoTasks(run, Closing(c));
  }

  lemma EvictsMeans(t: Table, e: Step, c: ConnId)
    ensures Evicts(t, e, c) ==> c in t.connections && e != ShutStream(c)
    ensures Begins(t, e, Closing(c)) <==> Evicts(t, e, c)
    ensures Continues(e) == Some(Closing(c)) <==> e == ShutStream(c)
  {
  }

  /** The stream of a connection that is no longer mapped has been closed or is about to be,
      unless the connection was dropped because its callback failed: that stream nobody shuts down. */
  lemma {:induction false} LeftIsClosed(run: seq<Step>, n: nat, c: ConnId)
    requires After(run).Some? && n <= |run| && c in TableAt(run, n).streams && c !in TableAt(run, n).connections
    ensures || TableAt(run, n).streams[c] == Closed || Closing(c) in TasksAt(run, n)
            || exists k: nat :: k < n && DroppedAt(run, k, c)
  {
    hide After, TableAfter, Inv, Enabled, Loses;
    if n == 0 {
      NothingMapped(run);
    } else {
      TableStep(run, n - 1);
      var s := After(run[..n - 1]).value;
      if c !in s.table.streams {
        NewStream(run, n - 1, c);
        FirstStep(run, n - 1, c);
      } else {
        MapStep(s, run[n - 1], c);
        StreamStep(s, run[n - 1], c);
        TasksStep(run, n - 1, Closing(c));
        if c !in s.table.connections {
          LeftIsClosed(run, n - 1, c);
          ShutsDown(s, run[n - 1], c);
        } else {
          LeavesHow(s.table, run[n - 1], c);
          assert run[n - 1].ConnectionCallFailed? ==> DroppedAt(run, n - 1, c);
        }
      }
    }
  }

  /** The callback for an accepted connection has failed while it was mapped. */
  predicate DroppedAt(run: seq<Step>, k: nat, c: ConnId)
    requires After(run).Some?
  {
    k < |run| && run[k].ConnectionCallFailed? && run[k].c == c && c in TableAt(run, k).connections
  }

  lemma ShutsDown(s: State, e: Step, c: ConnId)
    ensures Loses(s.table, ShutStream(c), c)
    ensures Continues(e) == Some(Closing(c)) ==> e == ShutStream(c)
  {
  }

  lemma LeavesHow(t: Table, e: Step, c: ConnId)
    requires c in t.connections
    requires (Unmaps(e) && e.c == c) || (e.Close? && e.c == c && Owns(t, e.a, c))
    ensures (e.ConnectionCallFailed? && e.c == c) || (Begins(t, e, Closing(c)) && Continues(e) != Some(Closing(c)))
  {
  }
}
