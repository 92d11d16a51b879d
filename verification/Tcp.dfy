/** The TCP handler's shared connection table. Every critical section of a host function or
    background task is one operation on the table: checks run under the map lock, I/O later
    under the lock of the one stream, so anything can happen in between. */
module Tcp {
  import opened Prelude

  type ActorId = nat
  type ConnId = nat

  datatype ConnState = Pending | Active
  datatype DataMode = Passive | Pushing | Once
  datatype Stream = Full(tls: bool) | WriteOnly | Closed

  datatype Entry = Entry(owner: ActorId, state: ConnState, mode: DataMode)

  /** `streams` holds the stream cells: a cell outlives its entry for as long as some
      operation still holds it. */
  datatype Table = Table(connections: map<ConnId, Entry>, streams: map<ConnId, Stream>, nextId: ConnId)

  const EMPTY := Table(map[], map[], 1)

  datatype Reply =
    | Done | NotFound | NotOwner | AlreadyActive | NotActivated | NotPassive
    | AlreadySplit | StreamClosed | AlreadyTls | HandshakeFailed | CannotSwitch | NoHandle

  // ----- The critical sections as functions -----

  /** An id is taken first; the connection is inserted under it later, after a handshake. */
  function IdTaken(t: Table): (t': Table) {
    t.(nextId := t.nextId + 1)
  }

  function Inserted(t: Table, c: ConnId, a: ActorId, state: ConnState, tls: bool): (t': Table) {
    t.(connections := t.connections[c := Entry(a, state, Passive)], streams := t.streams[c := Full(tls)])
  }

  function Activated(t: Table, a: ActorId, c: ConnId): (r: (Table, Reply)) {
    if c !in t.connections then (t, NotFound)
    else if t.connections[c].owner != a then (t, NotOwner)
    else if t.connections[c].state == Active then (t, AlreadyActive)
    else (t.(connections := t.connections[c := t.connections[c].(state := Active)]), Done)
  }

  function WithMode(t: Table, a: ActorId, c: ConnId, mode: DataMode, handle: bool): (r: (Table, Reply)) {
    if c !in t.connections then (t, NotFound)
    else
      var e := t.connections[c];
      if e.owner != a then (t, NotOwner)
      else if e.state != Active then (t, NotActivated)
      else if e.mode == mode then (t, Done)
      else if e.mode != Passive then (t, CannotSwitch)
      else if c !in t.streams || t.streams[c] == Closed then (t, StreamClosed)
      else if t.streams[c] == WriteOnly then (t, AlreadySplit)
      else (t.(connections := t.connections[c := e.(mode := mode)], streams := t.streams[c := WriteOnly]),
            if handle then Done else NoHandle)
  }

  /** The stream was split by this call. */
  predicate Splits(t: Table, a: ActorId, c: ConnId, mode: DataMode, handle: bool) {
    c in t.streams && t.streams[c].Full? && WithMode(t, a, c, mode, handle).0.streams[c] == WriteOnly
  }

  function Transferred(t: Table, a: ActorId, c: ConnId, target: ActorId): (r: (Table, Reply)) {
    if c !in t.connections then (t, NotFound)
    else if t.connections[c].owner != a then (t, NotOwner)
    else (t.(connections := t.connections[c := t.connections[c].(owner := target, state := Active)]), Done)
  }

  /** The check before a send (`passive` false), or before a receive or an upgrade. */
  function Checked(t: Table, a: ActorId, c: ConnId, passive: bool): (r: Reply) {
    if c !in t.connections then NotFound
    else if t.connections[c].owner != a then NotOwner
    else if t.connections[c].state != Active then NotActivated
    else if passive && t.connections[c].mode != Passive then NotPassive
    else Done
  }

  function SendReply(t: Table, c: ConnId): (r: Reply)
    requires c in t.streams
  {
    if t.streams[c] == Closed then StreamClosed else Done
  }

  function ReceiveReply(t: Table, c: ConnId): (r: Reply)
    requires c in t.streams
  {
    match t.streams[c] case Full(_) => Done case WriteOnly => AlreadySplit case Closed => StreamClosed
  }

  /** The handshake consumes the plain stream; on failure nothing is left. */
  function Upgraded(t: Table, c: ConnId, ok: bool): (r: (Table, Reply))
    requires c in t.streams
  {
    match t.streams[c]
    case WriteOnly => (t, AlreadySplit)
    case Closed => (t, StreamClosed)
    case Full(tls) =>
      if tls then (t, AlreadyTls)
      else if ok then (t.(streams := t.streams[c := Full(true)]), Done)
      else (t.(streams := t.streams[c := Closed]), HandshakeFailed)
  }

  function Removed(t: Table, c: ConnId): (t': Table) {
    t.(connections := t.connections - {c})
  }

  function ClosedBy(t: Table, a: ActorId, c: ConnId): (r: (Table, Reply)) {
    if c !in t.connections then (t, NotFound)
    else if t.connections[c].owner != a then (t, NotOwner)
    else (Removed(t, c), Done)
  }

  function Shut(t: Table, c: ConnId): (t': Table) {
    t.(streams := t.streams[c := Closed])
  }

  function BackToPassive(t: Table, c: ConnId): (t': Table) {
    if c in t.connections then t.(connections := t.connections[c := t.connections[c].(mode := Passive)]) else t
  }

  function OwnedBy(t: Table, a: ActorId): (ids: set<ConnId>) {
    set c | c in t.connections && t.connections[c].owner == a
  }

  // ----- What every operation keeps -----

  /** A mapped connection: pending ones are passive and whole, and data is pushed only from a
      split stream. */
  predicate EntryOk(t: Table, c: ConnId)
    requires c in t.connections
  {
    && c in t.streams
    && (t.connections[c].state == Pending ==> t.connections[c].mode == Passive && t.streams[c].Full?)
    && (t.connections[c].mode != Passive ==> t.streams[c] == WriteOnly)
  }

  predicate TableOk(t: Table) {
    && (forall c :: c in t.streams ==> c < t.nextId)
    && (forall c :: c in t.connections ==> EntryOk(t, c))
  }

  /** Connection `c`, its entry and its stream, is as it was. */
  predicate Same(t: Table, t': Table, c: ConnId) {
    && (c in t'.connections <==> c in t.connections)
    && (c in t.connections ==> t'.connections[c] == t.connections[c])
    && (c in t'.streams <==> c in t.streams)
    && (c in t.streams ==> t'.streams[c] == t.streams[c])
  }

  ghost predicate OnlyTouches(t: Table, t': Table, c: ConnId) {
    t'.nextId == t.nextId && forall other :: other != c ==> Same(t, t', other)
  }

  /** Connections that are mapped and belong to actors other than `a` are as they were. */
  ghost predicate SparesOthers(t: Table, t': Table, a: ActorId) {
    forall c :: c in t.connections && t.connections[c].owner != a ==> Same(t, t', c)
  }

  predicate Gone(t: Table, c: ConnId) {
    c !in t.connections && c in t.streams && t.streams[c] == Closed
  }

  /** Of what `a` owned in `t0` only the connections in `left` are still there, and nothing
      else has changed. */
  ghost predicate Cleaned(t0: Table, t: Table, a: ActorId, left: set<ConnId>) {
    && SparesOthers(t0, t, a)
    && (forall c :: c in t.connections ==> c in t0.connections)
    && (forall c :: c in left ==> c in t.connections && c in OwnedBy(t0, a))
    && (forall c :: c in OwnedBy(t0, a) && c !in left ==> Gone(t, c))
  }

  lemma CleanedStep(t0: Table, t: Table, t': Table, a: ActorId, left: set<ConnId>, c: ConnId)
    requires Cleaned(t0, t, a, left) && c in left && OnlyTouches(t, t', c) && Gone(t', c)
    ensures Cleaned(t0, t', a, left - {c})
  {
    forall x
      ensures x in t0.connections && t0.connections[x].owner != a ==> Same(t0, t', x)
      ensures x in t'.connections ==> x in t0.connections
      ensures x in left - {c} ==> x in t'.connections
      ensures x in OwnedBy(t0, a) && x !in left - {c} ==> Gone(t', x)
    {
      if x != c {
        assert Same(t, t', x);
        assert x in t0.connections && t0.connections[x].owner != a ==> Same(t0, t, x);
        assert x in OwnedBy(t0, a) && x !in left ==> Gone(t, x);
      }
    }
  }

  // ----- The table updated in place -----

  class SharedTcpState {
    var connections: map<ConnId, Entry>
    var streams: map<ConnId, Stream>
    var nextId: ConnId

    ghost function View(): (t: Table)
      reads this
    {
      Table(connections, streams, nextId)
    }

    ghost predicate Valid()
      reads this
    {
      TableOk(View())
    }

    constructor ()
      ensures Valid() && View() == EMPTY
    {
      connections, streams, nextId := map[], map[], 1;
    }

    /** The id has never been used, and will not be handed out again. */
    method NextId() returns (c: ConnId)
      requires Valid()
      modifies this`nextId
      ensures Valid() && View() == IdTaken(old(View()))
      ensures c !in streams && c !in connections && old(nextId) <= c < nextId
    {
      assert forall x :: x in connections ==> EntryOk(View(), x);
      c := nextId;
      nextId := nextId + 1;
      assert forall x :: x in connections ==> EntryOk(old(View()), x);
    }

    /** `connect` inserts active connections, an accepted one starts pending. */
    method Insert(c: ConnId, a: ActorId, state: ConnState, tls: bool)
      requires Valid() && c < nextId && c !in streams
      modifies this`connections, this`streams
      ensures Valid() && View() == Inserted(old(View()), c, a, state, tls)
      ensures OnlyTouches(old(View()), View(), c)
    {
      assert forall x :: x in connections ==> EntryOk(View(), x);
      streams := streams[c := Full(tls)];
      connections := connections[c := Entry(a, state, Passive)];
      assert forall x :: x in connections && x != c ==> EntryOk(old(View()), x);
    }

    method Activate(a: ActorId, c: ConnId) returns (r: Reply)
      requires Valid()
      modifies this`connections
      ensures Valid() && (View(), r) == Activated(old(View()), a, c)
      ensures OnlyTouches(old(View()), View(), c) && SparesOthers(old(View()), View(), a)
    {
      if c !in connections { return NotFound; }
      var entry := connections[c];
      if entry.owner != a { return NotOwner; }
      if entry.state == Active { return AlreadyActive; }
      connections := connections[c := entry.(state := Active)];
      assert forall x :: x in connections ==> EntryOk(old(View()), x);
      return Done;
    }

    /** `spawned` says that a read loop now holds the read half. */
    method SetActive(a: ActorId, c: ConnId, mode: DataMode, handle: bool) returns (r: Reply, spawned: bool)
      requires Valid()
      modifies this`connections, this`streams
      ensures Valid() && (View(), r) == WithMode(old(View()), a, c, mode, handle)
      ensures spawned <==> handle && Splits(old(View()), a, c, mode, handle)
      ensures OnlyTouches(old(View()), View(), c) && SparesOthers(old(View()), View(), a)
    {
      spawned := false;
      if c !in connections { return NotFound, false; }
      var entry := connections[c];
      if entry.owner != a { return NotOwner, false; }
      if entry.state != Active { return NotActivated, false; }
      match (entry.mode, mode) {
        case (Passive, Passive) => return Done, false;
        case (Passive, _) =>
          var stream := if c in streams then streams[c] else Closed;
          if stream == Closed { return StreamClosed, false; }
          if stream == WriteOnly { return AlreadySplit, false; }
          streams := streams[c := WriteOnly];
          connections := connections[c := entry.(mode := mode)];
          assert forall x :: x in connections ==> EntryOk(old(View()), x);
          if !handle { return NoHandle, false; }
          return Done, true;
        case (_, Passive) => return CannotSwitch, false;
        case (Pushing, Once) => return CannotSwitch, false;
        case (Once, Pushing) => return CannotSwitch, false;
        case _ => return Done, false;
      }
    }

    method Transfer(a: ActorId, c: ConnId, target: ActorId) returns (r: Reply)
      requires Valid()
      modifies this`connections
      ensures Valid() && (View(), r) == Transferred(old(View()), a, c, target)
      ensures OnlyTouches(old(View()), View(), c) && SparesOthers(old(View()), View(), a)
    {
      if c !in connections { return NotFound; }
      var entry := connections[c];
      if entry.owner != a { return NotOwner; }
      entry := entry.(owner := target);
      entry := entry.(state := Active);
      connections := connections[c := entry];
      assert forall x :: x in connections ==> EntryOk(old(View()), x);
      return Done;
    }

    method CheckIo(a: ActorId, c: ConnId, passive: bool) returns (r: Reply)
      ensures r == Checked(View(), a, c, passive)
    {
      if c !in connections { return NotFound; }
      var entry := connections[c];
      if entry.owner != a { return NotOwner; }
      if entry.state == Pending { return NotActivated; }
      if passive && entry.mode != Passive { return NotPassive; }
      return Done;
    }

    /** Runs some time after its check: the connection may have left the map, but if it is
        still there it is active. */
    method Upgrade(c: ConnId, ok: bool) returns (r: Reply)
      requires Valid() && c in streams
      requires c in connections ==> connections[c].state == Active
      modifies this`streams
      ensures Valid() && (View(), r) == Upgraded(old(View()), c, ok)
      ensures OnlyTouches(old(View()), View(), c)
    {
      var taken := streams[c];
      streams := streams[c := Closed];
      match taken {
        case WriteOnly =>
          streams := streams[c := WriteOnly];
          r := AlreadySplit;
        case Closed =>
          r := StreamClosed;
        case Full(true) =>
          streams := streams[c := taken];
          r := AlreadyTls;
        case Full(false) =>
          if ok {
            streams := streams[c := Full(true)];
            r := Done;
          } else {
            r := HandshakeFailed;
          }
      }
      assert streams == old(streams)[c := streams[c]];
      assert streams[c] == taken ==> streams == old(streams);
      assert forall x :: x in connections ==> EntryOk(old(View()), x);
    }

    /** Close by the owner: the entry goes first, then its stream is shut down. */
    method Close(a: ActorId, c: ConnId) returns (r: Reply)
      requires Valid()
      modifies this`connections, this`streams
      ensures Valid()
      ensures r == ClosedBy(old(View()), a, c).1
      ensures r == Done ==> c !in connections && c in streams && streams[c] == Closed
      ensures r != Done ==> View() == old(View())
      ensures OnlyTouches(old(View()), View(), c) && SparesOthers(old(View()), View(), a)
    {
      if c !in connections { return NotFound; }
      if connections[c].owner != a { return NotOwner; }
      CloseAndRemove(c);
      return Done;
    }

    /** Whoever finds the entry takes it out and shuts its stream down; for everybody else
        there is nothing left to do. */
    method CloseAndRemove(c: ConnId)
      requires Valid()
      modifies this`connections, this`streams
      ensures Valid() && c !in connections
      ensures c in old(connections) ==> c in streams && streams[c] == Closed
      ensures c !in old(connections) ==> View() == old(View())
      ensures OnlyTouches(old(View()), View(), c)
    {
      if c !in connections { return; }
      assert forall x :: x in connections ==> EntryOk(View(), x);
      connections := connections - {c};
      streams := streams[c := Closed];
      assert forall x :: x in connections ==> EntryOk(old(View()), x);
    }

    /** Shutdown cleanup that nobody gets in the way of: when it is done, the actor's
        connections are unmapped and shut down, and those of other actors are as they were. */
    method CleanUp(a: ActorId)
      requires Valid()
      modifies this`connections, this`streams
      ensures Valid()
      ensures Cleaned(old(View()), View(), a, {})
      ensures OwnedBy(View(), a) == {}
    {
      var left := CollectOwned(a);
      while left != {}
        invariant Valid() && Cleaned(old(View()), View(), a, left)
      {
        var c :| c in left;
        ghost var t := View();
        CloseAndRemove(c);
        CleanedStep(old(View()), t, View(), a, left, c);
        left := left - {c};
      }
    }

    /** Every entry is looked at; the ids of those the actor owns are kept. */
    method CollectOwned(a: ActorId) returns (ids: set<ConnId>)
      ensures ids == OwnedBy(View(), a)
    {
      ids := {};
      var left := connections.Keys;
      while left != {}
        invariant left <= connections.Keys
        invariant forall c :: c in ids <==> c in connections && c !in left && connections[c].owner == a
      {
        var c :| c in left;
        if connections[c].owner == a {
          ids := ids + {c};
        }
        left := left - {c};
      }
    }
  }
}
