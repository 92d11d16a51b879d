/** The per-actor chain of the runtime: an event's hash is SHA-1 over the JSON text of the
    event with an empty hash field, the head hash links the next event to it, and events are
    dispatched to subscribers, not retained. */
module StateChain {
  import opened Prelude
  import opened Json
  import opened HashChain

  /** `eventType` holds the UTF-8 bytes of the type identifier. */
  datatype ChainEvent = ChainEvent(hash: Bytes, parent: Option<Bytes>, eventType: Bytes, data: Bytes)

  // ----- Strings with escapes (section 7 of RFC 8259) -----

  const BACKSLASH: byte := '\\' as int
  const QUOTE: byte := '\"' as int

  function EscapeByte(c: byte): (s: Bytes)
    ensures s != [] && s[0] != QUOTE
  {
    if c == QUOTE || c == BACKSLASH then [BACKSLASH, c]
    else if c == 8 then [BACKSLASH, 'b' as int]
    else if c == 9 then [BACKSLASH, 't' as int]
    else if c == 10 then [BACKSLASH, 'n' as int]
    else if c == 12 then [BACKSLASH, 'f' as int]
    else if c == 13 then [BACKSLASH, 'r' as int]
    else if c < 32 then [BACKSLASH, 'u' as int, 48, 48, HexChar(c / 16) as int, HexChar(c % 16) as int]
    else [c]
  }

  function Escape(s: Bytes): (r: Bytes) {
    if s == [] then [] else EscapeByte(s[0]) + Escape(s[1..])
  }

  /** No escape is the beginning of another. */
  lemma EscapeByteInjective(c: byte, d: byte, s: Bytes, t: Bytes)
    requires EscapeByte(c) + s == EscapeByte(d) + t
    ensures c == d && s == t
  {
    var l, r := EscapeByte(c) + s, EscapeByte(d) + t;
    assert l[0] == EscapeByte(c)[0] && r[0] == EscapeByte(d)[0];
    if l[0] == BACKSLASH {
      assert l[1] == EscapeByte(c)[1] && r[1] == EscapeByte(d)[1];
      if l[1] == 'u' as int {
        assert l[4] == EscapeByte(c)[4] && r[4] == EscapeByte(d)[4];
        assert l[5] == EscapeByte(c)[5] && r[5] == EscapeByte(d)[5];
      }
    }
    assert c == d;
    assert s == l[|EscapeByte(c)|..] && t == r[|EscapeByte(d)|..];
  }

  lemma {:induction false} EscapeInjective(a: Bytes, b: Bytes, s: Bytes, t: Bytes)
    requires Escape(a) + ([QUOTE] + s) == Escape(b) + ([QUOTE] + t)
    ensures a == b && s == t
  {
    hide EscapeByte;
    var l, r := Escape(a) + ([QUOTE] + s), Escape(b) + ([QUOTE] + t);
    if a == [] || b == [] {
      assert a == [] ==> l[0] == QUOTE;
      assert b == [] ==> r[0] == QUOTE;
      assert l[1..] == s && r[1..] == t;
    } else {
      var l', r' := Escape(a[1..]) + ([QUOTE] + s), Escape(b[1..]) + ([QUOTE] + t);
      assert l == EscapeByte(a[0]) + l' && r == EscapeByte(b[0]) + r';
      EscapeByteInjective(a[0], b[0], l', r');
      EscapeInjective(a[1..], b[1..], s, t);
      assert a == [a[0]] + a[1..] && b == [b[0]] + b[1..];
    }
  }

  // ----- The text that is hashed -----

  function Opening(): (s: Bytes)
    ensures |s| == 25
  { Ascii("{\"hash\":[],\"parent_hash\":") }

  function Null(): (s: Bytes)
    ensures |s| == 4 && s[0] == 'n' as int
  { Ascii("null") }

  function TypeField(): (s: Bytes)
    ensures |s| == 15
  { Ascii(",\"event_type\":\"") }

  function DataField(): (s: Bytes)
    ensures |s| == 9
  { Ascii(",\"data\":[") }

  function ParentText(parent: Option<Bytes>): (s: Bytes) {
    match parent
    case None => Null()
    case Some(hash) => ['[' as int] + Array(hash)
  }

  function Serialize(parent: Option<Bytes>, eventType: Bytes, data: Bytes): (s: Bytes) {
    Opening() + (ParentText(parent) + (TypeField() + (Escape(eventType) + ([QUOTE] + (DataField() +
      (Array(data) + Ascii("}")))))))
  }

  lemma ParentTextInjective(p: Option<Bytes>, q: Option<Bytes>, s: Bytes, t: Bytes)
    requires ParentText(p) + s == ParentText(q) + t
    ensures p == q && s == t
  {
    hide Array, ParseArray, Null;
    var l, r := ParentText(p) + s, ParentText(q) + t;
    assert l[0] == ParentText(p)[0] && r[0] == ParentText(q)[0];
    if p.Some? && q.Some? {
      assert l[1..] == Array(p.value) + s && r[1..] == Array(q.value) + t;
      ParseArrayOfPrint(p.value, s);
      ParseArrayOfPrint(q.value, t);
    } else if p.None? && q.None? {
      assert l[4..] == s && r[4..] == t;
    }
  }

  lemma DropPrefix(lit: Bytes, s: Bytes, t: Bytes)
    requires lit + s == lit + t
    ensures s == t
  {
    assert (lit + s)[|lit|..] == s && (lit + t)[|lit|..] == t;
  }

  /** The hashed text determines parent, type and data. */
  lemma SerializeInjective(p: Option<Bytes>, e: Bytes, d: Bytes, p': Option<Bytes>, e': Bytes, d': Bytes)
    requires Serialize(p, e, d) == Serialize(p', e', d')
    ensures p == p' && e == e' && d == d'
  {
    hide Opening, TypeField, DataField, ParentText, Escape, Array, ParseArray;
    var end := Ascii("}");
    var s3, t3 := DataField() + (Array(d) + end), DataField() + (Array(d') + end);
    var s2, t2 := TypeField() + (Escape(e) + ([QUOTE] + s3)), TypeField() + (Escape(e') + ([QUOTE] + t3));
    DropPrefix(Opening(), ParentText(p) + s2, ParentText(p') + t2);
    ParentTextInjective(p, p', s2, t2);
    DropPrefix(TypeField(), Escape(e) + ([QUOTE] + s3), Escape(e') + ([QUOTE] + t3));
    EscapeInjective(e, e', s3, t3);
    DropPrefix(DataField(), Array(d) + end, Array(d') + end);
    ParseArrayOfPrint(d, end);
    ParseArrayOfPrint(d', end);
  }

  // ----- Chains of such events -----

  function HashedText(e: ChainEvent): (s: Bytes) {
    Serialize(e.parent, e.eventType, e.data)
  }

  function HeadOf(events: seq<ChainEvent>): (h: Option<Bytes>) {
    if events == [] then None else Some(events[|events| - 1].hash)
  }

  /** The event that follows `events`. */
  function NextEvent(sha: Sha1, events: seq<ChainEvent>, eventType: Bytes, data: Bytes): (e: ChainEvent)
    ensures e.hash == sha(HashedText(e)) && e.parent == HeadOf(events)
    ensures e.eventType == eventType && e.data == data
  {
    var parent := HeadOf(events);
    ChainEvent(sha(Serialize(parent, eventType, data)), parent, eventType, data)
  }

  /** What a subscriber to the whole chain sees. */
  predicate Linked(sha: Sha1, events: seq<ChainEvent>) {
    if events == [] then true
    else
      var init, e := events[..|events| - 1], events[|events| - 1];
      Linked(sha, init) && e == NextEvent(sha, init, e.eventType, e.data)
  }

  predicate CollideAt(sha: Sha1, a: seq<ChainEvent>, b: seq<ChainEvent>, i: nat) {
    && i < |a| && i < |b|
    && Collision(sha, HashedText(a[|a| - 1 - i]), HashedText(b[|b| - 1 - i]))
  }

  ghost predicate Collide(sha: Sha1, a: seq<ChainEvent>, b: seq<ChainEvent>) {
    exists i: nat :: CollideAt(sha, a, b, i)
  }

  /** The head hash pins down the whole chain, whatever the lengths: there is no counterpart
      to grafting, because the text of a root says that it has no parent. */
  lemma {:induction false} SameHeadSameChain(sha: Sha1, a: seq<ChainEvent>, b: seq<ChainEvent>)
    requires Linked(sha, a) && Linked(sha, b) && HeadOf(a) == HeadOf(b)
    ensures Collide(sha, a, b) || a == b
    decreases |a|
  {
    hide Serialize;
    if a != [] && b != [] {
      var a', b', x, y := a[..|a| - 1], b[..|b| - 1], a[|a| - 1], b[|b| - 1];
      assert a == a' + [x] && b == b' + [y];
      if HashedText(x) != HashedText(y) {
        assert CollideAt(sha, a, b, 0);
      } else {
        SerializeInjective(x.parent, x.eventType, x.data, y.parent, y.eventType, y.data);
        SameHeadSameChain(sha, a', b');
        CollideExtend(sha, a', b', x, y);
      }
    }
  }

  lemma CollideExtend(sha: Sha1, a: seq<ChainEvent>, b: seq<ChainEvent>, x: ChainEvent, y: ChainEvent)
    ensures Collide(sha, a, b) ==> Collide(sha, a + [x], b + [y])
  {
    hide HashedText, Collision;
    if Collide(sha, a, b) {
      var i: nat :| CollideAt(sha, a, b, i);
      var a', b' := a + [x], b + [y];
      assert a'[|a'| - 1 - (i + 1)] == a[|a| - 1 - i] && b'[|b'| - 1 - (i + 1)] == b[|b| - 1 - i];
      assert CollideAt(sha, a', b', i + 1);
    }
  }

  // ----- The chain itself -----

  /** Subscribers are channels, named by numbers. */
  function OpenOnes(subscribers: seq<nat>, open: set<nat>): (r: seq<nat>) {
    if subscribers == [] then []
    else
      var init, last := subscribers[..|subscribers| - 1], subscribers[|subscribers| - 1];
      OpenOnes(init, open) + if last in open then [last] else []
  }

  lemma OpenOnesSnoc(a: seq<nat>, x: nat, open: set<nat>)
    ensures OpenOnes(a + [x], open) == OpenOnes(a, open) + if x in open then [x] else []
  {
    assert (a + [x])[..|a|] == a;
  }

  lemma {:induction false} OpenOnesAppend(a: seq<nat>, b: seq<nat>, open: set<nat>)
    ensures OpenOnes(a + b, open) == OpenOnes(a, open) + OpenOnes(b, open)
  {
    if b == [] {
      assert a + b == a;
    } else {
      var init, last := b[..|b| - 1], b[|b| - 1];
      OpenOnesAppend(a, init, open);
      OpenOnesSnoc(a + init, last, open);
      assert a + b == (a + init) + [last];
    }
  }

  lemma {:induction false} OpenOnesAll(a: seq<nat>, open: set<nat>)
    requires forall i :: 0 <= i < |a| ==> a[i] in open
    ensures OpenOnes(a, open) == a
  {
    if a != [] { OpenOnesAll(a[..|a| - 1], open); }
  }

  /** The indices of the closed subscribers, in increasing order. */
  predicate ClosedIndices(subscribers: seq<nat>, open: set<nat>, closed: seq<nat>) {
    && (forall i :: 0 <= i < |closed| ==> closed[i] < |subscribers| && subscribers[closed[i]] !in open)
    && (forall i, j :: 0 <= i < j < |closed| ==> closed[i] < closed[j])
    && (forall k :: 0 <= k < |subscribers| && k !in closed ==> subscribers[k] in open)
  }

  /** `Vec::swap_remove`: the last element takes the place of the removed one. */
  function SwapRemove(s: seq<nat>, i: nat): (r: seq<nat>)
    requires i < |s|
    ensures |r| == |s| - 1 && r[..i] == s[..i]
    ensures multiset(r[i..]) == multiset(s[i + 1..])
  {
    if i == |s| - 1 then s[..i]
    else
      var r := s[i := s[|s| - 1]][..|s| - 1];
      assert s[i + 1..] == s[i + 1..|s| - 1] + [s[|s| - 1]];
      assert r[i..] == [s[|s| - 1]] + s[i + 1..|s| - 1];
      r
  }

  /** From `bound` on, the closed subscribers are gone; below it nothing has changed. */
  ghost predicate Evicted(subscribers: seq<nat>, open: set<nat>, left: seq<nat>, bound: nat) {
    && bound <= |subscribers| && bound <= |left| && left[..bound] == subscribers[..bound]
    && multiset(left[bound..]) == multiset(OpenOnes(subscribers[bound..], open))
  }

  /** Removing the closed subscribers from the highest index down leaves the open ones. */
  method EvictClosed(subscribers: seq<nat>, ghost open: set<nat>, closed: seq<nat>) returns (left: seq<nat>)
    requires ClosedIndices(subscribers, open, closed)
    ensures multiset(left) == multiset(OpenOnes(subscribers, open))
  {
    hide OpenOnes, SwapRemove;
    left := subscribers;
    var k := |closed|;
    ghost var bound := |subscribers|;
    NoneOpen(open);
    while k > 0
      invariant 0 <= k <= |closed|
      invariant bound == if k == |closed| then |subscribers| else closed[k]
      invariant Evicted(subscribers, open, left, bound)
    {
      hide Evicted;
      k := k - 1;
      AllOpenBefore(subscribers, open, closed, k + 1, closed[k] + 1, bound);
      EvictStep(subscribers, open, closed[k], bound, left);
      left := SwapRemove(left, closed[k]);
      bound := closed[k];
    }
    AllOpenBefore(subscribers, open, closed, 0, 0, bound);
    EvictedAll(subscribers, open, left, bound);
  }

  lemma EvictedAll(subscribers: seq<nat>, open: set<nat>, left: seq<nat>, bound: nat)
    requires Evicted(subscribers, open, left, bound)
    requires forall i :: 0 <= i < bound ==> subscribers[i] in open
    ensures multiset(left) == multiset(OpenOnes(subscribers, open))
  {
    hide OpenOnes;
    OpenOnesAll(subscribers[..bound], open);
    OpenOnesAppend(subscribers[..bound], subscribers[bound..], open);
    assert subscribers == subscribers[..bound] + subscribers[bound..];
    assert left == left[..bound] + left[bound..];
  }

  lemma NoneOpen(open: set<nat>)
    ensures OpenOnes([], open) == []
  {
  }

  /** Between two neighbouring closed indices every subscriber is open. */
  lemma AllOpenBefore(subscribers: seq<nat>, open: set<nat>, closed: seq<nat>, k: nat, lo: nat, hi: nat)
    requires ClosedIndices(subscribers, open, closed) && k <= |closed| && lo <= hi
    requires k > 0 ==> lo == closed[k - 1] + 1
    requires k == 0 ==> lo == 0
    requires hi == if k == |closed| then |subscribers| else closed[k]
    ensures forall i :: lo <= i < hi ==> subscribers[i] in open
  {
    assert forall i :: lo <= i < hi ==> i !in closed;
  }

  lemma DropClosed(subscribers: seq<nat>, open: set<nat>, c: nat, bound: nat)
    requires c < bound <= |subscribers| && subscribers[c] !in open
    requires forall i :: c < i < bound ==> subscribers[i] in open
    ensures OpenOnes(subscribers[c..], open) == subscribers[c + 1..bound] + OpenOnes(subscribers[bound..], open)
  {
    assert subscribers[c..] == [] + [subscribers[c]] + subscribers[c + 1..];
    OpenOnesSnoc([], subscribers[c], open);
    OpenOnesAppend([] + [subscribers[c]], subscribers[c + 1..], open);
    OpenOnesAll(subscribers[c + 1..bound], open);
    OpenOnesAppend(subscribers[c + 1..bound], subscribers[bound..], open);
    assert subscribers[c + 1..] == subscribers[c + 1..bound] + subscribers[bound..];
  }

  lemma EvictStep(subscribers: seq<nat>, open: set<nat>, c: nat, bound: nat, left: seq<nat>)
    requires c < bound && Evicted(subscribers, open, left, bound) && subscribers[c] !in open
    requires forall i :: c < i < bound ==> subscribers[i] in open
    ensures c < |left| && Evicted(subscribers, open, SwapRemove(left, c), c)
  {
    hide OpenOnes, SwapRemove;
    DropClosed(subscribers, open, c, bound);
    assert left[..c] == left[..bound][..c] && subscribers[..c] == subscribers[..bound][..c];
    assert left[c + 1..bound] == left[..bound][c + 1..] == subscribers[..bound][c + 1..] == subscribers[c + 1..bound];
    assert left[c + 1..] == left[c + 1..bound] + left[bound..];
  }

  class ActorChain {
    const sha: Sha1
    var currentHash: Option<Bytes>
    var subscribers: seq<nat>
    /** Everything added so far; the runtime itself does not retain it. */
    ghost var emitted: seq<ChainEvent>

    ghost predicate Valid()
      reads this
    {
      Linked(sha, emitted) && currentHash == HeadOf(emitted)
    }

    constructor (sha: Sha1)
      ensures Valid() && emitted == [] && subscribers == [] && this.sha == sha
    {
      this.sha := sha;
      currentHash, subscribers, emitted := None, [], [];
    }

    /** Hash, advance the head, send to every subscriber, evict those that are closed.
        `sent` lists the channels the event went to, in order. */
    method AddTypedEvent(eventType: Bytes, data: Bytes, open: set<nat>)
      returns (event: ChainEvent, sent: seq<nat>)
      requires Valid()
      modifies this
      ensures Valid()
      ensures event == NextEvent(sha, old(emitted), eventType, data)
      ensures emitted == old(emitted) + [event]
      ensures sent == OpenOnes(old(subscribers), open)
      ensures multiset(subscribers) == multiset(sent)
    {
      hide Serialize;
      var hash := sha(Serialize(currentHash, eventType, data));
      event := ChainEvent(hash, currentHash, eventType, data);
      assert event == NextEvent(sha, emitted, eventType, data);
      LinkedAppend(sha, emitted, event);
      currentHash := Some(hash);
      emitted := emitted + [event];
      var closed;
      sent, closed := Dispatch(subscribers, open);
      subscribers := EvictClosed(subscribers, open, closed);
    }
  }

  lemma LinkedAppend(sha: Sha1, events: seq<ChainEvent>, e: ChainEvent)
    requires Linked(sha, events) && e == NextEvent(sha, events, e.eventType, e.data)
    ensures Linked(sha, events + [e])
  {
    assert (events + [e])[..|events|] == events;
  }

  method Dispatch(subscribers: seq<nat>, open: set<nat>) returns (sent: seq<nat>, closed: seq<nat>)
    ensures sent == OpenOnes(subscribers, open)
    ensures ClosedIndices(subscribers, open, closed)
  {
    sent, closed := [], [];
    hide OpenOnes;
    NoneOpen(open);
    for i := 0 to |subscribers|
      invariant sent == OpenOnes(subscribers[..i], open)
      invariant forall k :: 0 <= k < |closed| ==> closed[k] < i && subscribers[closed[k]] !in open
      invariant forall j, k :: 0 <= j < k < |closed| ==> closed[j] < closed[k]
      invariant forall k :: 0 <= k < i && k !in closed ==> subscribers[k] in open
    {
      assert subscribers[..i + 1] == subscribers[..i] + [subscribers[i]];
      OpenOnesSnoc(subscribers[..i], subscribers[i], open);
      if subscribers[i] in open {
        sent := sent + [subscribers[i]];
      } else {
        closed := closed + [i];
      }
    }
    assert subscribers[..|subscribers|] == subscribers;
  }
}
