/** The generic hash chain: an event's hash is SHA-1 (section 6.1 of FIPS 180-4) over the
    parent's hash, if there is one, followed by the rendered data. SHA-1 is a parameter of
    which only the 20-byte output is known; where its strength matters, the statements
    name the two inputs from the chains that would collide. */
module HashChain {
  import opened Prelude

  type Digest = b: Bytes | |b| == 20 witness [0, 0, 0, 0, 0, 0, 0, 0, 0, 0, 0, 0, 0, 0, 0, 0, 0, 0, 0, 0]

  type Sha1 = Bytes -> Digest

  predicate Collision(sha: Sha1, x: Bytes, y: Bytes) {
    x != y && sha(x) == sha(y)
  }

  /** `text` is the rendered data, the only part of it that is hashed. */
  datatype Event = Event(hash: Bytes, parent: Option<Bytes>, text: Bytes)

  function Preimage(e: Event): (b: Bytes) {
    match e.parent
    case Some(parent) => parent + e.text
    case None => e.text
  }

  predicate EventVerifies(sha: Sha1, e: Event) {
    e.hash == sha(Preimage(e))
  }

  /** The hash an event at position `k` has to name as its parent. */
  function HashBefore(events: seq<Event>, k: nat): (h: Option<Bytes>)
    requires k <= |events|
  {
    if k == 0 then None else Some(events[k - 1].hash)
  }

  predicate LinkVerifies(sha: Sha1, events: seq<Event>, k: nat)
    requires k < |events|
  {
    EventVerifies(sha, events[k]) && events[k].parent == HashBefore(events, k)
  }

  predicate Verified(sha: Sha1, events: seq<Event>) {
    forall k :: 0 <= k < |events| ==> LinkVerifies(sha, events, k)
  }

  lemma VerifiedAppend(sha: Sha1, events: seq<Event>, e: Event)
    requires Verified(sha, events) && EventVerifies(sha, e) && e.parent == HashBefore(events, |events|)
    ensures Verified(sha, events + [e])
  {
    forall k | 0 <= k <= |events|
      ensures LinkVerifies(sha, events + [e], k)
    {
      assert k < |events| ==> LinkVerifies(sha, events, k);
    }
  }

  class Chain {
    const sha: Sha1
    var events: seq<Event>
    var currentHash: Option<Bytes>

    ghost predicate Valid()
      reads this
    {
      Verified(sha, events) && currentHash == HashBefore(events, |events|)
    }

    constructor (sha: Sha1)
      ensures Valid() && events == [] && this.sha == sha
    {
      this.sha := sha;
      events, currentHash := [], None;
    }

    method AddTypedEvent(text: Bytes) returns (event: Event)
      requires Valid()
      modifies this
      ensures Valid()
      ensures events == old(events) + [event] && event.text == text
    {
      var parent := currentHash;
      event := Event(sha(Preimage(Event([], parent, text))), parent, text);
      events := events + [event];
      currentHash := Some(event.hash);
      VerifiedAppend(sha, old(events), event);
    }

    /** Checks any list of events, however it came to be. */
    method Verify() returns (ok: bool)
      ensures ok <==> Verified(sha, events)
    {
      var prevHash: Option<Bytes> := None;
      for i := 0 to |events|
        invariant prevHash == HashBefore(events, i)
        invariant forall k :: 0 <= k < i ==> LinkVerifies(sha, events, k)
      {
        var event := events[i];
        assert LinkVerifies(sha, events, i) <==> event.hash == sha(Preimage(event)) && event.parent == prevHash;
        if event.hash != sha(Preimage(event)) {
          return false;
        }
        if event.parent != prevHash {
          return false;
        }
        prevHash := Some(event.hash);
      }
      return true;
    }
  }

  // ----- Tamper evidence -----

  function Last(events: seq<Event>): (result: Event)
    requires events != []
  {
    events[|events| - 1]
  }

  /** The events at distance `i` from the heads of `a` and `b` collide. */
  predicate CollideAt(sha: Sha1, a: seq<Event>, b: seq<Event>, i: nat) {
    && i < |a| && i < |b|
    && Collision(sha, Preimage(a[|a| - 1 - i]), Preimage(b[|b| - 1 - i]))
  }

  ghost predicate Collide(sha: Sha1, a: seq<Event>, b: seq<Event>) {
    exists i: nat :: CollideAt(sha, a, b, i)
  }

  /** `short` continues `long` after its first `|long| - |short|` events, except that its root
      carries in its own text the 20-byte hash that the event of `long` names as its parent. */
  predicate Grafted(short: seq<Event>, long: seq<Event>) {
    && 0 < |short| < |long|
    && var d := |long| - |short|;
    && short[0].parent == None && short[0].hash == long[d].hash
    && short[0].text == long[d - 1].hash + long[d].text
    && |long[d - 1].hash| == 20
    && forall i :: 0 < i < |short| ==> short[i] == long[i + d]
  }

  /** The heads of two verified chains pin down everything behind them: without a collision
      between events at the same distance from the head, the chains are equal, or the
      longer one has been cut and its remainder grafted onto a root. */
  lemma {:induction false} SameHead(sha: Sha1, a: seq<Event>, b: seq<Event>)
    requires Verified(sha, a) && Verified(sha, b) && a != [] && b != []
    requires Last(a).hash == Last(b).hash
    ensures Collide(sha, a, b) || a == b || Grafted(a, b) || Grafted(b, a)
    decreases |a|
  {
    var x, y := Last(a), Last(b);
    var a', b' := a[..|a| - 1], b[..|b| - 1];
    assert a == a' + [x] && b == b' + [y];
    assert LinkVerifies(sha, a, |a| - 1) && LinkVerifies(sha, b, |b| - 1);
    if Preimage(x) != Preimage(y) {
      assert CollideAt(sha, a, b, 0);
    } else if a' != [] && b' != [] {
      assert LinkVerifies(sha, a, |a| - 2) && LinkVerifies(sha, b, |b| - 2);
      SplitAt20(x.parent.value, x.text, y.parent.value, y.text);
      VerifiedPrefix(sha, a);
      VerifiedPrefix(sha, b);
      SameHead(sha, a', b');
      CollideExtend(sha, a', b', x, y);
      GraftedExtend(a', b', x);
      GraftedExtend(b', a', x);
    } else if a' == [] && b' != [] {
      assert LinkVerifies(sha, b, |b| - 2);
    } else if b' == [] && a' != [] {
      assert LinkVerifies(sha, a, |a| - 2);
    }
  }

  lemma GraftedExtend(a: seq<Event>, b: seq<Event>, x: Event)
    ensures Grafted(a, b) ==> Grafted(a + [x], b + [x])
  {
  }

  lemma SplitAt20(p: Bytes, s: Bytes, q: Bytes, t: Bytes)
    requires |p| == |q| && p + s == q + t
    ensures p == q && s == t
  {
    assert p == (p + s)[..|p|] && q == (q + t)[..|q|];
    assert s == (p + s)[|p|..] && t == (q + t)[|q|..];
  }

  lemma VerifiedPrefix(sha: Sha1, a: seq<Event>)
    requires Verified(sha, a) && a != []
    ensures Verified(sha, a[..|a| - 1])
  {
    var a' := a[..|a| - 1];
    forall k | 0 <= k < |a'|
      ensures LinkVerifies(sha, a', k)
    {
      assert LinkVerifies(sha, a, k);
    }
  }

  lemma CollideExtend(sha: Sha1, a: seq<Event>, b: seq<Event>, x: Event, y: Event)
    ensures Collide(sha, a, b) ==> Collide(sha, a + [x], b + [y])
  {
    hide Preimage, Collision;
    if Collide(sha, a, b) {
      var i: nat :| CollideAt(sha, a, b, i);
      var a', b' := a + [x], b + [y];
      assert a'[|a'| - 1 - (i + 1)] == a[|a| - 1 - i] && b'[|b'| - 1 - (i + 1)] == b[|b| - 1 - i];
      assert CollideAt(sha, a', b', i + 1);
    }
  }

  /** The chain that `Grafted` describes. */
  function Graft(long: seq<Event>, d: nat): (short: seq<Event>)
    requires 0 < d < |long|
  {
    [Event(long[d].hash, None, long[d - 1].hash + long[d].text)] + long[d + 1..]
  }

  /** The exception is real: verification accepts the grafted remainder of any verified chain,
      under the same head. */
  lemma GraftVerifies(sha: Sha1, long: seq<Event>, d: nat)
    requires Verified(sha, long) && 0 < d < |long|
    ensures var short := Graft(long, d);
      Verified(sha, short) && Grafted(short, long) && Last(short).hash == Last(long).hash
  {
    var short := Graft(long, d);
    assert LinkVerifies(sha, long, d - 1) && LinkVerifies(sha, long, d);
    forall k | 0 <= k < |short|
      ensures LinkVerifies(sha, short, k)
    {
      if k > 0 {
        assert LinkVerifies(sha, long, k + d);
        assert short[k] == long[k + d];
      }
    }
  }
}
