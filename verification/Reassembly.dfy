/** What the reassembly table guarantees: for arbitrary fragments off the wire, and for
    genuine fragments of many messages arriving interleaved, reordered and repeated,
    with partial messages expiring at any time. */
module Reassembly {
  import opened Prelude
  import opened Frames
  import opened FragmentingCodec
  import Base64

  // ----- Arbitrary fragments -----

  /** The partial message after the fragment has been added to it. */
  function Extended(partials: map<u64, Partial>, f: Fragment, data: Bytes): (p: Partial)
  {
    var known := if f.messageId in partials then partials[f.messageId] else Partial(f.total, map[]);
    known.(parts := known.parts[f.index := data])
  }

  /** Pigeonhole: as many distinct indices as announced, all in range, are all the indices. */
  lemma CompleteInRangeReassembles(p: Partial)
    requires |p.parts| == p.total
    ensures Reassembled(p).Some? <==> forall i :: i in p.parts ==> i < p.total
  {
    if forall i :: i in p.parts ==> i < p.total {
      FullIndexSet(p.parts.Keys, p.total);
    } else {
      var i :| i in p.parts && i >= p.total;
      assert i in p.parts.Keys && i !in Below(p.total);
    }
  }

  /** For any table and any fragment: a message comes out exactly when its indices are
      0..total, an error exactly when the count is reached with an index out of range. */
  lemma StoreOutcome(partials: map<u64, Partial>, f: Fragment, data: Bytes)
    ensures var p := Extended(partials, f, data);
      var outcome := Store(partials, f, data).0;
      && (outcome.Item? <==> p.parts.Keys == Below(p.total))
      && (outcome.Item? ==> outcome.data == Reassembled(p).value)
      && (outcome.Failed? <==> |p.parts| == p.total && exists i :: i in p.parts && i >= p.total)
      && (outcome.Quiet? <==> |p.parts| != p.total)
      && Store(partials, f, data).1 ==
           (if outcome.Quiet? then partials[f.messageId := p] else partials - {f.messageId})
  {
    var p := Extended(partials, f, data);
    if |p.parts| == p.total {
      CompleteInRangeReassembles(p);
    } else {
      assert |p.parts.Keys| != |Below(p.total)|;
    }
  }

  /** In order: part `i` of a reassembled message sits right behind the parts before it. */
  lemma {:induction false} JoinedInOrder(parts: map<u32, Bytes>, i: nat, n: nat)
    requires i < n <= U32 && forall k: u32 :: k < n ==> k in parts
    ensures Joined(parts, i) + parts[i] <= Joined(parts, n)
  {
    if i < n - 1 { JoinedInOrder(parts, i, n - 1); }
  }

  // ----- Genuine fragments -----

  /** `n` chunks of a message joined together. */
  lemma {:induction false} JoinedChunks(parts: map<u32, Bytes>, data: Bytes, n: nat)
    requires n <= ChunkCount(|data|) && n <= U32
    requires forall k: u32 :: k < n ==> k in parts && parts[k] == Chunk(data, k)
    ensures Joined(parts, n) == data[..if n < ChunkCount(|data|) then n * CHUNK_SIZE else |data|]
  {
    hide Chunk, ChunkEnd;
    if n > 0 {
      JoinedChunks(parts, data, n - 1);
      ChunkAppends(data, n - 1);
    }
  }

  lemma ChunkAppends(data: Bytes, i: nat)
    requires i < ChunkCount(|data|)
    ensures i * CHUNK_SIZE <= |data|
    ensures data[..i * CHUNK_SIZE] + Chunk(data, i) ==
      data[..if i + 1 < ChunkCount(|data|) then (i + 1) * CHUNK_SIZE else |data|]
  {
    var start, end: nat := i * CHUNK_SIZE, ChunkEnd(|data|, i);
    assert data[..start] + data[start..end] == data[..end];
  }

  /** An arrival: fragment `index` of message `id`, or the expiry of some partial messages. */
  datatype Arrival = Deliver(id: u64, index: nat) | Expire(ids: set<u64>)

  type Messages = map<u64, Bytes>

  /** Non-empty messages of fewer than 2^32 chunks. */
  predicate Sendable(msgs: Messages) {
    forall id :: id in msgs ==> 1 <= ChunkCount(|msgs[id]|) < U32
  }

  predicate Genuine(msgs: Messages, a: Arrival) {
    a.Deliver? ==> a.id in msgs && a.index < ChunkCount(|msgs[a.id]|)
  }

  predicate GenuineRun(msgs: Messages, run: seq<Arrival>) {
    Sendable(msgs) && forall k :: 0 <= k < |run| ==> Genuine(msgs, run[k])
  }

  /** What the decoder's table does with an arrival. */
  function Handle(msgs: Messages, partials: map<u64, Partial>, a: Arrival): (r: (Outcome, map<u64, Partial>))
    requires Genuine(msgs, a)
  {
    match a
    case Deliver(id, index) => Accept(partials, Piece(FragmentOf(id, msgs[id], index)))
    case Expire(ids) => (Quiet, partials - ids)
  }

  /** The table after a run that starts with an empty one. */
  function TableAfter(msgs: Messages, run: seq<Arrival>): (partials: map<u64, Partial>)
    requires GenuineRun(msgs, run)
  {
    if run == [] then map[]
    else Handle(msgs, TableAfter(msgs, run[..|run| - 1]), run[|run| - 1]).1
  }

  /** What the arrival at position `k` yields. */
  function Yield(msgs: Messages, run: seq<Arrival>, k: nat): (outcome: Outcome)
    requires GenuineRun(msgs, run) && k < |run|
  {
    Handle(msgs, TableAfter(msgs, run[..k]), run[k]).0
  }

  /** Reference: the indices of `id` that arrived since it was last whole or expired. */
  function Held(msgs: Messages, run: seq<Arrival>, id: u64): (s: set<int>)
    requires GenuineRun(msgs, run)
    ensures forall i :: i in s ==> id in msgs && 0 <= i < ChunkCount(|msgs[id]|)
  {
    if run == [] then {}
    else
      var before := Held(msgs, run[..|run| - 1], id);
      match run[|run| - 1]
      case Deliver(id', index) =>
        if id' != id then before
        else if before + {index} == Below(ChunkCount(|msgs[id]|)) then {}
        else before + {index}
      case Expire(ids) => if id in ids then {} else before
  }

  /** The table entry of `id` holds exactly the chunks in `held`. */
  ghost predicate Holds(partials: map<u64, Partial>, msgs: Messages, id: u64, held: set<int>)
  {
    if held == {} then id !in partials
    else
      && id in partials && id in msgs
      && partials[id].total == ChunkCount(|msgs[id]|)
      && partials[id].parts.Keys == held
      && forall i: u32 :: i in held ==> i < ChunkCount(|msgs[id]|) && partials[id].parts[i] == Chunk(msgs[id], i)
  }

  /** Adding a genuine chunk extends the set of chunks held. */
  lemma ExtendedHolds(partials: map<u64, Partial>, msgs: Messages, id: u64, index: nat, held: set<int>)
    requires Sendable(msgs) && Genuine(msgs, Deliver(id, index)) && Holds(partials, msgs, id, held)
    ensures var p := Extended(partials, FragmentOf(id, msgs[id], index), Chunk(msgs[id], index));
      && p.total == ChunkCount(|msgs[id]|)
      && p.parts.Keys == held + {index}
      && forall i: u32 :: i in held + {index} ==> i < ChunkCount(|msgs[id]|) && p.parts[i] == Chunk(msgs[id], i)
  {
    hide Base64.Encode, Chunk, ChunkCount;
  }

  lemma AcceptGenuine(partials: map<u64, Partial>, id: u64, data: Bytes, index: nat)
    requires index < ChunkCount(|data|)
    ensures Accept(partials, Piece(FragmentOf(id, data, index)))
         == Store(partials, FragmentOf(id, data, index), Chunk(data, index))
  {
    hide Base64.Encode, Base64.Decode, Store, Chunk;
    Base64.DecodeOfEncode(Chunk(data, index));
  }

  lemma DeliverStep(partials: map<u64, Partial>, msgs: Messages, id: u64, index: nat, held: set<int>)
    requires Sendable(msgs) && Genuine(msgs, Deliver(id, index))
    requires Holds(partials, msgs, id, held)
    requires forall i :: i in held ==> 0 <= i < ChunkCount(|msgs[id]|)
    ensures var (outcome, partials') := Handle(msgs, partials, Deliver(id, index));
      var full := held + {index} == Below(ChunkCount(|msgs[id]|));
      && outcome == (if full then Item(msgs[id]) else Quiet)
      && Holds(partials', msgs, id, if full then {} else held + {index})
      && (partials - {id} == partials' - {id})
  {
    hide Base64.Encode, Base64.Decode, Joined, FragmentOf, Accept, Store, Extended, Chunk, ChunkCount, Below, Reassembled;
    var data := msgs[id];
    var f := FragmentOf(id, data, index);
    assert f.messageId == id by { FragmentId(id, data, index); }
    AcceptGenuine(partials, id, data, index);
    ExtendedHolds(partials, msgs, id, index, held);
    var p := Extended(partials, f, Chunk(data, index));
    StoreOutcome(partials, f, Chunk(data, index));
    CompleteIffFull(p.parts.Keys, p.total);
    if held + {index} == Below(p.total) {
      WholeMessage(p, data);
    }
  }

  lemma FragmentId(id: u64, data: Bytes, index: nat)
    requires index < ChunkCount(|data|)
    ensures FragmentOf(id, data, index).messageId == id
  {
  }

  /** All the chunks of a message reassemble to it. */
  lemma WholeMessage(p: Partial, data: Bytes)
    requires p.total == ChunkCount(|data|) && p.parts.Keys == Below(p.total)
    requires forall i: u32 :: i in Below(p.total) ==> p.parts[i] == Chunk(data, i)
    ensures Reassembled(p) == Some(data)
  {
    hide Chunk, Joined;
    assert forall k: u32 :: k < p.total ==> k in Below(p.total);
    JoinedChunks(p.parts, data, p.total);
    assert data[..|data|] == data;
  }

  lemma CompleteIffFull(s: set<int>, n: nat)
    requires forall i :: i in s ==> 0 <= i < n
    ensures |s| == n <==> s == Below(n)
  {
    if |s| == n { FullIndexSet(s, n); }
  }

  lemma OthersKept(m: map<u64, Partial>, m': map<u64, Partial>, id: u64)
    requires m - {id} == m' - {id}
    ensures forall other :: other != id ==>
      (other in m <==> other in m') && (other in m ==> m'[other] == m[other])
  {
    forall other | other != id
      ensures (other in m <==> other in m') && (other in m ==> m'[other] == m[other])
    {
      assert other in m <==> other in m - {id};
      assert other in m' <==> other in m' - {id};
    }
  }

  lemma {:induction false} TableHolds(msgs: Messages, run: seq<Arrival>, id: u64)
    requires GenuineRun(msgs, run)
    ensures Holds(TableAfter(msgs, run), msgs, id, Held(msgs, run, id))
  {
    if run != [] {
      var init, last := run[..|run| - 1], run[|run| - 1];
      TableHolds(msgs, init, id);
      if last.Deliver? {
        TableHolds(msgs, init, last.id);
        DeliverStep(TableAfter(msgs, init), msgs, last.id, last.index, Held(msgs, init, last.id));
        OthersKept(TableAfter(msgs, init), TableAfter(msgs, run), last.id);
      }
    }
  }

  /** Whatever the interleaving, repeats and expiries: an arrival yields a message exactly
      when it supplies the last missing fragment, the message is the original one, and
      nothing ever fails. */
  lemma YieldExactly(msgs: Messages, run: seq<Arrival>, k: nat)
    requires GenuineRun(msgs, run) && k < |run|
    ensures Yield(msgs, run, k) ==
      if run[k].Deliver? && Held(msgs, run[..k], run[k].id) + {run[k].index} == Below(ChunkCount(|msgs[run[k].id]|))
      then Item(msgs[run[k].id]) else Quiet
  {
    if run[k].Deliver? {
      TableHolds(msgs, run[..k], run[k].id);
      DeliverStep(TableAfter(msgs, run[..k]), msgs, run[k].id, run[k].index, Held(msgs, run[..k], run[k].id));
    }
  }

  // ----- Exactly once, without expiry -----

  /** The indices of `id` delivered in a run. */
  function Delivered(run: seq<Arrival>, id: u64): (s: set<int>)
  {
    set k | 0 <= k < |run| && run[k].Deliver? && run[k].id == id :: run[k].index
  }

  /** No expiry, and fragments of `id` arrive only while it is still incomplete. */
  predicate NoLateRepeats(msgs: Messages, run: seq<Arrival>, id: u64) {
    && id in msgs
    && (forall k :: 0 <= k < |run| ==> run[k].Deliver?)
    && (forall k :: 0 <= k < |run| && run[k].id == id ==>
          Delivered(run[..k], id) != Below(ChunkCount(|msgs[id]|)))
  }

  lemma {:induction false} HeldIsDelivered(msgs: Messages, run: seq<Arrival>, id: u64)
    requires GenuineRun(msgs, run) && NoLateRepeats(msgs, run, id)
    ensures Delivered(run, id) != Below(ChunkCount(|msgs[id]|)) ==> Held(msgs, run, id) == Delivered(run, id)
  {
    if run != [] {
      var init, last := run[..|run| - 1], run[|run| - 1];
      assert forall k :: 0 <= k < |init| ==> init[..k] == run[..k];
      HeldIsDelivered(msgs, init, id);
      assert run == init + [last];
      DeliveredAppend(init, last, id);
    }
  }

  lemma DeliveredAppend(run: seq<Arrival>, a: Arrival, id: u64)
    ensures Delivered(run + [a], id) == Delivered(run, id) + (if a.Deliver? && a.id == id then {a.index} else {})
  {
    var run' := run + [a];
    assert run'[|run|] == a;
    forall i | i in Delivered(run, id)
      ensures i in Delivered(run', id)
    {
      var k :| 0 <= k < |run| && run[k].Deliver? && run[k].id == id && run[k].index == i;
      assert run'[k] == run[k];
    }
  }

  /** The position of the arrival that makes `id` whole: before it something is missing,
      with it nothing is. */
  predicate Completes(msgs: Messages, run: seq<Arrival>, id: u64, k: nat)
    requires id in msgs
  {
    k < |run| && run[k].Deliver? && run[k].id == id
    && Delivered(run[..k], id) != Below(ChunkCount(|msgs[id]|)) == Delivered(run[..k + 1], id)
  }

  /** A message all of whose fragments arrive is yielded exactly once: by its last missing
      fragment, and by no other arrival of its fragments. */
  lemma YieldedExactlyOnce(msgs: Messages, run: seq<Arrival>, id: u64) returns (k: nat)
    requires GenuineRun(msgs, run) && NoLateRepeats(msgs, run, id)
    requires Delivered(run, id) == Below(ChunkCount(|msgs[id]|))
    ensures Completes(msgs, run, id, k)
    ensures forall j :: 0 <= j < |run| && run[j].id == id ==>
      Yield(msgs, run, j) == if j == k then Item(msgs[id]) else Quiet
  {
    k := FindCompletion(msgs, run, id);
    forall j | 0 <= j < |run| && run[j].id == id
      ensures Yield(msgs, run, j) == if j == k then Item(msgs[id]) else Quiet
    {
      YieldWhileIncomplete(msgs, run, id, j);
      OneCompletion(msgs, run, id, j, k);
    }
  }

  lemma YieldWhileIncomplete(msgs: Messages, run: seq<Arrival>, id: u64, j: nat)
    requires GenuineRun(msgs, run) && NoLateRepeats(msgs, run, id) && j < |run| && run[j].id == id
    ensures Yield(msgs, run, j) ==
      if Delivered(run[..j + 1], id) == Below(ChunkCount(|msgs[id]|)) then Item(msgs[id]) else Quiet
  {
    hide Handle, Yield, Held, Delivered, Below, ChunkCount;
    assert forall i :: 0 <= i < |run[..j]| ==> run[..j][..i] == run[..i];
    HeldIsDelivered(msgs, run[..j], id);
    YieldExactly(msgs, run, j);
    assert run[..j + 1] == run[..j] + [run[j]];
    DeliveredAppend(run[..j], run[j], id);
  }

  lemma OneCompletion(msgs: Messages, run: seq<Arrival>, id: u64, j: nat, k: nat)
    requires GenuineRun(msgs, run) && NoLateRepeats(msgs, run, id)
    requires Completes(msgs, run, id, k) && j < |run| && run[j].id == id
    ensures Delivered(run[..j + 1], id) == Below(ChunkCount(|msgs[id]|)) <==> j == k
  {
    hide Delivered, Below, ChunkCount;
    if j < k && Delivered(run[..j + 1], id) == Below(ChunkCount(|msgs[id]|)) {
      BelowTop(msgs, run, id, j + 1, k);
    }
    if j > k {
      BelowTop(msgs, run, id, k + 1, j);
    }
  }

  lemma DeliveredMonotone(run: seq<Arrival>, i: nat, j: nat, id: u64)
    requires i <= j <= |run|
    ensures Delivered(run[..i], id) <= Delivered(run[..j], id)
  {
    forall x | x in Delivered(run[..i], id)
      ensures x in Delivered(run[..j], id)
    {
      var k :| 0 <= k < i && run[..i][k].Deliver? && run[..i][k].id == id && run[..i][k].index == x;
      assert run[..j][k] == run[k];
    }
  }

  /** Once everything has been delivered, it stays delivered. */
  lemma BelowTop(msgs: Messages, run: seq<Arrival>, id: u64, i: nat, j: nat)
    requires GenuineRun(msgs, run) && id in msgs && i <= j <= |run|
    requires Delivered(run[..i], id) == Below(ChunkCount(|msgs[id]|))
    ensures Delivered(run[..j], id) == Below(ChunkCount(|msgs[id]|))
  {
    DeliveredMonotone(run, i, j, id);
    forall x | x in Delivered(run[..j], id)
      ensures x in Below(ChunkCount(|msgs[id]|))
    {
      var k :| 0 <= k < j && run[..j][k].Deliver? && run[..j][k].id == id && run[..j][k].index == x;
      assert Genuine(msgs, run[k]);
    }
  }

  lemma FindCompletion(msgs: Messages, run: seq<Arrival>, id: u64) returns (k: nat)
    requires GenuineRun(msgs, run) && NoLateRepeats(msgs, run, id)
    requires Delivered(run, id) == Below(ChunkCount(|msgs[id]|))
    ensures Completes(msgs, run, id, k)
  {
    assert 0 in Below(ChunkCount(|msgs[id]|));
    assert Delivered([], id) == {};
    k := FirstReached(run, id, Below(ChunkCount(|msgs[id]|)));
  }

  lemma {:induction false} FirstReached(run: seq<Arrival>, id: u64, all: set<int>) returns (k: nat)
    requires Delivered(run, id) == all != Delivered([], id)
    ensures k < |run| && run[k].Deliver? && run[k].id == id
    ensures Delivered(run[..k], id) != all == Delivered(run[..k + 1], id)
  {
    hide Delivered;
    var init := run[..|run| - 1];
    assert run == init + [run[|run| - 1]] == run[..|run|];
    DeliveredAppend(init, run[|run| - 1], id);
    if Delivered(init, id) == all {
      k := FirstReached(init, id, all);
      assert init[..k] == run[..k] && init[..k + 1] == run[..k + 1];
    } else {
      k := |run| - 1;
    }
  }
}
