/** The reader that the server and its client put in front of the codec: after every piece of
    the stream it asks for messages until the codec answers that nothing is complete, and then
    waits for the next piece. The codec gives that answer for every fragment that does not
    complete its message, whole frames behind it or not. */
module FramedDriver {
  import opened Prelude
  import opened Frames
  import opened FragmentingCodec
  import opened WireRoundTrip

  /** Ask for messages until there is none. */
  function Poll(d: Decoder, buf: Bytes): (r: Drained)
    decreases |buf|, if d.need.Some? then 1 else 0
  {
    var c := DecodeCall(d, buf, {});
    if c.outcome.Item? then
      CallShrinks(d, buf);
      Prepend([c.outcome.data], Poll(c.decoder, c.rest))
    else Drained([], c.decoder, c.rest, c.outcome.Failed?)
  }

  const START := Drained([], Decoder(None, map[]), [], false)

  /** After the given pieces, each what one read returned; a failure ends the stream. An empty
      piece stands for a wake-up without new bytes; a socket gives none, since an empty read is
      the end of the stream. */
  function PollAfter(pieces: seq<Bytes>): (r: Drained)
    decreases |pieces|
  {
    if pieces == [] then START
    else
      var s := PollAfter(pieces[..|pieces| - 1]);
      if s.failed then s else Prepend(s.items, Poll(s.decoder, s.rest + pieces[|pieces| - 1]))
  }

  // ----- Positions: how far a reader gets that stops behind every quiet frame -----

  /** From position `p`, with the first `a` frames there: behind the first quiet frame, or at `a`. */
  function Wake(quiet: seq<bool>, p: nat, a: nat): (p': nat)
    requires a <= |quiet|
    ensures p <= a ==> p <= p' <= a
    decreases a - p
  {
    if p >= a then p else if quiet[p] then p + 1 else Wake(quiet, p + 1, a)
  }

  function Count(quiet: seq<bool>, lo: nat, hi: nat): (n: nat)
    requires hi <= |quiet|
    decreases hi
  {
    if hi <= lo then 0 else Count(quiet, lo, hi - 1) + if quiet[hi - 1] then 1 else 0
  }

  lemma {:induction false} CountSplit(quiet: seq<bool>, lo: nat, mid: nat, hi: nat)
    requires lo <= mid <= hi <= |quiet|
    ensures Count(quiet, lo, hi) == Count(quiet, lo, mid) + Count(quiet, mid, hi)
    decreases hi
  {
    if mid < hi {
      CountSplit(quiet, lo, mid, hi - 1);
    }
  }

  lemma CountFirst(quiet: seq<bool>, lo: nat, hi: nat)
    requires lo < hi <= |quiet|
    ensures Count(quiet, lo, hi) == (if quiet[lo] then 1 else 0) + Count(quiet, lo + 1, hi)
  {
    CountSplit(quiet, lo, lo + 1, hi);
    assert Count(quiet, lo, lo) == 0;
  }

  /** A wake-up passes one quiet frame and stops there, or passes none and gets everything. */
  lemma {:induction false} WakeExactly(quiet: seq<bool>, p: nat, a: nat)
    requires p <= a <= |quiet|
    ensures var p' := Wake(quiet, p, a);
      if Count(quiet, p, a) == 0 then p' == a && Count(quiet, p, p') == 0
      else p < p' <= a && quiet[p' - 1] && Count(quiet, p, p') == 1
    decreases a - p
  {
    if p < a {
      CountFirst(quiet, p, a);
      if quiet[p] {
        CountFirst(quiet, p, p + 1);
      } else {
        WakeExactly(quiet, p + 1, a);
        CountFirst(quiet, p, Wake(quiet, p + 1, a));
      }
    }
  }

  /** `avail[k]` frames are there with piece `k`; none before the first. */
  function Avail(avail: seq<nat>, k: nat): (a: nat)
    requires k <= |avail|
  {
    if k == 0 then 0 else avail[k - 1]
  }

  predicate Rising(quiet: seq<bool>, avail: seq<nat>) {
    && (forall i, j :: 0 <= i <= j < |avail| ==> avail[i] <= avail[j])
    && (forall i :: 0 <= i < |avail| ==> avail[i] <= |quiet|)
  }

  function Position(quiet: seq<bool>, avail: seq<nat>, k: nat): (p: nat)
    requires k <= |avail| && Rising(quiet, avail)
    ensures p <= Avail(avail, k)
  {
    if k == 0 then 0
    else
      assert Position(quiet, avail, k - 1) <= Avail(avail, k);
      Wake(quiet, Position(quiet, avail, k - 1), avail[k - 1])
  }

  function Passed(quiet: seq<bool>, avail: seq<nat>, k: nat): (n: nat)
    requires k <= |avail| && Rising(quiet, avail)
  {
    Count(quiet, 0, Position(quiet, avail, k))
  }

  /** How many quiet frames have been passed: one more per piece, as far as they are there. */
  lemma PassedStep(quiet: seq<bool>, avail: seq<nat>, k: nat)
    requires 0 < k <= |avail| && Rising(quiet, avail)
    ensures var before, there := Passed(quiet, avail, k - 1), Count(quiet, 0, Avail(avail, k));
      && before <= there
      && Passed(quiet, avail, k) == (if before < there then before + 1 else there)
      && (before == there ==> Position(quiet, avail, k) == Avail(avail, k))
      && (before < there ==> Position(quiet, avail, k) > 0 && quiet[Position(quiet, avail, k) - 1])
  {
    var p, a := Position(quiet, avail, k - 1), Avail(avail, k);
    WakeExactly(quiet, p, a);
    CountSplit(quiet, 0, p, a);
    CountSplit(quiet, 0, p, Wake(quiet, p, a));
  }

  lemma {:induction false} PassedAtMost(quiet: seq<bool>, avail: seq<nat>, k: nat, j: nat)
    requires j <= k <= |avail| && Rising(quiet, avail)
    ensures Passed(quiet, avail, k) <= Count(quiet, 0, Avail(avail, j)) + (k - j)
    decreases k
  {
    hide Passed, Position;
    if k > 0 {
      PassedStep(quiet, avail, k);
      if j < k {
        PassedAtMost(quiet, avail, k - 1, j);
      }
    } else {
      PassedNone(quiet, avail);
    }
  }

  lemma PassedNone(quiet: seq<bool>, avail: seq<nat>)
    requires Rising(quiet, avail)
    ensures Passed(quiet, avail, 0) == 0
  {
  }

  lemma {:induction false} PassedTight(quiet: seq<bool>, avail: seq<nat>, k: nat) returns (j: nat)
    requires k <= |avail| && Rising(quiet, avail)
    ensures j <= k && Passed(quiet, avail, k) == Count(quiet, 0, Avail(avail, j)) + (k - j)
  {
    hide Passed, Position;
    if k == 0 {
      j := 0;
      PassedNone(quiet, avail);
    } else {
      PassedStep(quiet, avail, k);
      if Passed(quiet, avail, k - 1) < Count(quiet, 0, Avail(avail, k)) {
        j := PassedTight(quiet, avail, k - 1);
      } else {
        j := k;
      }
    }
  }

  /** In every tail of the pieces fewer quiet frames arrive than there are pieces. */
  ghost predicate Spread(quiet: seq<bool>, avail: seq<nat>)
    requires Rising(quiet, avail)
  {
    forall j :: 0 <= j < |avail| ==> Count(quiet, Avail(avail, j), |quiet|) < |avail| - j
  }

  /** The reader gets to the end if and only if that is so. */
  lemma EndExactly(quiet: seq<bool>, avail: seq<nat>)
    requires Rising(quiet, avail) && Avail(avail, |avail|) == |quiet|
    requires quiet != [] ==> !quiet[|quiet| - 1]
    ensures Position(quiet, avail, |avail|) == |quiet| <==> Spread(quiet, avail)
  {
    var m, n := |avail|, |quiet|;
    if m > 0 {
      PassedStep(quiet, avail, m);
      hide Passed, Position;
      var before := Passed(quiet, avail, m - 1);
      assert Position(quiet, avail, m) == n <==> before == Count(quiet, 0, n);
      forall j | 0 <= j < m
        ensures Count(quiet, 0, n) == Count(quiet, 0, Avail(avail, j)) + Count(quiet, Avail(avail, j), n)
        ensures before <= Count(quiet, 0, Avail(avail, j)) + (m - 1 - j)
      {
        CountSplit(quiet, 0, Avail(avail, j), n);
        PassedAtMost(quiet, avail, m - 1, j);
      }
      var j := PassedTight(quiet, avail, m - 1);
    }
  }

  // ----- Frames on the wire -----

  /** Frames that can be encoded and that an empty table takes without a failure. */
  predicate Sound(frames: seq<Frame>) {
    EncodeFrames(frames).Some? && !AcceptAll(map[], frames).2
  }

  /** The table, the messages and the bytes after the first `p` frames. */
  function TableAt(frames: seq<Frame>, p: nat): (t: map<u64, Partial>)
    requires p <= |frames|
  {
    AcceptAll(map[], frames[..p]).1
  }

  function ItemsAt(frames: seq<Frame>, p: nat): (items: seq<Bytes>)
    requires p <= |frames|
  {
    AcceptAll(map[], frames[..p]).0
  }

  function Enc(f: Frame): (b: Bytes) {
    match EncodeFrame(f) case Some(b) => b case None => []
  }

  function Wire(frames: seq<Frame>): (b: Bytes) {
    match EncodeFrames(frames) case Some(b) => b case None => []
  }

  function End(frames: seq<Frame>, p: nat): (n: nat)
    requires p <= |frames|
  {
    |Wire(frames[..p])|
  }

  /** The first `n` bytes without the first `p` frames. */
  function Slice(frames: seq<Frame>, p: nat, n: nat): (u: Bytes)
    requires p <= |frames|
  {
    if End(frames, p) <= n <= |Wire(frames)| then Wire(frames)[End(frames, p)..n] else []
  }

  lemma {:induction false} PrefixAccepted(partials: map<u64, Partial>, frames: seq<Frame>, p: nat)
    requires p <= |frames| && !AcceptAll(partials, frames).2
    ensures !AcceptAll(partials, frames[..p]).2
    decreases p
  {
    hide Accept;
    if p > 0 {
      assert frames[..p][1..] == frames[1..][..p - 1];
      PrefixAccepted(Accept(partials, frames[0]).1, frames[1..], p - 1);
    }
  }

  /** One more frame at the table. */
  lemma FrameStep(frames: seq<Frame>, p: nat)
    requires Sound(frames) && p < |frames|
    ensures var (outcome, t) := Accept(TableAt(frames, p), frames[p]);
      && !outcome.Failed? && TableAt(frames, p + 1) == t
      && ItemsAt(frames, p + 1) == ItemsAt(frames, p) + ItemsOf(outcome)
  {
    hide Accept, EncodeFrame, EncodeFrames;
    assert frames[..p + 1] == frames[..p] + [frames[p]];
    PrefixAccepted(map[], frames, p);
    PrefixAccepted(map[], frames, p + 1);
    AcceptAllAppend(map[], frames[..p], [frames[p]]);
    AcceptOne(TableAt(frames, p), frames[p]);
  }

  /** One more frame on the wire. */
  lemma EndStep(frames: seq<Frame>, p: nat)
    requires EncodeFrames(frames).Some? && p < |frames|
    ensures EncodeFrame(frames[p]).Some? && Enc(frames[p]) != []
    ensures Wire(frames[..p + 1]) == Wire(frames[..p]) + Enc(frames[p])
    ensures End(frames, p + 1) == End(frames, p) + |Enc(frames[p])|
    ensures Wire(frames[..p + 1]) <= Wire(frames)
  {
    hide EncodeFrame;
    EncodeFramesSplit(frames, p + 1);
    EncodeFramesSplit(frames[..p + 1], p);
    assert frames[..p + 1][..p] == frames[..p] && frames[..p + 1][p..] == [frames[p]];
    OneEncoded(frames[p]);
    EncodedNotEmpty(frames[p]);
    hide EncodeFrames;
  }

  lemma OneEncoded(f: Frame)
    ensures EncodeFrames([f]) == EncodeFrame(f)
  {
    hide EncodeFrame;
    var e := EncodeFrame(f);
    if e.Some? { assert e.value + [] == e.value; }
  }

  lemma WholeWire(frames: seq<Frame>)
    ensures End(frames, |frames|) == |Wire(frames)| && End(frames, 0) == 0
  {
    hide EncodeFrame;
    assert frames[..|frames|] == frames && frames[..0] == [];
  }

  lemma {:induction false} EndRises(frames: seq<Frame>, p: nat, q: nat)
    requires EncodeFrames(frames).Some? && p <= q <= |frames|
    ensures End(frames, p) <= End(frames, q)
    ensures p < q ==> End(frames, p) < End(frames, q)
    ensures End(frames, q) <= |Wire(frames)|
    decreases q
  {
    hide End, EncodeFrames, Wire, Enc;
    if p < q {
      EndRises(frames, p, q - 1);
      EndStep(frames, q - 1);
      EndIs(frames, q);
    } else if q > 0 {
      EndStep(frames, q - 1);
      EndIs(frames, q);
    } else {
      WholeWire(frames);
    }
  }

  lemma EndIs(frames: seq<Frame>, p: nat)
    requires p <= |frames|
    ensures End(frames, p) == |Wire(frames[..p])|
  {
  }

  /** The bytes from frame `p` on begin with that frame, as far as they are there. */
  lemma SliceStep(frames: seq<Frame>, p: nat, n: nat)
    requires EncodeFrames(frames).Some? && p < |frames| && End(frames, p) <= n <= |Wire(frames)|
    ensures EncodeFrame(frames[p]).Some?
    ensures End(frames, p + 1) <= n ==> Slice(frames, p, n) == Enc(frames[p]) + Slice(frames, p + 1, n)
    ensures n < End(frames, p + 1) ==> Slice(frames, p, n) <= Enc(frames[p]) && Slice(frames, p, n) != Enc(frames[p])
  {
    hide EncodeFrames, EncodeFrame, Enc, Wire;
    EndStep(frames, p);
    var wire, e, e' := Wire(frames), End(frames, p), End(frames, p + 1);
    assert wire[..e'] == Wire(frames[..p + 1]);
    assert wire[e..e'] == Enc(frames[p]);
  }

  /** The number of frames that are whole among the first `n` bytes. */
  function Whole(frames: seq<Frame>, p: nat, n: nat): (w: nat)
    requires p <= |frames|
    ensures p <= w <= |frames|
    ensures End(frames, p) <= n ==> End(frames, w) <= n
    ensures w < |frames| ==> n < End(frames, w + 1)
    decreases |frames| - p
  {
    if p == |frames| || n < End(frames, p + 1) then p else Whole(frames, p + 1, n)
  }

  /** Where one starts to look makes no difference. */
  lemma WholeIs(frames: seq<Frame>, p: nat, q: nat, n: nat)
    requires EncodeFrames(frames).Some? && p <= |frames| && q <= |frames|
    requires End(frames, p) <= n && End(frames, q) <= n
    ensures Whole(frames, p, n) == Whole(frames, q, n)
  {
    hide EncodeFrames, End;
    var v, w := Whole(frames, p, n), Whole(frames, q, n);
    if v < w { EndRises(frames, v + 1, w); }
    if w < v { EndRises(frames, w + 1, v); }
  }

  // ----- The reader on these frames -----

  predicate QuietAt(frames: seq<Frame>, p: nat)
    requires p < |frames|
  {
    Accept(TableAt(frames, p), frames[p]).0.Quiet?
  }

  function QuietFlags(frames: seq<Frame>): (quiet: seq<bool>)
    ensures |quiet| == |frames| && forall i :: 0 <= i < |frames| ==> quiet[i] == QuietAt(frames, i)
  {
    seq(|frames|, i requires 0 <= i < |frames| => QuietAt(frames, i))
  }

  /** The decoder has the bytes `u` before it, or has looked at them and found them too short. */
  predicate Pending(d: Decoder, rest: Bytes, t: map<u64, Partial>, u: Bytes) {
    || (d == Decoder(None, t) && rest == u)
    || (!Ready(None, u) && DecodeCall(Decoder(None, t), u, {}) == Called(Quiet, d, rest))
  }

  lemma PendingPoll(d: Decoder, rest: Bytes, t: map<u64, Partial>, u: Bytes, more: Bytes)
    requires Pending(d, rest, t, u)
    ensures Poll(d, rest + more) == Poll(Decoder(None, t), u + more)
  {
    hide DecodeCall, Ready;
    DecodeCallAppend(Decoder(None, t), u, more);
  }

  /** A frame that is not whole yet. */
  lemma ShortFrame(f: Frame, u: Bytes)
    requires EncodeFrame(f).Some? && u <= Enc(f) && u != Enc(f)
    ensures !Ready(None, u)
  {
    hide Print;
    var text := Print(f);
    if |u| >= 4 {
      assert u[..4] == Enc(f)[..4] == Be32(|text|);
      ReadOfBe32(|text|);
    }
  }

  lemma NotReadyQuiet(t: map<u64, Partial>, u: Bytes)
    requires !Ready(None, u)
    ensures var c := DecodeCall(Decoder(None, t), u, {});
      && c.outcome == Quiet && Poll(Decoder(None, t), u) == Drained([], c.decoder, c.rest, false)
      && Pending(c.decoder, c.rest, t, u)
  {
    hide TakeFrame, Parse, Accept;
  }

  lemma CallOnFrame(t: map<u64, Partial>, f: Frame, more: Bytes)
    requires EncodeFrame(f).Some?
    ensures var (outcome, t') := Accept(t, f);
      DecodeCall(Decoder(None, t), Enc(f) + more, {}) == Called(outcome, Decoder(None, t'), more)
  {
    hide Print, Parse, EncodeFrame, TakeFrame, Accept;
    TakeEncoded(f, more);
    ParseOfPrint(f);
    assert t - {} == t;
  }

  /** With the first `n` bytes there, the reader is at frame `p` and has the messages up to it. */
  ghost predicate Reached(frames: seq<Frame>, n: nat, p: nat, r: Drained) {
    && p <= |frames| && End(frames, p) <= n <= |Wire(frames)|
    && !r.failed && r.items == ItemsAt(frames, p)
    && Pending(r.decoder, r.rest, TableAt(frames, p), Slice(frames, p, n))
  }

  /** One wake-up: from frame `p` to where a reader stops that stops behind every quiet frame. */
  lemma {:induction false} PollFrames(frames: seq<Frame>, p: nat, n: nat)
    requires Sound(frames) && p <= |frames| && End(frames, p) <= n <= |Wire(frames)|
    ensures Reached(frames, n, Wake(QuietFlags(frames), p, Whole(frames, p, n)),
                    Prepend(ItemsAt(frames, p), Poll(Decoder(None, TableAt(frames, p)), Slice(frames, p, n))))
    decreases |frames| - p
  {
    hide DecodeCall, Accept, EncodeFrame, EncodeFrames, End, TableAt, ItemsAt, Ready, Wire, Slice, Enc, AcceptAll;
    var t, a, u := TableAt(frames, p), Whole(frames, p, n), Slice(frames, p, n);
    if p == a {
      NothingWhole(frames, p, n);
      NotReadyQuiet(t, u);
    } else {
      FrameStep(frames, p);
      SliceStep(frames, p, n);
      WholeIs(frames, p, p + 1, n);
      var more := Slice(frames, p + 1, n);
      CallOnFrame(t, frames[p], more);
      var (outcome, t') := Accept(t, frames[p]);
      if outcome.Item? {
        PollFrames(frames, p + 1, n);
        var next := Poll(Decoder(None, t'), more);
        assert ItemsAt(frames, p) + ([outcome.data] + next.items) == (ItemsAt(frames, p) + [outcome.data]) + next.items;
      } else {
        assert ItemsAt(frames, p) + [] == ItemsAt(frames, p);
      }
    }
  }

  lemma NothingWhole(frames: seq<Frame>, p: nat, n: nat)
    requires EncodeFrames(frames).Some? && p <= |frames| && End(frames, p) <= n <= |Wire(frames)|
    requires Whole(frames, p, n) == p
    ensures !Ready(None, Slice(frames, p, n))
  {
    hide EncodeFrame, EncodeFrames, Ready, Wire, Enc;
    if p < |frames| {
      SliceStep(frames, p, n);
      ShortFrame(frames[p], Slice(frames, p, n));
    } else {
      WholeWire(frames);
      assert Slice(frames, p, n) == [];
      EmptyNotReady();
    }
  }

  lemma EmptyNotReady()
    ensures !Ready(None, [])
  {
  }

  /** How many frames are whole with each piece. */
  function Arrived(frames: seq<Frame>, pieces: seq<Bytes>): (avail: seq<nat>)
    ensures |avail| == |pieces|
    ensures forall k :: 0 <= k < |pieces| ==> avail[k] == Whole(frames, 0, |Concat(pieces[..k + 1])|)
  {
    seq(|pieces|, k requires 0 <= k < |pieces| => Whole(frames, 0, |Concat(pieces[..k + 1])|))
  }

  lemma WholeRises(frames: seq<Frame>, n: nat, n': nat)
    requires EncodeFrames(frames).Some? && n <= n'
    ensures Whole(frames, 0, n) <= Whole(frames, 0, n')
  {
    hide EncodeFrames, End;
    WholeWire(frames);
    var w, w' := Whole(frames, 0, n), Whole(frames, 0, n');
    if w' < w { EndRises(frames, w' + 1, w); }
  }

  lemma ConcatPrefix(pieces: seq<Bytes>, i: nat, j: nat)
    requires i <= j <= |pieces|
    ensures Concat(pieces[..i]) <= Concat(pieces[..j])
    ensures i < j ==> |Concat(pieces[..i])| + |pieces[i]| <= |Concat(pieces[..j])|
    ensures i + 1 == j ==> Concat(pieces[..j]) == Concat(pieces[..i]) + pieces[i]
  {
    assert pieces[..j] == pieces[..i] + pieces[i..j];
    ConcatAppend(pieces[..i], pieces[i..j]);
    if i < j {
      assert pieces[i..j] == [pieces[i]] + pieces[i + 1..j];
      ConcatAppend([pieces[i]], pieces[i + 1..j]);
      assert Concat([pieces[i]]) == pieces[i];
    }
  }

  lemma ArrivedRises(frames: seq<Frame>, pieces: seq<Bytes>)
    requires EncodeFrames(frames).Some?
    ensures Rising(QuietFlags(frames), Arrived(frames, pieces))
  {
    hide EncodeFrames, Whole, Concat, QuietAt;
    forall i, j | 0 <= i <= j < |pieces|
      ensures Arrived(frames, pieces)[i] <= Arrived(frames, pieces)[j]
    {
      ConcatPrefix(pieces, i + 1, j + 1);
      WholeRises(frames, |Concat(pieces[..i + 1])|, |Concat(pieces[..j + 1])|);
    }
  }

  /** After `k` pieces the reader is where the positions say. */
  lemma {:induction false} ReaderAt(frames: seq<Frame>, pieces: seq<Bytes>, k: nat)
    requires Sound(frames) && Concat(pieces) == Wire(frames) && k <= |pieces|
    requires Rising(QuietFlags(frames), Arrived(frames, pieces))
    ensures Reached(frames, |Concat(pieces[..k])|, Position(QuietFlags(frames), Arrived(frames, pieces), k),
                    PollAfter(pieces[..k]))
  {
    hide Sound, Concat, Poll, Wire, Rising, Reached, Whole, Wake, QuietAt, Prepend, End;
    if k == 0 {
      AtStart(frames, pieces);
    } else {
      ReaderAt(frames, pieces, k - 1);
      ConcatPrefix(pieces, k - 1, k);
      ConcatPrefix(pieces, k, |pieces|);
      assert pieces[..|pieces|] == pieces;
      assert pieces[..k][..k - 1] == pieces[..k - 1];
      ReaderStep(frames, |Concat(pieces[..k - 1])|, Position(QuietFlags(frames), Arrived(frames, pieces), k - 1),
                 PollAfter(pieces[..k - 1]), pieces[k - 1]);
    }
  }

  lemma AtStart(frames: seq<Frame>, pieces: seq<Bytes>)
    ensures Reached(frames, |Concat(pieces[..0])|, 0, PollAfter(pieces[..0]))
  {
    hide EncodeFrame;
    assert pieces[..0] == [] && frames[..0] == [];
    WholeWire(frames);
  }

  lemma ReaderStep(frames: seq<Frame>, n: nat, p: nat, s: Drained, piece: Bytes)
    requires Sound(frames) && Reached(frames, n, p, s)
    requires n + |piece| <= |Wire(frames)| && Wire(frames)[n..n + |piece|] == piece
    ensures !s.failed
    ensures Reached(frames, n + |piece|, Wake(QuietFlags(frames), p, Whole(frames, 0, n + |piece|)),
                    Prepend(s.items, Poll(s.decoder, s.rest + piece)))
  {
    hide Poll, Wire, TableAt, ItemsAt, Pending, EncodeFrames, AcceptAll, Whole, QuietFlags;
    PendingPoll(s.decoder, s.rest, TableAt(frames, p), Slice(frames, p, n), piece);
    assert Slice(frames, p, n) + piece == Slice(frames, p, n + |piece|);
    PollFrames(frames, p, n + |piece|);
    WholeWire(frames);
    WholeIs(frames, p, 0, n + |piece|);
  }

  // ----- The frames of messages -----

  function AllFrames(id: u64, ms: seq<Bytes>): (frames: seq<Frame>)
    decreases |ms|
  {
    if ms == [] then []
    else
      var id' := if |ms[0]| <= CHUNK_SIZE then id else (id + 1) % U64;
      MessageFrames(id, ms[0]) + AllFrames(id', ms[1..])
  }

  lemma {:induction false} EncodeAppend(a: seq<Frame>, b: seq<Frame>)
    ensures EncodeFrames(a + b) ==
      if EncodeFrames(a).Some? && EncodeFrames(b).Some? then Some(EncodeFrames(a).value + EncodeFrames(b).value) else None
    decreases |a|
  {
    hide EncodeFrame;
    if a == [] {
      assert a + b == b;
      if EncodeFrames(b).Some? { assert [] + EncodeFrames(b).value == EncodeFrames(b).value; }
    } else {
      assert (a + b)[1..] == a[1..] + b;
      EncodeAppend(a[1..], b);
      if EncodeFrames(a).Some? && EncodeFrames(b).Some? {
        var x, y, z := EncodeFrame(a[0]).value, EncodeFrames(a[1..]).value, EncodeFrames(b).value;
        assert x + (y + z) == (x + y) + z;
      }
    }
  }

  lemma {:induction false} StreamIs(id: u64, ms: seq<Bytes>)
    ensures Stream(id, ms) == EncodeFrames(AllFrames(id, ms))
    decreases |ms|
  {
    hide EncodeFrames, MessageFrames;
    if ms == [] {
      NoFrames();
    } else {
      var id' := if |ms[0]| <= CHUNK_SIZE then id else (id + 1) % U64;
      StreamIs(id', ms[1..]);
      EncodeAppend(MessageFrames(id, ms[0]), AllFrames(id', ms[1..]));
    }
  }

  lemma NoFrames()
    ensures EncodeFrames([]) == Some([]) && AcceptAll(map[], []) == ([], map[], false)
  {
  }

  lemma {:induction false} AcceptAllFrames(id: u64, ms: seq<Bytes>)
    requires Countable(ms)
    ensures AcceptAll(map[], AllFrames(id, ms)) == (ms, map[], false)
    decreases |ms|
  {
    hide AcceptAll, MessageFrames;
    if ms == [] {
      NoFrames();
    } else {
      var id' := if |ms[0]| <= CHUNK_SIZE then id else (id + 1) % U64;
      AcceptMessage(map[], id, ms[0]);
      AcceptAllFrames(id', ms[1..]);
      AcceptAllAppend(map[], MessageFrames(id, ms[0]), AllFrames(id', ms[1..]));
      assert [ms[0]] + ms[1..] == ms;
    }
  }

  /** A fragment that is not the last of its message. */
  predicate Incomplete(f: Frame) {
    f.Piece? && f.fragment.index + 1 < f.fragment.total
  }

  function IncompleteFlags(frames: seq<Frame>): (flags: seq<bool>)
    ensures |flags| == |frames| && forall i :: 0 <= i < |frames| ==> flags[i] == Incomplete(frames[i])
  {
    seq(|frames|, i requires 0 <= i < |frames| => Incomplete(frames[i]))
  }

  lemma QuietInMessage(id: u64, data: Bytes, i: nat)
    requires ChunkCount(|data|) < U32 && i < |MessageFrames(id, data)|
    ensures QuietAt(MessageFrames(id, data), i) <==> Incomplete(MessageFrames(id, data)[i])
    ensures i == |MessageFrames(id, data)| - 1 ==> !Incomplete(MessageFrames(id, data)[i])
  {
    hide AcceptAll, Accept, Chunk, FirstChunks, Base64.Encode;
    if |data| <= CHUNK_SIZE {
      CompleteIsItem(TableAt(MessageFrames(id, data), i), data);
    } else {
      var frames := Pieces(Fragments(id, data));
      assert ChunkCount(|data|) % U32 == ChunkCount(|data|);
      AcceptChunks(map[], id, data, i);
      AcceptChunk(map[], id, data, i);
      assert frames[i] == Piece(FragmentOf(id, data, i));
    }
  }

  lemma CompleteIsItem(t: map<u64, Partial>, data: Bytes)
    ensures Accept(t, Complete(data)).0 == Item(data)
  {
  }

  lemma {:induction false} QuietIs(id: u64, ms: seq<Bytes>, i: nat)
    requires Countable(ms) && i < |AllFrames(id, ms)|
    ensures QuietAt(AllFrames(id, ms), i) <==> Incomplete(AllFrames(id, ms)[i])
    ensures i == |AllFrames(id, ms)| - 1 ==> !Incomplete(AllFrames(id, ms)[i])
    decreases |ms|
  {
    hide AcceptAll, Accept, MessageFrames, Incomplete;
    var id' := if |ms[0]| <= CHUNK_SIZE then id else (id + 1) % U64;
    var first, rest := MessageFrames(id, ms[0]), AllFrames(id', ms[1..]);
    var frames := AllFrames(id, ms);
    if i < |first| {
      assert frames[..i] == first[..i];
      QuietInMessage(id, ms[0], i);
      if i == |frames| - 1 {
        assert i == |first| - 1;
      }
    } else {
      AcceptMessage(map[], id, ms[0]);
      assert frames[..i] == first + rest[..i - |first|];
      AcceptAllAppend(map[], first, rest[..i - |first|]);
      QuietIs(id', ms[1..], i - |first|);
    }
  }

  lemma {:induction false} ItemsRise(frames: seq<Frame>, p: nat, q: nat)
    requires Sound(frames) && p <= q <= |frames|
    ensures ItemsAt(frames, p) <= ItemsAt(frames, q)
    decreases q
  {
    hide Sound, ItemsAt, TableAt, Accept;
    if p < q {
      ItemsRise(frames, p, q - 1);
      FrameStep(frames, q - 1);
    }
  }

  /** All messages are out exactly when the reader is at the end. */
  lemma ItemsAtEnd(frames: seq<Frame>, p: nat)
    requires Sound(frames) && p <= |frames|
    requires frames != [] ==> !QuietAt(frames, |frames| - 1)
    ensures ItemsAt(frames, p) == ItemsAt(frames, |frames|) <==> p == |frames|
  {
    hide Sound, ItemsAt, TableAt, Accept;
    if p < |frames| {
      ItemsRise(frames, p, |frames| - 1);
      FrameStep(frames, |frames| - 1);
    }
  }

  // ----- When the reader gets everything -----

  /** Encode any messages and cut the byte stream anywhere. The reader never fails and never
      gets a wrong message; it gets all of them if and only if in every tail of the pieces
      fewer fragments that leave their message incomplete become whole than there are pieces. */
  lemma GetsAllExactly(id: u64, ms: seq<Bytes>, pieces: seq<Bytes>)
    requires Countable(ms) && Stream(id, ms) == Some(Concat(pieces))
    ensures !PollAfter(pieces).failed && PollAfter(pieces).items <= ms
    ensures Rising(IncompleteFlags(AllFrames(id, ms)), Arrived(AllFrames(id, ms), pieces))
    ensures PollAfter(pieces).items == ms <==>
            Spread(IncompleteFlags(AllFrames(id, ms)), Arrived(AllFrames(id, ms), pieces))
  {
    hide Concat, AllFrames, EncodeFrames, AcceptAll, PollAfter, Position, Spread, Rising, QuietAt, Incomplete, Whole, Stream;
    var frames := AllFrames(id, ms);
    StreamIs(id, ms);
    AcceptAllFrames(id, ms);
    FlagsAgree(id, ms);
    ArrivedRises(frames, pieces);
    ReaderAt(frames, pieces, |pieces|);
    assert pieces[..|pieces|] == pieces && frames[..|frames|] == frames;
    var p := Position(QuietFlags(frames), Arrived(frames, pieces), |pieces|);
    ItemsRise(frames, p, |frames|);
    ItemsAtEnd(frames, p);
    AllArrived(frames, pieces);
    EndExactly(QuietFlags(frames), Arrived(frames, pieces));
  }

  lemma FlagsAgree(id: u64, ms: seq<Bytes>)
    requires Countable(ms)
    ensures QuietFlags(AllFrames(id, ms)) == IncompleteFlags(AllFrames(id, ms))
    ensures var frames := AllFrames(id, ms); frames != [] ==> !QuietAt(frames, |frames| - 1)
  {
    hide QuietAt, Incomplete, AllFrames;
    var frames := AllFrames(id, ms);
    forall i: nat | i < |frames|
      ensures QuietAt(frames, i) <==> Incomplete(frames[i])
      ensures i == |frames| - 1 ==> !Incomplete(frames[i])
    {
      QuietIs(id, ms, i);
    }
  }

  lemma AllArrived(frames: seq<Frame>, pieces: seq<Bytes>)
    requires EncodeFrames(frames).Some? && Concat(pieces) == Wire(frames)
    ensures Avail(Arrived(frames, pieces), |pieces|) == |frames|
  {
    hide EncodeFrames, Wire;
    WholeWire(frames);
    if pieces == [] {
      if frames != [] { EndRises(frames, 0, |frames|); }
    } else {
      assert pieces[..|pieces|] == pieces;
      var w := Whole(frames, 0, |Wire(frames)|);
      if w < |frames| { EndRises(frames, w + 1, |frames|); }
    }
  }

  /** The messages before the first one that travels in fragments. */
  function FirstLong(ms: seq<Bytes>): (k: nat)
    ensures k <= |ms| && (forall i :: 0 <= i < k ==> |ms[i]| <= CHUNK_SIZE)
    ensures k < |ms| ==> |ms[k]| > CHUNK_SIZE
  {
    if ms == [] || |ms[0]| > CHUNK_SIZE then 0 else 1 + FirstLong(ms[1..])
  }

  /** When everything arrives in one piece, the reader gets exactly the messages before the
      first one longer than a chunk, and so all of them if and only if none is. */
  lemma {:induction false} OnePieceExactly(id: u64, ms: seq<Bytes>)
    requires Countable(ms) && Stream(id, ms).Some?
    ensures Poll(Decoder(None, map[]), Stream(id, ms).value).items == ms[..FirstLong(ms)]
    decreases |ms|
  {
    hide DecodeCall, EncodeFrame, Accept, Ready;
    if ms == [] {
      EmptyNotReady();
      NotReadyQuiet(map[], []);
    } else if |ms[0]| <= CHUNK_SIZE {
      OneEncoded(Complete(ms[0]));
      var rest := Stream(id, ms[1..]).value;
      CallOnFrame(map[], Complete(ms[0]), rest);
      CompleteIsItem(map[], ms[0]);
      CompleteKeeps(map[], ms[0]);
      OnePieceExactly(id, ms[1..]);
      assert ms[..FirstLong(ms)] == [ms[0]] + ms[1..][..FirstLong(ms[1..])];
    } else {
      LongFirst(id, ms);
    }
  }

  lemma CompleteKeeps(t: map<u64, Partial>, data: Bytes)
    ensures Accept(t, Complete(data)).1 == t
  {
  }

  lemma LongFirst(id: u64, ms: seq<Bytes>)
    requires ms != [] && |ms[0]| > CHUNK_SIZE && Countable(ms) && Stream(id, ms).Some?
    ensures Poll(Decoder(None, map[]), Stream(id, ms).value).items == []
  {
    hide DecodeCall, EncodeFrame, Accept, Ready, Chunk;
    var frames := Pieces(Fragments(id, ms[0]));
    var more := EncodeFrames(frames[1..]).value + Stream((id + 1) % U64, ms[1..]).value;
    assert frames[0] == Piece(FragmentOf(id, ms[0], 0));
    assert Stream(id, ms).value == Enc(frames[0]) + more;
    CallOnFrame(map[], frames[0], more);
    assert ChunkCount(|ms[0]|) % U32 == ChunkCount(|ms[0]|) >= 2;
    AcceptChunk(map[], id, ms[0], 0);
  }

  /** A message of two fragments that arrives in two pieces comes out if and only if the first
      piece holds the whole first fragment. */
  lemma TwoPiecesExactly(id: u64, data: Bytes, a: Bytes, b: Bytes)
    requires CHUNK_SIZE < |data| <= 2 * CHUNK_SIZE && Stream(id, [data]) == Some(a + b)
    ensures PollAfter([a, b]).items == [data] <==> |a| >= |Enc(Piece(FragmentOf(id, data, 0)))|
  {
    hide PollAfter, EncodeFrame, EncodeFrames, Stream, Chunk, AllFrames, FragmentOf, Spread, Enc, Concat;
    var pieces, frames := [a, b], AllFrames(id, [data]);
    assert Concat(pieces) == a + b by { ConcatTwo(a, b); }
    TwoFrames(id, data);
    GetsAllExactly(id, [data], pieces);
    StreamIs(id, [data]);
    FirstArrival(frames, a, b);
    SpreadTwo(IncompleteFlags(frames), Arrived(frames, pieces));
  }

  lemma ConcatTwo(a: Bytes, b: Bytes)
    ensures Concat([a, b]) == a + b && Concat([a]) == a
  {
    assert [a, b][1..] == [b] && [b][1..] == [] && [a][1..] == [];
    assert Concat([b]) == b + [] == b && Concat([a]) == a + [] == a;
  }

  lemma TwoFrames(id: u64, data: Bytes)
    requires CHUNK_SIZE < |data| <= 2 * CHUNK_SIZE
    ensures Countable([data])
    ensures AllFrames(id, [data]) == [Piece(FragmentOf(id, data, 0)), Piece(FragmentOf(id, data, 1))]
    ensures IncompleteFlags(AllFrames(id, [data])) == [true, false]
  {
    hide Chunk;
    assert ChunkCount(|data|) == 2;
    assert [data][1..] == [];
  }

  lemma FirstArrival(frames: seq<Frame>, a: Bytes, b: Bytes)
    requires EncodeFrames(frames).Some? && |frames| == 2
    ensures Arrived(frames, [a, b])[0] > 0 <==> |a| >= |Enc(frames[0])|
  {
    hide EncodeFrame, EncodeFrames, Enc, Wire;
    ConcatTwo(a, b);
    assert [a, b][..1] == [a];
    EndStep(frames, 0);
    WholeWire(frames);
  }

  lemma CountTwo(flags: seq<bool>)
    requires flags == [true, false]
    ensures Count(flags, 0, 2) == 1 && Count(flags, 1, 2) == 0 && Count(flags, 2, 2) == 0
  {
    assert Count(flags, 0, 1) == 1;
  }

  lemma SpreadTwo(flags: seq<bool>, avail: seq<nat>)
    requires flags == [true, false] && |avail| == 2 && Rising(flags, avail)
    ensures Spread(flags, avail) <==> avail[0] > 0
  {
    CountTwo(flags);
    assert Avail(avail, 0) == 0 && Avail(avail, 1) == avail[0];
    if avail[0] > 0 {
      forall j | 0 <= j < 2
        ensures Count(flags, Avail(avail, j), |flags|) < |avail| - j
      {
        assert j == 0 || j == 1;
      }
    }
  }
}
