/** Runs of decode calls with everything that can happen between them: each call comes with more
    bytes of the stream, cut anywhere, and with the partial messages that have expired by then.
    The stream is any sequence of genuine fragments of any messages. */
module ExpiryRuns {
  import opened Prelude
  import opened Frames
  import opened FragmentingCodec
  import opened Reassembly
  import opened WireRoundTrip
  import opened FramedDriver

  /** One call: the bytes that have come in since the last one, and what has expired. */
  datatype Call = Call(piece: Bytes, expired: set<u64>)

  datatype Reader = Reader(decoder: Decoder, rest: Bytes)

  function CallNext(r: Reader, call: Call): (c: Called) {
    DecodeCall(r.decoder, r.rest + call.piece, call.expired)
  }

  function ReaderAfter(calls: seq<Call>): (r: Reader) {
    if calls == [] then Reader(Decoder(None, map[]), [])
    else
      var c := CallNext(ReaderAfter(calls[..|calls| - 1]), calls[|calls| - 1]);
      Reader(c.decoder, c.rest)
  }

  /** What call `k` answers. */
  function OutcomeAt(calls: seq<Call>, k: nat): (o: Outcome)
    requires k < |calls|
  {
    CallNext(ReaderAfter(calls[..k]), calls[k]).outcome
  }

  // ----- The same, told by fragments -----

  /** A fragment on the wire. */
  datatype Sent = Sent(id: u64, index: nat)

  predicate GenuineSent(msgs: Messages, sent: seq<Sent>) {
    Sendable(msgs) && forall i :: 0 <= i < |sent| ==> Genuine(msgs, Deliver(sent[i].id, sent[i].index))
  }

  function FramesOf(msgs: Messages, sent: seq<Sent>): (frames: seq<Frame>)
    requires GenuineSent(msgs, sent)
    ensures |frames| == |sent|
  {
    seq(|sent|, i requires 0 <= i < |sent| =>
      assert Genuine(msgs, Deliver(sent[i].id, sent[i].index));
      Piece(FragmentOf(sent[i].id, msgs[sent[i].id], sent[i].index)))
  }

  function Seen(calls: seq<Call>): (n: nat) {
    if calls == [] then 0 else Seen(calls[..|calls| - 1]) + |calls[|calls| - 1].piece|
  }

  function BytesIn(calls: seq<Call>): (b: Bytes)
    ensures |b| == Seen(calls)
  {
    if calls == [] then [] else BytesIn(calls[..|calls| - 1]) + calls[|calls| - 1].piece
  }

  /** How many fragments have been taken: every call takes one if it is whole. */
  function FragmentsTaken(frames: seq<Frame>, calls: seq<Call>): (p: nat)
    ensures p <= |frames|
  {
    if calls == [] then 0
    else
      var p := FragmentsTaken(frames, calls[..|calls| - 1]);
      if p < Whole(frames, 0, Seen(calls)) then p + 1 else p
  }

  /** Every call lets partial messages expire first, and then delivers the fragment it takes. */
  function ArrivalsOf(frames: seq<Frame>, sent: seq<Sent>, calls: seq<Call>): (run: seq<Arrival>)
    requires |frames| == |sent|
  {
    if calls == [] then []
    else
      var init, last := calls[..|calls| - 1], calls[|calls| - 1];
      var p := FragmentsTaken(frames, init);
      ArrivalsOf(frames, sent, init) + [Expire(last.expired)] +
      if p < Whole(frames, 0, Seen(calls)) then [Deliver(sent[p].id, sent[p].index)] else []
  }

  lemma {:induction false} ArrivalsGenuine(msgs: Messages, sent: seq<Sent>, calls: seq<Call>)
    requires GenuineSent(msgs, sent)
    ensures GenuineRun(msgs, ArrivalsOf(FramesOf(msgs, sent), sent, calls))
  {
    hide *;
    var frames := FramesOf(msgs, sent);
    ArrivalsSnoc(frames, sent, calls);
    if calls == [] {
      NoArrivals(msgs, sent);
    } else {
      var init, last := calls[..|calls| - 1], calls[|calls| - 1];
      var before, p := ArrivalsOf(frames, sent, init), FragmentsTaken(frames, init);
      ArrivalsGenuine(msgs, sent, init);
      OneMoreGenuine(msgs, before, Expire(last.expired));
      if p < Whole(frames, 0, Seen(calls)) {
        SentGenuine(msgs, sent, p);
        OneMoreGenuine(msgs, before + [Expire(last.expired)], Deliver(sent[p].id, sent[p].index));
      } else {
        assert before + [Expire(last.expired)] + [] == before + [Expire(last.expired)];
      }
    }
  }

  lemma ArrivalsSnoc(frames: seq<Frame>, sent: seq<Sent>, calls: seq<Call>)
    requires |frames| == |sent|
    ensures ArrivalsOf(frames, sent, calls) ==
      if calls == [] then []
      else
        var init, last := calls[..|calls| - 1], calls[|calls| - 1];
        var p := FragmentsTaken(frames, init);
        ArrivalsOf(frames, sent, init) + [Expire(last.expired)] +
        if p < Whole(frames, 0, Seen(calls)) then [Deliver(sent[p].id, sent[p].index)] else []
    ensures calls != [] ==> Whole(frames, 0, Seen(calls)) <= |frames|
  {
    hide Whole, Seen, FragmentsTaken;
  }

  lemma NoArrivals(msgs: Messages, sent: seq<Sent>)
    requires GenuineSent(msgs, sent)
    ensures GenuineRun(msgs, [])
  {
  }

  lemma OneMoreGenuine(msgs: Messages, run: seq<Arrival>, a: Arrival)
    requires GenuineRun(msgs, run) && (a.Deliver? ==> Genuine(msgs, a))
    ensures GenuineRun(msgs, run + [a])
  {
    hide Sendable;
  }

  lemma SentGenuine(msgs: Messages, sent: seq<Sent>, p: nat)
    requires GenuineSent(msgs, sent) && p < |sent|
    ensures Genuine(msgs, Deliver(sent[p].id, sent[p].index))
  {
    hide Genuine, Sendable;
  }

  // ----- One call -----

  /** A call forgets what has expired before it does anything else. */
  lemma CallExpires(d: Decoder, buf: Bytes, expired: set<u64>)
    ensures DecodeCall(d, buf, expired) == DecodeCall(d.(partials := d.partials - expired), buf, {})
  {
    hide TakeFrame, Parse, Accept;
    assert d.partials - expired - {} == d.partials - expired;
  }

  lemma PendingExpires(d: Decoder, rest: Bytes, t: map<u64, Partial>, u: Bytes, expired: set<u64>)
    requires Pending(d, rest, t, u)
    ensures Pending(d.(partials := d.partials - expired), rest, t - expired, u)
  {
    hide Parse, Accept, TakeFrame;
    assert t - {} == t && t - expired - {} == t - expired;
  }

  lemma PendingCall(d: Decoder, rest: Bytes, t: map<u64, Partial>, u: Bytes, more: Bytes)
    requires Pending(d, rest, t, u)
    ensures DecodeCall(d, rest + more, {}) == DecodeCall(Decoder(None, t), u + more, {})
  {
    hide DecodeCall, Ready;
    DecodeCallAppend(Decoder(None, t), u, more);
  }

  /** The reader after `n` bytes and `p` fragments, with the table `t`. */
  ghost predicate At(frames: seq<Frame>, n: nat, p: nat, t: map<u64, Partial>, r: Reader) {
    && p <= |frames| && End(frames, p) <= n <= |Wire(frames)|
    && Pending(r.decoder, r.rest, t, Slice(frames, p, n))
  }

  lemma CallStep(frames: seq<Frame>, n: nat, p: nat, t: map<u64, Partial>, r: Reader, call: Call)
    requires EncodeFrames(frames).Some? && At(frames, n, p, t, r)
    requires n + |call.piece| <= |Wire(frames)| && Wire(frames)[n..n + |call.piece|] == call.piece
    ensures var c, n', t' := CallNext(r, call), n + |call.piece|, t - call.expired;
      if p < Whole(frames, 0, n') then
        var (outcome, t'') := Accept(t', frames[p]);
        c.outcome == outcome && At(frames, n', p + 1, t'', Reader(c.decoder, c.rest))
      else
        c.outcome == Quiet && At(frames, n', p, t', Reader(c.decoder, c.rest))
  {
    hide DecodeCall, Pending, EncodeFrames, Wire, Whole, Accept, Ready, Enc, EncodeFrame;
    var n', t' := n + |call.piece|, t - call.expired;
    CallExpires(r.decoder, r.rest + call.piece, call.expired);
    PendingExpires(r.decoder, r.rest, t, Slice(frames, p, n), call.expired);
    PendingCall(r.decoder.(partials := r.decoder.partials - call.expired), r.rest, t', Slice(frames, p, n), call.piece);
    assert Slice(frames, p, n) + call.piece == Slice(frames, p, n');
    WholeWire(frames);
    WholeIs(frames, p, 0, n');
    NextCall(frames, n', p, t');
  }

  lemma NextCall(frames: seq<Frame>, n: nat, p: nat, t: map<u64, Partial>)
    requires EncodeFrames(frames).Some? && p <= |frames| && End(frames, p) <= n <= |Wire(frames)|
    ensures var c := DecodeCall(Decoder(None, t), Slice(frames, p, n), {});
      if p < Whole(frames, p, n) then
        var (outcome, t') := Accept(t, frames[p]);
        c.outcome == outcome && At(frames, n, p + 1, t', Reader(c.decoder, c.rest))
      else
        c.outcome == Quiet && At(frames, n, p, t, Reader(c.decoder, c.rest))
  {
    hide DecodeCall, EncodeFrames, Wire, Accept, Ready, Enc, EncodeFrame, Slice, End;
    if p < Whole(frames, p, n) {
      SliceStep(frames, p, n);
      EndRises(frames, p + 1, Whole(frames, p, n));
      CallOnFrame(t, frames[p], Slice(frames, p + 1, n));
    } else {
      NothingWhole(frames, p, n);
      NotReadyQuiet(t, Slice(frames, p, n));
    }
  }

  // ----- A run of calls -----

  lemma FramesEncode(msgs: Messages, sent: seq<Sent>)
    requires GenuineSent(msgs, sent)
    ensures EncodeFrames(FramesOf(msgs, sent)).Some?
  {
    hide EncodeFrame, FragmentOf;
    var frames := FramesOf(msgs, sent);
    forall i | 0 <= i < |frames|
      ensures EncodeFrame(frames[i]).Some?
    {
      assert Genuine(msgs, Deliver(sent[i].id, sent[i].index));
      FragmentsFit(sent[i].id, msgs[sent[i].id], sent[i].index);
    }
    AllFit(frames);
  }

  lemma TableSnoc(msgs: Messages, run: seq<Arrival>, a: Arrival)
    requires GenuineRun(msgs, run + [a])
    ensures GenuineRun(msgs, run) && Genuine(msgs, a)
    ensures TableAfter(msgs, run + [a]) == Handle(msgs, TableAfter(msgs, run), a).1
    ensures Yield(msgs, run + [a], |run|) == Handle(msgs, TableAfter(msgs, run), a).0
  {
    hide Handle, Sendable, Genuine;
    assert (run + [a])[..|run|] == run;
    assert forall k :: 0 <= k < |run| ==> (run + [a])[k] == run[k];
    assert (run + [a])[|run|] == a;
  }

  /** The reader's table is the one of the arrivals. */
  lemma {:induction false} ReaderFollows(msgs: Messages, sent: seq<Sent>, calls: seq<Call>)
    requires GenuineSent(msgs, sent) && BytesIn(calls) <= Wire(FramesOf(msgs, sent))
    ensures GenuineRun(msgs, ArrivalsOf(FramesOf(msgs, sent), sent, calls))
    ensures var frames := FramesOf(msgs, sent);
      At(frames, Seen(calls), FragmentsTaken(frames, calls),
         TableAfter(msgs, ArrivalsOf(frames, sent, calls)), ReaderAfter(calls))
  {
    hide FramesOf, Whole, At, CallNext, Wire, TableAfter, GenuineSent, GenuineRun;
    ArrivalsGenuine(msgs, sent, calls);
    var frames := FramesOf(msgs, sent);
    if calls == [] {
      AtStartOf(msgs, frames);
    } else {
      var init, last := calls[..|calls| - 1], calls[|calls| - 1];
      assert BytesIn(init) <= BytesIn(calls);
      ReaderFollows(msgs, sent, init);
      assert BeforeLast(msgs, sent, calls);
      CallFollows(msgs, sent, calls);
    }
  }

  lemma AtStartOf(msgs: Messages, frames: seq<Frame>)
    requires GenuineRun(msgs, [])
    ensures At(frames, 0, 0, TableAfter(msgs, []), Reader(Decoder(None, map[]), []))
  {
    hide EncodeFrame;
    WholeWire(frames);
    assert frames[..0] == [];
  }

  /** The reader before the last call. */
  ghost predicate BeforeLast(msgs: Messages, sent: seq<Sent>, calls: seq<Call>) {
    && GenuineSent(msgs, sent) && BytesIn(calls) <= Wire(FramesOf(msgs, sent)) && calls != []
    && var init, frames := calls[..|calls| - 1], FramesOf(msgs, sent);
    && GenuineRun(msgs, ArrivalsOf(frames, sent, init)) && GenuineRun(msgs, ArrivalsOf(frames, sent, calls))
    && At(frames, Seen(init), FragmentsTaken(frames, init), TableAfter(msgs, ArrivalsOf(frames, sent, init)), ReaderAfter(init))
  }

  lemma BeforeLastMeans(msgs: Messages, sent: seq<Sent>, calls: seq<Call>)
    requires BeforeLast(msgs, sent, calls)
    ensures var init, frames := calls[..|calls| - 1], FramesOf(msgs, sent);
      && BytesIn(calls) <= Wire(frames)
      && GenuineRun(msgs, ArrivalsOf(frames, sent, init)) && GenuineRun(msgs, ArrivalsOf(frames, sent, calls))
      && At(frames, Seen(init), FragmentsTaken(frames, init), TableAfter(msgs, ArrivalsOf(frames, sent, init)), ReaderAfter(init))
  {
    hide At, Wire, TableAfter, FramesOf, GenuineRun, GenuineSent, ArrivalsOf, FragmentsTaken, Seen, BytesIn, ReaderAfter;
  }

  /** The last call, as the specification of one call has it. */
  lemma LastStep(msgs: Messages, sent: seq<Sent>, calls: seq<Call>)
    requires GenuineSent(msgs, sent) && calls != [] && BeforeLast(msgs, sent, calls)
    requires GenuineRun(msgs, ArrivalsOf(FramesOf(msgs, sent), sent, calls[..|calls| - 1]))
    ensures var init, last, frames := calls[..|calls| - 1], calls[|calls| - 1], FramesOf(msgs, sent);
      var c, p := CallNext(ReaderAfter(init), last), FragmentsTaken(frames, init);
      var table := TableAfter(msgs, ArrivalsOf(frames, sent, init)) - last.expired;
      if p < Whole(frames, 0, Seen(calls)) then
        c.outcome == Accept(table, frames[p]).0
        && At(frames, Seen(calls), p + 1, Accept(table, frames[p]).1, Reader(c.decoder, c.rest))
      else c.outcome == Quiet && At(frames, Seen(calls), p, table, Reader(c.decoder, c.rest))
  {
    hide *;
    var init, last, frames := calls[..|calls| - 1], calls[|calls| - 1], FramesOf(msgs, sent);
    BeforeLastMeans(msgs, sent, calls);
    LastCall(frames, sent, calls);
    FramesEncode(msgs, sent);
    PieceOnWire(Wire(frames), BytesIn(init), last.piece);
    CallStep(frames, Seen(init), FragmentsTaken(frames, init), TableAfter(msgs, ArrivalsOf(frames, sent, init)),
             ReaderAfter(init), last);
  }

  /** What the last call does to the reader, and what it answers. */
  lemma CallFollows(msgs: Messages, sent: seq<Sent>, calls: seq<Call>)
    requires GenuineSent(msgs, sent) && calls != [] && BeforeLast(msgs, sent, calls)
    requires GenuineRun(msgs, ArrivalsOf(FramesOf(msgs, sent), sent, calls))
    ensures var frames := FramesOf(msgs, sent);
      var run := ArrivalsOf(frames, sent, calls);
      && At(frames, Seen(calls), FragmentsTaken(frames, calls), TableAfter(msgs, run), ReaderAfter(calls))
      && CallNext(ReaderAfter(calls[..|calls| - 1]), calls[|calls| - 1]).outcome ==
           if FragmentsTaken(frames, calls[..|calls| - 1]) < Whole(frames, 0, Seen(calls)) then Yield(msgs, run, |run| - 1) else Quiet
  {
    hide *;
    BeforeLastMeans(msgs, sent, calls);
    LastStep(msgs, sent, calls);
    LastCall(FramesOf(msgs, sent), sent, calls);
    CallTables(msgs, sent, calls);
  }

  lemma PieceOnWire(wire: Bytes, before: Bytes, piece: Bytes)
    requires before + piece <= wire
    ensures |before| + |piece| <= |wire| && wire[|before|..|before| + |piece|] == piece
  {
    var b := before + piece;
    assert wire[..|b|] == b;
  }

  /** What the last call does to the table of the arrivals. */
  lemma CallTables(msgs: Messages, sent: seq<Sent>, calls: seq<Call>)
    requires GenuineSent(msgs, sent) && calls != []
    requires GenuineRun(msgs, ArrivalsOf(FramesOf(msgs, sent), sent, calls[..|calls| - 1]))
    requires GenuineRun(msgs, ArrivalsOf(FramesOf(msgs, sent), sent, calls))
    ensures var frames, init, last := FramesOf(msgs, sent), calls[..|calls| - 1], calls[|calls| - 1];
      var p, run := FragmentsTaken(frames, init), ArrivalsOf(frames, sent, calls);
      var table := TableAfter(msgs, ArrivalsOf(frames, sent, init)) - last.expired;
      if p < Whole(frames, 0, Seen(calls)) then
        (Yield(msgs, run, |run| - 1), TableAfter(msgs, run)) == Accept(table, frames[p])
      else TableAfter(msgs, run) == table
  {
    hide *;
    var init, last, frames := calls[..|calls| - 1], calls[|calls| - 1], FramesOf(msgs, sent);
    var before, p := ArrivalsOf(frames, sent, init), FragmentsTaken(frames, init);
    var table := TableAfter(msgs, before);
    LastCall(frames, sent, calls);
    var run, expire := ArrivalsOf(frames, sent, calls), Expire(last.expired);
    GenuinePrefix(msgs, before, last.expired);
    TableSnoc(msgs, before, expire);
    ExpireHandled(msgs, table, last.expired);
    if p < Whole(frames, 0, Seen(calls)) {
      var d := Deliver(sent[p].id, sent[p].index);
      assert run == (before + [expire]) + [d];
      TableSnoc(msgs, before + [expire], d);
      DeliverHandled(msgs, sent, table - last.expired, p);
    } else {
      assert run == before + [expire];
    }
  }

  lemma LastCall(frames: seq<Frame>, sent: seq<Sent>, calls: seq<Call>)
    requires |frames| == |sent| && calls != []
    ensures var init, last := calls[..|calls| - 1], calls[|calls| - 1];
      var p := FragmentsTaken(frames, init);
      var whole := p < Whole(frames, 0, Seen(calls));
      && Seen(calls) == Seen(init) + |last.piece| && BytesIn(calls) == BytesIn(init) + last.piece
      && FragmentsTaken(frames, calls) == (if whole then p + 1 else p)
      && ArrivalsOf(frames, sent, calls) ==
           ArrivalsOf(frames, sent, init) + [Expire(last.expired)] +
           (if whole then [Deliver(sent[p].id, sent[p].index)] else [])
      && ReaderAfter(calls) == Reader(CallNext(ReaderAfter(init), last).decoder, CallNext(ReaderAfter(init), last).rest)
  {
    hide Whole, CallNext;
  }

  lemma ExpireHandled(msgs: Messages, table: map<u64, Partial>, expired: set<u64>)
    ensures Genuine(msgs, Expire(expired)) && Handle(msgs, table, Expire(expired)) == (Quiet, table - expired)
  {
  }

  lemma DeliverHandled(msgs: Messages, sent: seq<Sent>, table: map<u64, Partial>, p: nat)
    requires GenuineSent(msgs, sent) && p < |sent|
    ensures Genuine(msgs, Deliver(sent[p].id, sent[p].index))
    ensures Handle(msgs, table, Deliver(sent[p].id, sent[p].index)) == Accept(table, FramesOf(msgs, sent)[p])
  {
    hide Accept, FragmentOf;
  }

  /** Whatever fragments are on the wire, however the stream is cut, and whatever expires before
      each call: a call that finds no whole fragment answers that nothing is complete; one that
      does takes it, and answers with its message exactly when it supplies the last fragment
      missing since the message was last whole or expired, this call's expiry included. */
  lemma CallsExactly(msgs: Messages, sent: seq<Sent>, calls: seq<Call>, k: nat)
    requires GenuineSent(msgs, sent) && BytesIn(calls) <= Wire(FramesOf(msgs, sent)) && k < |calls|
    ensures var frames := FramesOf(msgs, sent);
      var p := FragmentsTaken(frames, calls[..k]);
      var run := ArrivalsOf(frames, sent, calls[..k]) + [Expire(calls[k].expired)];
      && GenuineRun(msgs, run)
      && OutcomeAt(calls, k) ==
           if p < Whole(frames, 0, Seen(calls[..k + 1]))
              && Held(msgs, run, sent[p].id) + {sent[p].index} == Below(ChunkCount(|msgs[sent[p].id]|))
           then Item(msgs[sent[p].id]) else Quiet
  {
    hide FramesOf, Whole, At, CallNext, Wire, TableAfter, Held, Yield, ReaderAfter, GenuineRun, FragmentsTaken,
      Seen, BytesIn, ArrivalsOf, GenuineSent, Below;
    var frames, now := FramesOf(msgs, sent), calls[..k + 1];
    BytesPrefix(calls, k + 1);
    assert now[..|now| - 1] == calls[..k];
    BytesPrefix(now, k);
    ReaderFollows(msgs, sent, calls[..k]);
    ArrivalsGenuine(msgs, sent, now);
    assert BeforeLast(msgs, sent, now);
    CallFollows(msgs, sent, now);
    var before, p := ArrivalsOf(frames, sent, calls[..k]), FragmentsTaken(frames, calls[..k]);
    var run := before + [Expire(calls[k].expired)];
    GenuinePrefix(msgs, before, calls[k].expired);
    if p < Whole(frames, 0, Seen(now)) {
      var full := ArrivalsOf(frames, sent, now);
      LastCall(frames, sent, now);
      assert full == run + [Deliver(sent[p].id, sent[p].index)];
      YieldExactly(msgs, full, |full| - 1);
      assert full[..|full| - 1] == run;
    }
  }

  lemma GenuinePrefix(msgs: Messages, before: seq<Arrival>, expired: set<u64>)
    requires GenuineRun(msgs, before)
    ensures GenuineRun(msgs, before + [Expire(expired)])
  {
  }

  lemma {:induction false} BytesPrefix(calls: seq<Call>, k: nat)
    requires k <= |calls|
    ensures BytesIn(calls[..k]) <= BytesIn(calls)
  {
    if k < |calls| {
      var init := calls[..|calls| - 1];
      BytesPrefix(init, k);
      assert init[..k] == calls[..k];
    } else {
      assert calls[..k] == calls;
    }
  }

  /** In particular, a fragment of a message that has just expired starts it afresh: it is
      answered with the message only if it is the only fragment. */
  lemma StartsAfresh(msgs: Messages, sent: seq<Sent>, calls: seq<Call>, k: nat)
    requires GenuineSent(msgs, sent) && BytesIn(calls) <= Wire(FramesOf(msgs, sent)) && k < |calls|
    requires var p := FragmentsTaken(FramesOf(msgs, sent), calls[..k]);
      p < Whole(FramesOf(msgs, sent), 0, Seen(calls[..k + 1])) && sent[p].id in calls[k].expired
    ensures var p := FragmentsTaken(FramesOf(msgs, sent), calls[..k]);
      OutcomeAt(calls, k) == if ChunkCount(|msgs[sent[p].id]|) == 1 then Item(msgs[sent[p].id]) else Quiet
  {
    hide FramesOf, Whole, OutcomeAt, ArrivalsOf, FragmentsTaken, Wire, ChunkCount;
    CallsExactly(msgs, sent, calls, k);
    var frames := FramesOf(msgs, sent);
    var p, before := FragmentsTaken(frames, calls[..k]), ArrivalsOf(frames, sent, calls[..k]);
    var run := before + [Expire(calls[k].expired)];
    assert run[..|run| - 1] == before;
    assert Held(msgs, run, sent[p].id) == {};
    var n := ChunkCount(|msgs[sent[p].id]|);
    assert Genuine(msgs, Deliver(sent[p].id, sent[p].index));
    assert {} + {sent[p].index} == {sent[p].index} && |{sent[p].index}| == 1;
    if n == 1 {
      assert Below(1) == {0} && sent[p].index == 0;
    }
  }
}
