/** The wire as a whole: frame sizes, independence of how the byte stream is cut, and the
    round trip of messages through encode and decode. */
module WireRoundTrip {
  import opened Prelude
  import opened Json
  import opened Frames
  import opened FragmentingCodec
  import Reassembly
  import Base64

  // ----- Sizes -----

  const WARN_SIZE: nat := 31 * 1024 * 1024

  /** The size warning of `fragment_message` cannot fire, and every fragment can be encoded. */
  lemma FragmentsFit(id: u64, data: Bytes, i: nat)
    requires i < ChunkCount(|data|)
    ensures |Print(Piece(FragmentOf(id, data, i)))| <= 11_184_931 < WARN_SIZE
    ensures EncodeFrame(Piece(FragmentOf(id, data, i))).Some?
  {
    hide Print, Base64.Encode;
    FragmentSize(FragmentOf(id, data, i));
  }

  /** A message cannot be encoded exactly when it is small enough to travel in one frame but
      its JSON text, one to three digits and a comma per byte, is over the frame limit. */
  lemma EncodeFailsExactly(id: u64, data: Bytes)
    ensures EncodeFrames(MessageFrames(id, data)).None? <==>
      && |data| <= CHUNK_SIZE
      && 14 + DigitCount(data) + (if data == [] then 1 else |data|) > MAX_FRAME_LENGTH
  {
    hide Print, Be32;
    var frames := MessageFrames(id, data);
    if |data| <= CHUNK_SIZE {
      CompleteSize(data);
      assert frames == [Complete(data)] && EncodeFrames(frames[1..]) == Some([]);
    } else {
      forall i | 0 <= i < |frames|
        ensures EncodeFrame(frames[i]).Some?
      {
        FragmentsFit(id, data, i);
      }
      AllFit(frames);
    }
  }

  lemma {:induction false} AllFit(frames: seq<Frame>)
    ensures EncodeFrames(frames).Some? <==> forall i :: 0 <= i < |frames| ==> EncodeFrame(frames[i]).Some?
  {
    hide EncodeFrame;
    if frames != [] {
      AllFit(frames[1..]);
      assert forall i :: 0 < i < |frames| ==> frames[i] == frames[1..][i - 1];
      assert forall i :: 0 <= i < |frames[1..]| ==> frames[1..][i] == frames[i + 1];
    }
  }

  /** A message that cannot be encoded leaves nothing behind in the buffer. */
  lemma NothingHalfWritten(id: u64, data: Bytes)
    requires EncodeFrames(MessageFrames(id, data)).None?
    ensures EncodedUpTo(MessageFrames(id, data)) == []
  {
    hide EncodeFrame;
    EncodeFailsExactly(id, data);
    assert [Complete(data)][1..] == [];
  }

  /** Up to 8 MiB - 4 bytes always fit; from there up to 8 MiB, bytes of three digits do not. */
  lemma CompleteLimitTight(id: u64, data: Bytes)
    ensures |data| <= CHUNK_SIZE - 4 ==> EncodeFrames(MessageFrames(id, data)).Some?
    ensures CHUNK_SIZE - 4 < |data| <= CHUNK_SIZE && (forall i :: 0 <= i < |data| ==> data[i] >= 100) ==>
      EncodeFrames(MessageFrames(id, data)).None?
  {
    EncodeFailsExactly(id, data);
    DigitCountBounds(data);
  }

  // ----- Draining a buffer -----

  predicate Ready(need: Option<nat>, buf: Bytes) {
    !TakeFrame(need, buf).0.NotYet?
  }

  datatype Drained = Drained(items: seq<Bytes>, decoder: Decoder, rest: Bytes, failed: bool)

  function Prepend(items: seq<Bytes>, d: Drained): (result: Drained) {
    d.(items := items + d.items)
  }

  function ItemsOf(o: Outcome): (result: seq<Bytes>) {
    if o.Item? then [o.data] else []
  }

  /** Decode until no whole frame remains (nothing expires meanwhile). */
  function Drain(d: Decoder, buf: Bytes): (r: Drained)
    decreases |buf|, if d.need.Some? then 1 else 0
  {
    var c := DecodeCall(d, buf, {});
    if !Ready(d.need, buf) then Drained([], c.decoder, c.rest, false)
    else if c.outcome.Failed? then Drained([], c.decoder, c.rest, true)
    else
      CallShrinks(d, buf);
      Prepend(ItemsOf(c.outcome), Drain(c.decoder, c.rest))
  }

  /** More bytes behind a whole frame do not change what the call does with it; an incomplete
      frame is decoded later as if its prefix had never been consumed. */
  lemma TakeFrameAppend(need: Option<nat>, a: Bytes, b: Bytes)
    ensures var (taken, need', rest) := TakeFrame(need, a);
      if taken.NotYet? then TakeFrame(need', rest + b) == TakeFrame(need, a + b)
      else TakeFrame(need, a + b) == (taken, need', rest + b)
  {
    hide ReadBe32;
    if need.None? && |a| >= 4 {
      assert (a + b)[..4] == a[..4] && (a + b)[4..] == a[4..] + b;
      if ReadBe32(a[..4]) <= MAX_FRAME_LENGTH {
        TakeBodyAppend(ReadBe32(a[..4]), a[4..], b);
      }
    } else if need.Some? {
      TakeBodyAppend(need.value, a, b);
    }
  }

  lemma TakeBodyAppend(need: nat, a: Bytes, b: Bytes)
    ensures |a| >= need ==> TakeBody(need, a + b) == (Got(a[..need]), None, a[need..] + b)
  {
    if |a| >= need {
      assert (a + b)[..need] == a[..need] && (a + b)[need..] == a[need..] + b;
    }
  }

  lemma DecodeCallAppend(d: Decoder, a: Bytes, b: Bytes)
    ensures var c := DecodeCall(d, a, {});
      if Ready(d.need, a) then Ready(d.need, a + b) && DecodeCall(d, a + b, {}) == c.(rest := c.rest + b)
      else (&& DecodeCall(c.decoder, c.rest + b, {}) == DecodeCall(d, a + b, {})
            && Ready(c.decoder.need, c.rest + b) == Ready(d.need, a + b))
  {
    hide TakeFrame, Parse, Accept;
    TakeFrameAppend(d.need, a, b);
    assert d.partials - {} == d.partials;
  }

  /** Decoding a stream in two pieces is decoding it at once. */
  lemma {:induction false} DrainAppend(d: Decoder, a: Bytes, b: Bytes)
    ensures var r := Drain(d, a);
      if r.failed then Drain(d, a + b) == r.(rest := r.rest + b)
      else Drain(d, a + b) == Prepend(r.items, Drain(r.decoder, r.rest + b))
    decreases |a|, if d.need.Some? then 1 else 0
  {
    hide DecodeCall, Ready, Drain;
    var c := DecodeCall(d, a, {});
    DecodeCallAppend(d, a, b);
    DrainUnfold(d, a);
    DrainUnfold(d, a + b);
    if !Ready(d.need, a) {
      DrainUnfold(c.decoder, c.rest + b);
      assert Drain(c.decoder, c.rest + b) == Prepend([], Drain(c.decoder, c.rest + b));
    } else if !c.outcome.Failed? {
      CallShrinks(d, a);
      DrainAppend(c.decoder, c.rest, b);
      var r, more := Drain(c.decoder, c.rest), Drain(c.decoder, c.rest + b);
      if !r.failed {
        var later := Drain(r.decoder, r.rest + b);
        assert ItemsOf(c.outcome) + (r.items + later.items) == (ItemsOf(c.outcome) + r.items) + later.items;
      }
    }
  }

  lemma CallShrinks(d: Decoder, buf: Bytes)
    requires Ready(d.need, buf) && !DecodeCall(d, buf, {}).outcome.Failed?
    ensures var c := DecodeCall(d, buf, {});
      c.decoder.need.None? && |c.rest| <= |buf| && (d.need.None? ==> |c.rest| < |buf|)
  {
    hide Parse, Accept, ReadBe32;
  }

  lemma DrainUnfold(d: Decoder, buf: Bytes)
    ensures var c := DecodeCall(d, buf, {});
      Drain(d, buf) ==
        if !Ready(d.need, buf) then Drained([], c.decoder, c.rest, false)
        else if c.outcome.Failed? then Drained([], c.decoder, c.rest, true)
        else Prepend(ItemsOf(c.outcome), Drain(c.decoder, c.rest))
  {
  }

  /** The pieces of a stream, fed one at a time; after a failure the stream is over. */
  function Feed(s: Drained, pieces: seq<Bytes>): (r: Drained)
    decreases |pieces|
  {
    if pieces == [] || s.failed then s
    else Feed(Prepend(s.items, Drain(s.decoder, s.rest + pieces[0])), pieces[1..])
  }

  lemma {:induction false} FeedIsDrain(s: Drained, pieces: seq<Bytes>, d: Decoder, seen: Bytes)
    requires s == Drain(d, seen)
    ensures var whole := Drain(d, seen + Concat(pieces));
      var r := Feed(s, pieces);
      && r.items == whole.items && r.failed == whole.failed
      && (!r.failed ==> r == whole)
    decreases |pieces|
  {
    hide DecodeCall, Ready;
    if pieces == [] {
      assert seen + Concat(pieces) == seen;
    } else if s.failed {
      DrainAppend(d, seen, Concat(pieces));
    } else {
      DrainAppend(d, seen, pieces[0]);
      assert seen + Concat(pieces) == (seen + pieces[0]) + Concat(pieces[1..]);
      FeedIsDrain(Prepend(s.items, Drain(s.decoder, s.rest + pieces[0])), pieces[1..], d, seen + pieces[0]);
    }
  }

  // ----- Whole frames -----

  /** The table's view of a list of frames; stops at the first failure. */
  function AcceptAll(partials: map<u64, Partial>, frames: seq<Frame>)
    : (r: (seq<Bytes>, map<u64, Partial>, bool))
    decreases |frames|
  {
    if frames == [] then ([], partials, false)
    else
      var (outcome, partials') := Accept(partials, frames[0]);
      if outcome.Failed? then ([], partials', true)
      else
        var (items, partials'', failed) := AcceptAll(partials', frames[1..]);
        (ItemsOf(outcome) + items, partials'', failed)
  }

  lemma TakeEncoded(f: Frame, rest: Bytes)
    requires EncodeFrame(f).Some?
    ensures TakeFrame(None, EncodeFrame(f).value + rest) == (Got(Print(f)), None, rest)
  {
    hide Print;
    var text := Print(f);
    var buf := EncodeFrame(f).value + rest;
    assert buf[..4] == Be32(|text|) && buf[4..] == text + rest;
    ReadOfBe32(|text|);
    hide Be32, ReadBe32;
    assert (text + rest)[..|text|] == text && (text + rest)[|text|..] == rest;
  }

  lemma DrainFrame(partials: map<u64, Partial>, f: Frame, rest: Bytes)
    requires EncodeFrame(f).Some?
    ensures var buf := EncodeFrame(f).value + rest;
      var (outcome, partials') := Accept(partials, f);
      Drain(Decoder(None, partials), buf) ==
        if outcome.Failed? then Drained([], Decoder(None, partials'), rest, true)
        else Prepend(ItemsOf(outcome), Drain(Decoder(None, partials'), rest))
  {
    hide Print, Parse, EncodeFrame, TakeFrame, Accept;
    TakeEncoded(f, rest);
    ParseOfPrint(f);
    assert partials - {} == partials;
    DrainUnfold(Decoder(None, partials), EncodeFrame(f).value + rest);
  }

  // ----- Bytes that nobody encoded -----

  /** A length prefix over the limit fails the call and stays in the buffer, so that every later
      call fails likewise; the table only loses what has expired. */
  lemma TooLongFails(partials: map<u64, Partial>, n: u32, rest: Bytes, expired: set<u64>)
    requires n > MAX_FRAME_LENGTH
    ensures DecodeCall(Decoder(None, partials), Be32(n) + rest, expired) ==
      Called(Failed, Decoder(None, partials - expired), Be32(n) + rest)
  {
    hide Parse, Accept;
    var buf := Be32(n) + rest;
    assert buf[..4] == Be32(n) && buf[4..] == rest;
    ReadOfBe32(n);
    hide Be32, ReadBe32;
  }

  /** A whole frame with any text: the text of a frame is taken as that frame, and any other
      text fails the call, is consumed, and leaves the table as it is but for what has expired. */
  lemma AnyText(partials: map<u64, Partial>, text: Bytes, rest: Bytes, expired: set<u64>)
    requires |text| <= MAX_FRAME_LENGTH
    ensures var c := DecodeCall(Decoder(None, partials), Be32(|text|) + text + rest, expired);
      && (forall f :: text == Print(f) ==>
            var (outcome, partials') := Accept(partials - expired, f);
            c == Called(outcome, Decoder(None, partials'), rest))
      && ((forall f :: text != Print(f)) ==> c == Called(Failed, Decoder(None, partials - expired), rest))
  {
    hide Parse, Accept, Print;
    var buf := Be32(|text|) + text + rest;
    assert buf[..4] == Be32(|text|) && buf[4..] == text + rest;
    ReadOfBe32(|text|);
    assert (text + rest)[..|text|] == text && (text + rest)[|text|..] == rest;
    hide Be32, ReadBe32;
    forall f ensures Parse(text) == Some(f) <==> text == Print(f) { ParseExactly(text, f); }
  }

  /** A fragment is stored exactly when its text is the Base64 of some bytes, as those bytes;
      any other text fails the call and leaves the table alone. */
  lemma AnyFragment(partials: map<u64, Partial>, f: Fragment)
    ensures forall data :: f.data == Base64.Encode(data) ==> Accept(partials, Piece(f)) == Store(partials, f, data)
    ensures (forall data :: f.data != Base64.Encode(data)) ==> Accept(partials, Piece(f)) == (Failed, partials)
  {
    hide Base64.Encode, Base64.Decode, Store;
    if Base64.Decode(f.data).Some? { Base64.DecodeOnlyEncodings(f.data); }
    forall data | f.data == Base64.Encode(data)
      ensures Base64.Decode(f.data) == Some(data)
    {
      Base64.DecodeOfEncode(data);
    }
  }

  /** On the wire, a list of frames does what the table does with them one after the other. */
  lemma {:induction false} DrainFrames(partials: map<u64, Partial>, frames: seq<Frame>, rest: Bytes)
    requires EncodeFrames(frames).Some? && !AcceptAll(partials, frames).2
    ensures var (items, partials', _) := AcceptAll(partials, frames);
      Drain(Decoder(None, partials), EncodeFrames(frames).value + rest) ==
        Prepend(items, Drain(Decoder(None, partials'), rest))
    decreases |frames|
  {
    hide Accept, EncodeFrame, DecodeCall, Ready, Drain;
    if frames == [] {
      assert EncodeFrames(frames).value + rest == rest;
      assert Prepend([], Drain(Decoder(None, partials), rest)) == Drain(Decoder(None, partials), rest);
    } else {
      var rest' := EncodeFrames(frames[1..]).value + rest;
      assert EncodeFrames(frames).value + rest == EncodeFrame(frames[0]).value + rest';
      DrainFrame(partials, frames[0], rest');
      var (outcome, next) := Accept(partials, frames[0]);
      DrainFrames(next, frames[1..], rest);
      var (items, held, _) := AcceptAll(next, frames[1..]);
      var more := Drain(Decoder(None, held), rest).items;
      assert ItemsOf(outcome) + (items + more) == (ItemsOf(outcome) + items) + more;
    }
  }

  lemma {:induction false} AcceptAllAppend(partials: map<u64, Partial>, a: seq<Frame>, b: seq<Frame>)
    requires !AcceptAll(partials, a).2
    ensures var (items, partials', _) := AcceptAll(partials, a);
      var (items', partials'', failed) := AcceptAll(partials', b);
      AcceptAll(partials, a + b) == (items + items', partials'', failed)
    decreases |a|
  {
    hide Accept;
    if a == [] {
      assert a + b == b;
      assert [] + AcceptAll(partials, b).0 == AcceptAll(partials, b).0;
    } else {
      assert (a + b)[1..] == a[1..] + b;
      var (outcome, next) := Accept(partials, a[0]);
      AcceptAllAppend(next, a[1..], b);
      var (items, held, _) := AcceptAll(next, a[1..]);
      var more := AcceptAll(held, b).0;
      assert ItemsOf(outcome) + (items + more) == (ItemsOf(outcome) + items) + more;
    }
  }

  lemma AcceptOne(partials: map<u64, Partial>, f: Frame)
    ensures var (outcome, partials') := Accept(partials, f);
      AcceptAll(partials, [f]) == (ItemsOf(outcome), partials', outcome.Failed?)
  {
    hide Accept;
    assert [f][1..] == [];
    var (outcome, partials') := Accept(partials, f);
    assert ItemsOf(outcome) + [] == ItemsOf(outcome);
  }

  // ----- A message through its frames -----

  /** The first `i` chunks of a message, held under the total its fragments announce. */
  function FirstChunks(data: Bytes, i: nat): (p: Partial)
    requires i <= ChunkCount(|data|) && i <= U32
  {
    Partial(ChunkCount(|data|) % U32, map k: u32 | 0 <= k < i :: Chunk(data, k))
  }

  lemma FirstChunksSize(data: Bytes, i: nat)
    requires i <= ChunkCount(|data|) && i <= U32
    ensures FirstChunks(data, i).parts.Keys == Below(i)
    ensures |FirstChunks(data, i).parts| == i
  {
    hide Chunk, ChunkCount;
    assert FirstChunks(data, i).parts.Keys == Below(i);
  }

  /** The chunk that does not complete the count is held; the one that does yields the
      chunks up to it. */
  lemma AcceptChunk(partials: map<u64, Partial>, id: u64, data: Bytes, i: nat)
    requires i < ChunkCount(|data|) && i < ChunkCount(|data|) % U32
    requires id !in partials
    ensures var held := if i == 0 then partials else partials[id := FirstChunks(data, i)];
      var end := i + 1 == ChunkCount(|data|) % U32;
      Accept(held, Piece(FragmentOf(id, data, i))) ==
        if end then (Item(data[..ChunkEnd(|data|, i)]), partials)
        else (Quiet, partials[id := FirstChunks(data, i + 1)])
  {
    hide Chunk, ChunkCount, ChunkEnd, Base64.Encode, Base64.Decode, Below, Store, Accept, Reassembled, FirstChunks;
    var held := if i == 0 then partials else partials[id := FirstChunks(data, i)];
    var f := FragmentOf(id, data, i);
    Reassembly.AcceptGenuine(held, id, data, i);
    Reassembly.StoreOutcome(held, f, Chunk(data, i));
    ExtendFirstChunks(partials, id, data, i);
    FirstChunksSize(data, i + 1);
    if i + 1 == ChunkCount(|data|) % U32 {
      JoinFirstChunks(data, i);
      assert held - {id} == partials;
    } else {
      assert held[id := FirstChunks(data, i + 1)] == partials[id := FirstChunks(data, i + 1)];
    }
  }

  lemma ExtendFirstChunks(partials: map<u64, Partial>, id: u64, data: Bytes, i: nat)
    requires i < ChunkCount(|data|) && i < U32 && id !in partials
    ensures FirstChunks(data, i + 1).total == ChunkCount(|data|) % U32
    ensures var held := if i == 0 then partials else partials[id := FirstChunks(data, i)];
      Reassembly.Extended(held, FragmentOf(id, data, i), Chunk(data, i)) == FirstChunks(data, i + 1)
  {
    hide Chunk, ChunkCount, Base64.Encode;
    assert i % U32 == i;
    var held := if i == 0 then partials else partials[id := FirstChunks(data, i)];
    var p := Reassembly.Extended(held, FragmentOf(id, data, i), Chunk(data, i));
    assert p.parts == FirstChunks(data, i + 1).parts;
  }

  lemma JoinFirstChunks(data: Bytes, i: nat)
    requires i < ChunkCount(|data|) && i + 1 == ChunkCount(|data|) % U32
    ensures Reassembled(FirstChunks(data, i + 1)) == Some(data[..ChunkEnd(|data|, i)])
  {
    hide Chunk, Joined;
    var p := FirstChunks(data, i + 1);
    FirstChunksSize(data, i + 1);
    Reassembly.JoinedChunks(p.parts, data, i + 1);
  }

  lemma {:induction false} AcceptChunks(partials: map<u64, Partial>, id: u64, data: Bytes, i: nat)
    requires id !in partials && i <= ChunkCount(|data|)
    requires i < ChunkCount(|data|) % U32
    ensures AcceptAll(partials, Pieces(Fragments(id, data))[..i]) ==
      ([], if i == 0 then partials else partials[id := FirstChunks(data, i)], false)
  {
    hide Accept, FirstChunks, FragmentOf, ChunkCount, Chunk;
    var frames := Pieces(Fragments(id, data));
    if i > 0 {
      AcceptChunks(partials, id, data, i - 1);
      AcceptChunk(partials, id, data, i - 1);
      AcceptAllAppend(partials, frames[..i - 1], [frames[i - 1]]);
      assert frames[..i] == frames[..i - 1] + [frames[i - 1]];
      assert frames[i - 1] == Piece(FragmentOf(id, data, i - 1));
      AcceptOne(AcceptAll(partials, frames[..i - 1]).1, frames[i - 1]);
    }
  }

  /** The fragments up to the announced total yield the chunks up to there, once. */
  lemma AcceptUpToTotal(partials: map<u64, Partial>, id: u64, data: Bytes, t: nat)
    requires id !in partials && t == ChunkCount(|data|) % U32 > 0 && t <= ChunkCount(|data|)
    ensures AcceptAll(partials, Pieces(Fragments(id, data))[..t]) ==
      ([data[..ChunkEnd(|data|, t - 1)]], partials, false)
  {
    hide Accept, FirstChunks, FragmentOf, ChunkCount, Chunk, ChunkEnd;
    var frames := Pieces(Fragments(id, data));
    AcceptChunks(partials, id, data, t - 1);
    AcceptChunk(partials, id, data, t - 1);
    AcceptAllAppend(partials, frames[..t - 1], [frames[t - 1]]);
    assert frames[..t] == frames[..t - 1] + [frames[t - 1]];
    assert frames[t - 1] == Piece(FragmentOf(id, data, t - 1));
    AcceptOne(AcceptAll(partials, frames[..t - 1]).1, frames[t - 1]);
    var prefix := data[..ChunkEnd(|data|, t - 1)];
    assert [] + [prefix] == [prefix];
  }

  /** A message of fewer than 2^32 chunks comes out of its frames whole and once, and leaves
      the table as it was. */
  lemma AcceptMessage(partials: map<u64, Partial>, id: u64, data: Bytes)
    requires id !in partials && ChunkCount(|data|) < U32
    ensures AcceptAll(partials, MessageFrames(id, data)) == ([data], partials, false)
  {
    if |data| <= CHUNK_SIZE {
      AcceptOne(partials, Complete(data));
    } else {
      var t := ChunkCount(|data|);
      assert t % U32 == t;
      AcceptUpToTotal(partials, id, data, t);
      assert data[..|data|] == data;
      assert Pieces(Fragments(id, data))[..t] == Pieces(Fragments(id, data));
    }
  }

  // ----- The round trip -----

  predicate Countable(ms: seq<Bytes>) {
    forall k :: 0 <= k < |ms| ==> ChunkCount(|ms[k]|) < U32
  }

  /** The bytes of a list of messages, encoded one after the other from message id `id`. */
  function Stream(id: u64, ms: seq<Bytes>): (r: Option<Bytes>)
    decreases |ms|
  {
    if ms == [] then Some([])
    else
      var id' := if |ms[0]| <= CHUNK_SIZE then id else (id + 1) % U64;
      match (EncodeFrames(MessageFrames(id, ms[0])), Stream(id', ms[1..]))
      case (Some(head), Some(tail)) => Some(head + tail)
      case _ => None
  }

  lemma {:induction false} DrainStream(id: u64, ms: seq<Bytes>)
    requires Stream(id, ms).Some? && Countable(ms)
    ensures Drain(Decoder(None, map[]), Stream(id, ms).value) == Drained(ms, Decoder(None, map[]), [], false)
    decreases |ms|
  {
    hide Accept, EncodeFrames, MessageFrames, AcceptAll;
    if ms != [] {
      hide DecodeCall, Ready;
      var id' := if |ms[0]| <= CHUNK_SIZE then id else (id + 1) % U64;
      var rest := Stream(id', ms[1..]).value;
      AcceptMessage(map[], id, ms[0]);
      DrainFrames(map[], MessageFrames(id, ms[0]), rest);
      DrainStream(id', ms[1..]);
      assert [ms[0]] + ms[1..] == ms;
    }
  }

  /** Encode any messages, cut the byte stream anywhere, drain after every piece: the same
      messages come out in order, nothing is left over and nothing fails. */
  lemma RoundTrip(id: u64, ms: seq<Bytes>, pieces: seq<Bytes>)
    requires Countable(ms) && Stream(id, ms) == Some(Concat(pieces))
    ensures var start := Drained([], Decoder(None, map[]), [], false);
      Feed(start, pieces) == Drained(ms, Decoder(None, map[]), [], false)
  {
    hide Feed, Stream;
    var start := Drained([], Decoder(None, map[]), [], false);
    assert start == Drain(Decoder(None, map[]), []);
    FeedIsDrain(start, pieces, Decoder(None, map[]), []);
    DrainStream(id, ms);
    assert [] + Concat(pieces) == Concat(pieces);
  }

  /** One call takes at most one frame: for every message that travels in fragments it leaves
      the whole second frame in the buffer, and it answers "nothing yet" all the same, unless
      the total wraps to 1. The caller has to go on until no whole frame remains, not until the
      first such answer. */
  lemma QuietWithFramesBuffered(id: u64, data: Bytes)
    requires CHUNK_SIZE < |data|
    ensures EncodeFrames(MessageFrames(id, data)).Some?
    ensures var c := DecodeCall(Decoder(None, map[]), EncodeFrames(MessageFrames(id, data)).value, {});
      && (c.outcome == Quiet <==> ChunkCount(|data|) % U32 != 1)
      && c.rest != [] && Ready(c.decoder.need, c.rest)
  {
    hide Print, Parse, EncodeFrame, TakeFrame, Accept, FragmentOf, FirstChunks;
    EncodeFailsExactly(id, data);
    var frames := MessageFrames(id, data);
    var rest := EncodeFrames(frames[1..]).value;
    TakeEncoded(frames[0], rest);
    ParseOfPrint(frames[0]);
    if ChunkCount(|data|) % U32 == 0 {
      HeldForever(map[], id, data, 0);
    } else {
      AcceptChunk(map[], id, data, 0);
    }
    var empty: map<u64, Partial> := map[];
    assert empty - {} == empty;
    var rest' := EncodeFrames(frames[1..][1..]).value;
    TakeEncoded(frames[1], rest');
    assert rest == EncodeFrame(frames[1]).value + rest';
    EncodedNotEmpty(frames[1]);
  }

  lemma EncodedNotEmpty(f: Frame)
    requires EncodeFrame(f).Some?
    ensures EncodeFrame(f).value != []
  {
    hide Print;
  }

  /** The bound on the number of chunks is exact: at 2^32 chunks or more, the announced total
      wraps around and the message is cut short. */
  lemma RoundTripExactly(id: u64, data: Bytes)
    requires EncodeFrames(MessageFrames(id, data)).Some?
    ensures Drain(Decoder(None, map[]), EncodeFrames(MessageFrames(id, data)).value).items == [data]
        <==> ChunkCount(|data|) < U32
  {
    hide EncodeFrames, AcceptAll, Accept, DecodeCall, Fragments, Pieces;
    var frames := MessageFrames(id, data);
    var bytes := EncodeFrames(frames).value;
    var t := ChunkCount(|data|) % U32;
    if ChunkCount(|data|) < U32 {
      AcceptMessage(map[], id, data);
      DrainFrames(map[], frames, []);
      DrainEmpty(map[]);
      assert bytes + [] == bytes;
    } else {
      WrappedTotal(id, data);
    }
  }

  lemma DrainEmpty(partials: map<u64, Partial>)
    ensures Drain(Decoder(None, partials), []).items == [] && !Drain(Decoder(None, partials), []).failed
  {
  }

  /** What comes out when the total wraps: nothing at a multiple of 2^32 chunks; otherwise the
      chunks up to the wrapped total, and then an error. */
  predicate CutShort(r: Drained, data: Bytes) {
    var t := ChunkCount(|data|) % U32;
    if t == 0 then r.items == [] && !r.failed
    else t * CHUNK_SIZE < |data| && r.items == [data[..t * CHUNK_SIZE]] && r.failed
  }

  lemma WrappedTotal(id: u64, data: Bytes)
    requires ChunkCount(|data|) >= U32
    requires EncodeFrames(MessageFrames(id, data)).Some?
    ensures CutShort(Drain(Decoder(None, map[]), EncodeFrames(MessageFrames(id, data)).value), data)
  {
    hide AcceptAll, Accept, DecodeCall, EncodeFrame, EncodeFrames, Drain;
    var frames := Pieces(Fragments(id, data));
    var t := ChunkCount(|data|) % U32;
    if t == 0 {
      NeverComplete(map[], id, data, 0);
      assert frames[0..] == frames;
      DrainFrames(map[], frames, []);
      DrainEmpty(AcceptAll(map[], frames).1);
      assert EncodeFrames(frames).value + [] == EncodeFrames(frames).value;
    } else {
      AcceptUpToTotal(map[], id, data, t);
      EncodeFramesSplit(frames, t);
      DrainFrames(map[], frames[..t], EncodeFrames(frames[t..]).value);
      LateFragmentsFail(id, data, t);
      assert ChunkEnd(|data|, t - 1) == t * CHUNK_SIZE < |data|;
    }
  }

  /** The `i` indices from `t` on, cut to 32 bits. */
  function Window(t: nat, i: nat): (s: set<int>)
    ensures forall x :: x in s ==> 0 <= x < U32
  {
    if i == 0 then {} else Window(t, i - 1) + {(t + i - 1) % U32}
  }

  lemma {:induction false} WindowFresh(t: nat, i: nat, j: nat)
    requires i <= j < i + U32 && j < U32
    ensures (t + j) % U32 !in Window(t, i)
    decreases i
  {
    if i > 0 {
      WindowFresh(t, i - 1, j);
      ApartDiffer(t + i - 1, t + j);
    }
  }

  lemma ApartDiffer(a: nat, b: nat)
    requires a < b < a + U32
    ensures a % U32 != b % U32
  {
  }

  lemma {:induction false} WindowSize(t: nat, i: nat)
    requires i <= U32
    ensures |Window(t, i)| == i
  {
    if i > 0 {
      WindowSize(t, i - 1);
      WindowFresh(t, i - 1, i - 1);
    }
  }

  /** After `i` fragments behind the first `t`. */
  predicate HoldsLate(partials: map<u64, Partial>, id: u64, t: nat, i: nat) {
    if i == 0 then id !in partials
    else id in partials && partials[id].total == t && partials[id].parts.Keys == Window(t, i)
  }

  /** As long as there are fewer than `t` of them they are held; the `t`-th makes the count
      right, but index `t` is out of range. */
  lemma LateFragment(partials: map<u64, Partial>, id: u64, data: Bytes, t: nat, i: nat)
    requires 0 < t == ChunkCount(|data|) % U32 && i < t && t + i < ChunkCount(|data|)
    requires HoldsLate(partials, id, t, i)
    ensures var (outcome, partials') := Accept(partials, Piece(FragmentOf(id, data, t + i)));
      if i + 1 < t then outcome == Quiet && HoldsLate(partials', id, t, i + 1) else outcome == Failed
  {
    hide Chunk, ChunkCount, FragmentOf, Store, Accept, Window, Reassembly.Extended;
    Reassembly.AcceptGenuine(partials, id, data, t + i);
    var f, chunk := FragmentOf(id, data, t + i), Chunk(data, t + i);
    Reassembly.StoreOutcome(partials, f, chunk);
    LateExtended(partials, id, data, t, i);
    WindowSize(t, i + 1);
    var p := Reassembly.Extended(partials, f, chunk);
    assert |p.parts| == |p.parts.Keys| == i + 1;
    InWindow(t, i + 1);
    assert t in p.parts;
  }

  lemma LateExtended(partials: map<u64, Partial>, id: u64, data: Bytes, t: nat, i: nat)
    requires 0 < t == ChunkCount(|data|) % U32 && i < t && t + i < ChunkCount(|data|)
    requires HoldsLate(partials, id, t, i)
    ensures var f := FragmentOf(id, data, t + i);
      var p := Reassembly.Extended(partials, f, Chunk(data, t + i));
      f.messageId == id && p.total == t && p.parts.Keys == Window(t, i + 1)
  {
    hide Chunk, ChunkCount, Base64.Encode;
    if i == 0 {
      assert Window(t, 0) == {};
    }
  }

  lemma {:induction false} InWindow(t: nat, i: nat)
    requires 0 < i && t < U32
    ensures t in Window(t, i)
  {
    if i > 1 {
      InWindow(t, i - 1);
    } else {
      assert Window(t, 0) == {};
    }
  }

  lemma {:induction false} LateFragmentsHeld(id: u64, data: Bytes, t: nat, i: nat)
    requires 0 < t == ChunkCount(|data|) % U32 && i < t && 2 * t <= ChunkCount(|data|)
    ensures var r := AcceptAll(map[], Pieces(Fragments(id, data))[t..t + i]);
      r.0 == [] && !r.2 && HoldsLate(r.1, id, t, i)
  {
    hide AcceptAll, Accept, HoldsLate, FragmentOf;
    var frames := Pieces(Fragments(id, data));
    if i == 0 {
      assert frames[t..t] == [];
      NoneHeld(id, t);
    } else {
      LateFragmentsHeld(id, data, t, i - 1);
      var f := frames[t + i - 1];
      assert f == Piece(FragmentOf(id, data, t + (i - 1)));
      assert frames[t..t + i] == frames[t..t + i - 1] + [f];
      AcceptAllAppend(map[], frames[t..t + i - 1], [f]);
      var held := AcceptAll(map[], frames[t..t + i - 1]).1;
      LateFragment(held, id, data, t, i - 1);
      AcceptOne(held, f);
    }
  }

  lemma NoneHeld(id: u64, t: nat)
    ensures AcceptAll(map[], []) == ([], map[], false) && HoldsLate(map[], id, t, 0)
  {
  }

  /** What follows the first `t` fragments yields nothing and ends in an error. */
  lemma LateFragmentsFail(id: u64, data: Bytes, t: nat)
    requires 0 < t == ChunkCount(|data|) % U32 && ChunkCount(|data|) >= U32
    requires EncodeFrames(Pieces(Fragments(id, data))).Some?
    ensures EncodeFrames(Pieces(Fragments(id, data))[t..]).Some?
    ensures var r := Drain(Decoder(None, map[]), EncodeFrames(Pieces(Fragments(id, data))[t..]).value);
      r.items == [] && r.failed
  {
    hide AcceptAll, Accept, EncodeFrame, Drain, HoldsLate, FragmentOf, ChunkCount, EncodeFrames, Fragments, Pieces;
    var frames := Pieces(Fragments(id, data));
    Twice(ChunkCount(|data|), t);
    EncodeFramesSplit(frames, t);
    var late := frames[t..];
    assert late[..t - 1] == frames[t..t + (t - 1)];
    LateFragmentsHeld(id, data, t, t - 1);
    var held := AcceptAll(map[], late[..t - 1]).1;
    assert late[t - 1] == frames[t + (t - 1)];
    FragmentAt(id, data, t + (t - 1));
    LateFragment(held, id, data, t, t - 1);
    DrainToFailure(map[], late, t - 1);
  }

  lemma FragmentAt(id: u64, data: Bytes, i: nat)
    requires i < ChunkCount(|data|)
    ensures Pieces(Fragments(id, data))[i] == Piece(FragmentOf(id, data, i))
  {
    hide ChunkCount, FragmentOf;
  }

  /** Frames that are taken up to the `k`-th, which fails. */
  lemma DrainToFailure(partials: map<u64, Partial>, frames: seq<Frame>, k: nat)
    requires EncodeFrames(frames).Some? && k < |frames|
    requires var r := AcceptAll(partials, frames[..k]); !r.2 && Accept(r.1, frames[k]).0.Failed?
    ensures var r := Drain(Decoder(None, partials), EncodeFrames(frames).value);
      r.items == AcceptAll(partials, frames[..k]).0 && r.failed
  {
    hide AcceptAll, Accept, DecodeCall, EncodeFrame, Drain;
    EncodeFramesSplit(frames, k);
    var f, rest := frames[k], frames[k..][1..];
    var more := EncodeFrames(frames[k..]).value;
    assert more == EncodeFrame(f).value + EncodeFrames(rest).value;
    hide EncodeFrames;
    DrainFrames(partials, frames[..k], more);
    DrainFrame(AcceptAll(partials, frames[..k]).1, f, EncodeFrames(rest).value);
    var items := AcceptAll(partials, frames[..k]).0;
    assert items + [] == items;
  }

  lemma Twice(n: nat, t: nat)
    requires t == n % U32 && n >= U32
    ensures 2 * t <= n
  {
  }

  lemma {:induction false} EncodeFramesSplit(frames: seq<Frame>, k: nat)
    requires k <= |frames| && EncodeFrames(frames).Some?
    ensures EncodeFrames(frames[..k]).Some? && EncodeFrames(frames[k..]).Some?
    ensures EncodeFrames(frames).value == EncodeFrames(frames[..k]).value + EncodeFrames(frames[k..]).value
  {
    hide EncodeFrame;
    if k == 0 {
      assert frames[0..] == frames;
    } else {
      EncodeFramesSplit(frames[1..], k - 1);
      assert frames[..k][1..] == frames[1..][..k - 1] && frames[1..][k - 1..] == frames[k..];
    }
  }

  /** With an announced total of 0 no count of fragments ever completes the message. */
  lemma {:induction false} NeverComplete(partials: map<u64, Partial>, id: u64, data: Bytes, i: nat)
    requires i <= ChunkCount(|data|) && ChunkCount(|data|) % U32 == 0
    requires id in partials ==> partials[id].total == 0
    ensures AcceptAll(partials, Pieces(Fragments(id, data))[i..]).0 == []
    ensures !AcceptAll(partials, Pieces(Fragments(id, data))[i..]).2
    decreases ChunkCount(|data|) - i
  {
    hide Accept, FragmentOf, ChunkCount, Chunk;
    var frames := Pieces(Fragments(id, data))[i..];
    if frames != [] {
      assert frames[0] == Piece(FragmentOf(id, data, i));
      assert frames[1..] == Pieces(Fragments(id, data))[i + 1..];
      HeldForever(partials, id, data, i);
      NeverComplete(Accept(partials, frames[0]).1, id, data, i + 1);
    }
  }

  lemma HeldForever(partials: map<u64, Partial>, id: u64, data: Bytes, i: nat)
    requires i < ChunkCount(|data|) && ChunkCount(|data|) % U32 == 0
    requires id in partials ==> partials[id].total == 0
    ensures var (outcome, partials') := Accept(partials, Piece(FragmentOf(id, data, i)));
      outcome == Quiet && id in partials' && partials'[id].total == 0
  {
    hide Chunk, ChunkCount, Base64.Encode, Store;
    Reassembly.AcceptGenuine(partials, id, data, i);
    var f := FragmentOf(id, data, i);
    Reassembly.StoreOutcome(partials, f, Chunk(data, i));
    assert f.index in Reassembly.Extended(partials, f, Chunk(data, i)).parts;
  }
}
