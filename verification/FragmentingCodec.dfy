/** The fragmenting codec: large messages are cut into chunks, each chunk travels as a
    length-prefixed JSON frame, and the decoder puts the chunks back together by
    message id and index. Clocks are not modelled: which partial messages have expired
    is an argument of every decode call. */
module FragmentingCodec {
  import opened Prelude
  import opened Frames
  import Base64

  const CHUNK_SIZE: nat := 8 * 1024 * 1024
  const MAX_FRAME_LENGTH: nat := 32 * 1024 * 1024
  const U32: nat := 0x1_0000_0000
  const U64: nat := 0x1_0000_0000_0000_0000

  // ----- Cutting a message into fragments -----

  function ChunkCount(n: nat): (c: nat) {
    (n + CHUNK_SIZE - 1) / CHUNK_SIZE
  }

  /** The end of the `i`-th chunk of `n` bytes. */
  function ChunkEnd(n: nat, i: nat): (e: nat)
    requires i < ChunkCount(n)
    ensures i * CHUNK_SIZE < e <= n && e <= (i + 1) * CHUNK_SIZE
    ensures e == n <==> i == ChunkCount(n) - 1
  {
    if (i + 1) * CHUNK_SIZE < n then (i + 1) * CHUNK_SIZE else n
  }

  function Chunk(data: Bytes, i: nat): (c: Bytes)
    requires i < ChunkCount(|data|)
    ensures 1 <= |c| <= CHUNK_SIZE
  {
    data[i * CHUNK_SIZE..ChunkEnd(|data|, i)]
  }

  /** Index and total are cut to 32 bits, as the casts in the source do. */
  function FragmentOf(id: u64, data: Bytes, i: nat): (f: Fragment)
    requires i < ChunkCount(|data|)
  {
    Base64.EncodeIsPlain(Chunk(data, i));
    Fragment(id, i % U32, ChunkCount(|data|) % U32, Base64.Encode(Chunk(data, i)))
  }

  function Fragments(id: u64, data: Bytes): (fs: seq<Fragment>)
    ensures |fs| == ChunkCount(|data|)
  {
    seq(ChunkCount(|data|), i requires 0 <= i < ChunkCount(|data|) => FragmentOf(id, data, i))
  }

  // ----- Length-prefixed frames -----

  function Be32(n: u32): (b: Bytes)
    ensures |b| == 4
  {
    [n / 0x100 / 0x100 / 0x100, n / 0x100 / 0x100 % 0x100, n / 0x100 % 0x100, n % 0x100]
  }

  function ReadBe32(b: Bytes): (n: u32)
    requires |b| == 4
  {
    var b0: int, b1: int, b2: int, b3: int := b[0], b[1], b[2], b[3];
    ((b0 * 0x100 + b1) * 0x100 + b2) * 0x100 + b3
  }

  lemma ReadOfBe32(n: u32)
    ensures ReadBe32(Be32(n)) == n
  {
    var m: int := n;
    assert m / 0x100 / 0x100 == m / 0x100 / 0x100 / 0x100 * 0x100 + m / 0x100 / 0x100 % 0x100;
    assert m / 0x100 == m / 0x100 / 0x100 * 0x100 + m / 0x100 % 0x100;
  }

  /** `None` when the frame is longer than the limit. */
  function EncodeFrame(f: Frame): (r: Option<Bytes>)
  {
    var text := Print(f);
    if |text| > MAX_FRAME_LENGTH then None else Some(Be32(|text|) + text)
  }

  function EncodeFrames(fs: seq<Frame>): (r: Option<Bytes>)
  {
    if fs == [] then Some([])
    else
      match (EncodeFrame(fs[0]), EncodeFrames(fs[1..]))
      case (Some(head), Some(tail)) => Some(head + tail)
      case _ => None
  }

  /** What is written before the first frame that cannot be. */
  function EncodedUpTo(fs: seq<Frame>): (r: Bytes)
    ensures EncodeFrames(fs).Some? ==> r == EncodeFrames(fs).value
  {
    if fs == [] then []
    else
      match EncodeFrame(fs[0])
      case Some(head) => head + EncodedUpTo(fs[1..])
      case None => []
  }

  /** The frames a message travels in. */
  function MessageFrames(id: u64, data: Bytes): (fs: seq<Frame>)
  {
    if |data| <= CHUNK_SIZE then [Complete(data)] else Pieces(Fragments(id, data))
  }

  function Pieces(fs: seq<Fragment>): (r: seq<Frame>)
    ensures |r| == |fs|
    ensures forall i :: 0 <= i < |fs| ==> r[i] == Piece(fs[i])
  {
    seq(|fs|, i requires 0 <= i < |fs| => Piece(fs[i]))
  }

  datatype Taken = NotYet | TooLong | Got(text: Bytes)

  /** The length-delimited decoder: `need` is the length of a frame whose prefix has been
      consumed but whose body has not arrived. */
  function TakeBody(need: nat, buf: Bytes): (r: (Taken, Option<nat>, Bytes))
  {
    if |buf| < need then (NotYet, Some(need), buf) else (Got(buf[..need]), None, buf[need..])
  }

  function TakeFrame(need: Option<nat>, buf: Bytes): (r: (Taken, Option<nat>, Bytes))
  {
    match need
    case Some(n) => TakeBody(n, buf)
    case None =>
      if |buf| < 4 then (NotYet, None, buf)
      else if ReadBe32(buf[..4]) > MAX_FRAME_LENGTH then (TooLong, None, buf)
      else TakeBody(ReadBe32(buf[..4]), buf[4..])
  }

  // ----- Reassembly -----

  datatype Partial = Partial(total: u32, parts: map<u32, Bytes>)

  /** The concatenation of parts 0 to n-1. */
  function Joined(parts: map<u32, Bytes>, n: nat): (r: Bytes)
    requires n <= U32 && forall i: u32 :: i < n ==> i in parts
  {
    if n == 0 then [] else Joined(parts, n - 1) + parts[n - 1]
  }

  /** Complete, and every index below the total present. */
  function Reassembled(p: Partial): (r: Option<Bytes>)
    ensures r.Some? <==> p.parts.Keys == Below(p.total)
  {
    if p.parts.Keys == Below(p.total) then
      assert forall i: u32 :: i < p.total ==> i in p.parts.Keys;
      Some(Joined(p.parts, p.total))
    else None
  }

  datatype Outcome = Item(data: Bytes) | Quiet | Failed

  /** Add the fragment to its partial message; when the number of distinct indices reaches
      the total announced first, take the message out and reassemble it. */
  function Store(partials: map<u64, Partial>, f: Fragment, data: Bytes): (r: (Outcome, map<u64, Partial>))
  {
    var known := if f.messageId in partials then partials[f.messageId] else Partial(f.total, map[]);
    var p := known.(parts := known.parts[f.index := data]);
    if |p.parts| == p.total then
      match Reassembled(p)
      case Some(whole) => (Item(whole), partials - {f.messageId})
      case None => (Failed, partials - {f.messageId})
    else
      (Quiet, partials[f.messageId := p])
  }

  function Accept(partials: map<u64, Partial>, frame: Frame): (r: (Outcome, map<u64, Partial>))
  {
    match frame
    case Complete(payload) => (Item(payload), partials)
    case Piece(f) =>
      match Base64.Decode(f.data)
      case Some(data) => Store(partials, f, data)
      case None => (Failed, partials)
  }

  // ----- The decoder as a function of its state -----

  datatype Decoder = Decoder(need: Option<nat>, partials: map<u64, Partial>)

  datatype Called = Called(outcome: Outcome, decoder: Decoder, rest: Bytes)

  function DecodeCall(d: Decoder, buf: Bytes, expired: set<u64>): (c: Called)
  {
    var live := d.partials - expired;
    var (taken, need, rest) := TakeFrame(d.need, buf);
    match taken
    case NotYet => Called(Quiet, Decoder(need, live), rest)
    case TooLong => Called(Failed, Decoder(need, live), rest)
    case Got(text) =>
      match Parse(text)
      case None => Called(Failed, Decoder(need, live), rest)
      case Some(frame) =>
        var (outcome, partials) := Accept(live, frame);
        Called(outcome, Decoder(need, partials), rest)
  }

  // ----- The codec itself, updated in place -----

  class ByteBuffer {
    var bytes: Bytes

    constructor ()
      ensures bytes == []
    {
      bytes := [];
    }
  }

  method Reassemble(p: Partial) returns (r: Option<Bytes>)
    ensures r == Reassembled(p)
  {
    if |p.parts| != p.total {
      return None;
    }
    var result: Bytes := [];
    var i := 0;
    while i < p.total
      invariant 0 <= i <= p.total
      invariant forall k: u32 :: k < i ==> k in p.parts
      invariant result == Joined(p.parts, i)
    {
      if i !in p.parts {
        assert i in Below(p.total);
        return None;
      }
      result := result + p.parts[i];
      i := i + 1;
    }
    SubsetOfSameSize(Below(p.total), p.parts.Keys);
    return Some(result);
  }

  class Codec {
    var nextMessageId: u64
    var partials: map<u64, Partial>
    var need: Option<nat>

    ghost function State(): (result: Decoder)
      reads this
    {
      Decoder(need, partials)
    }

    constructor ()
      ensures nextMessageId == 1 && State() == Decoder(None, map[])
    {
      nextMessageId, partials, need := 1, map[], None;
    }

    /** Drops the partial messages that have expired; `expired` is empty while the last
        cleanup is recent. */
    method CleanupExpired(expired: set<u64>)
      modifies this`partials
      ensures partials == old(partials) - expired
    {
      var left, kept: map<u64, Partial> := partials.Keys, map[];
      while left != {}
        invariant left <= partials.Keys && partials == old(partials)
        invariant forall id :: id in kept <==> id in partials && id !in left && id !in expired
        invariant forall id :: id in kept ==> kept[id] == partials[id]
      {
        var id :| id in left;
        if id !in expired {
          kept := kept[id := partials[id]];
        }
        left := left - {id};
      }
      partials := kept;
    }

    method FragmentMessage(data: Bytes) returns (fragments: seq<Fragment>)
      modifies this`nextMessageId
      ensures fragments == Fragments(old(nextMessageId), data)
      ensures nextMessageId == (old(nextMessageId) + 1) % U64
    {
      hide Base64.Encode;
      var id := nextMessageId;
      nextMessageId := (nextMessageId + 1) % U64;
      var total := ChunkCount(|data|);
      fragments := [];
      var i, start := 0, 0;
      while start < |data|
        invariant 0 <= i <= total && start == (if i < total then i * CHUNK_SIZE else |data|)
        invariant |fragments| == i && forall k :: 0 <= k < i ==> fragments[k] == FragmentOf(id, data, k)
        invariant nextMessageId == (old(nextMessageId) + 1) % U64
        decreases |data| - start
      {
        var end := if start + CHUNK_SIZE < |data| then start + CHUNK_SIZE else |data|;
        assert end == ChunkEnd(|data|, i);
        Base64.EncodeIsPlain(data[start..end]);
        fragments := fragments + [Fragment(id, i % U32, total % U32, Base64.Encode(data[start..end]))];
        i, start := i + 1, end;
      }
      assert fragments == Fragments(id, data);
    }

    method EncodeOne(frame: Frame, dst: ByteBuffer) returns (ok: bool)
      modifies dst
      ensures ok <==> EncodeFrame(frame).Some?
      ensures dst.bytes == if ok then old(dst.bytes) + EncodeFrame(frame).value else old(dst.bytes)
    {
      hide Print;
      var text := Print(frame);
      if |text| > MAX_FRAME_LENGTH {
        return false;
      }
      dst.bytes := dst.bytes + Be32(|text|) + text;
      assert EncodeFrame(frame) == Some(Be32(|text|) + text);
      return true;
    }

    method EncodeAll(fragments: seq<Fragment>, dst: ByteBuffer) returns (ok: bool)
      modifies dst
      ensures ok <==> EncodeFrames(Pieces(fragments)).Some?
      ensures dst.bytes == old(dst.bytes) + EncodedUpTo(Pieces(fragments))
    {
      hide EncodeFrame;
      ghost var frames := Pieces(fragments);
      ghost var start := dst.bytes;
      ghost var sent: Bytes := [];
      var i := 0;
      while i < |fragments|
        invariant 0 <= i <= |fragments|
        invariant dst.bytes == start + sent
        invariant EncodeFrames(frames).Some? <==> EncodeFrames(frames[i..]).Some?
        invariant EncodedUpTo(frames) == sent + EncodedUpTo(frames[i..])
      {
        assert frames[i..][0] == Piece(fragments[i]) && frames[i..][1..] == frames[i + 1..];
        ok := EncodeOne(Piece(fragments[i]), dst);
        if !ok {
          return;
        }
        sent := sent + EncodeFrame(Piece(fragments[i])).value;
        i := i + 1;
      }
      return true;
    }

    /** The frames before one that cannot be encoded stay in `dst`. */
    method Encode(data: Bytes, dst: ByteBuffer) returns (ok: bool)
      modifies this`nextMessageId, dst
      ensures ok <==> EncodeFrames(MessageFrames(old(nextMessageId), data)).Some?
      ensures dst.bytes == old(dst.bytes) + EncodedUpTo(MessageFrames(old(nextMessageId), data))
      ensures nextMessageId == if |data| <= CHUNK_SIZE then old(nextMessageId) else (old(nextMessageId) + 1) % U64
    {
      hide EncodeFrame, Fragments;
      if |data| <= CHUNK_SIZE {
        ok := EncodeOne(Complete(data), dst);
        assert EncodeFrames([Complete(data)][1..]) == Some([]) && EncodedUpTo([Complete(data)][1..]) == [];
      } else {
        var fragments := FragmentMessage(data);
        ok := EncodeAll(fragments, dst);
      }
    }

    /** `LengthDelimitedCodec::decode`: a frame is taken off the front of `src` when it is whole;
        its prefix is consumed as soon as it is there. */
    method DecodeFrame(src: ByteBuffer) returns (taken: Taken)
      modifies this`need, src
      ensures (taken, need, src.bytes) == TakeFrame(old(need), old(src.bytes))
    {
      var n;
      match need {
        case Some(k) => n := k;
        case None =>
          if |src.bytes| < 4 {
            return NotYet;
          }
          n := ReadBe32(src.bytes[..4]);
          if n > MAX_FRAME_LENGTH {
            return TooLong;
          }
          src.bytes := src.bytes[4..];
          need := Some(n);
      }
      if |src.bytes| < n {
        return NotYet;
      }
      taken := Got(src.bytes[..n]);
      src.bytes := src.bytes[n..];
      need := None;
    }

    method Decode(src: ByteBuffer, expired: set<u64>) returns (outcome: Outcome)
      modifies this`partials, this`need, src
      ensures DecodeCall(old(State()), old(src.bytes), expired) == Called(outcome, State(), src.bytes)
    {
      hide Parse;
      CleanupExpired(expired);
      var taken := DecodeFrame(src);
      if taken.NotYet? {
        return Quiet;
      }
      if taken.TooLong? {
        return Failed;
      }
      var parsed := Parse(taken.text);
      match parsed {
        case None => return Failed;
        case Some(Complete(data)) => return Item(data);
        case Some(Piece(fragment)) => outcome := ReceiveFragment(fragment);
      }
    }

    method ReceiveFragment(fragment: Fragment) returns (outcome: Outcome)
      modifies this`partials
      ensures (outcome, partials) == Accept(old(partials), Piece(fragment))
    {
      hide Base64.Decode, Reassembled;
      var id := fragment.messageId;
      var decoded := Base64.Decode(fragment.data);
      if decoded.None? {
        return Failed;
      }
      var partial := if id in partials then partials[id] else Partial(fragment.total, map[]);
      partial := partial.(parts := partial.parts[fragment.index := decoded.value]);
      if |partial.parts| != partial.total {
        partials := partials[id := partial];
        return Quiet;
      }
      partials := partials - {id};
      var whole := Reassemble(partial);
      outcome := match whole case Some(data) => Item(data) case None => Failed;
    }
  }
}
