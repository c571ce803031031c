/** Length-prefixed frames over a stream that delivers its bytes in pieces of any size. */
module Framing {
  import opened Common
  import opened ByteOrder

  datatype Error =
    | Disposed | Interrupted | EndOfStream
    | FrameLimit | FrameSequence | FrameIntegrity | FrameInvalid | ProtocolVersion
  datatype Result<+T> = Ok(value: T) | Err(error: Error)

  /** One direction of a connection: the bytes that are written and not yet read. */
  class Stream {
    var data: Bytes

    constructor (data: Bytes)
      ensures this.data == data
    {
      this.data := data;
    }

    /** Any non-empty piece of what is there, up to `max` bytes; nothing at the end. */
    method Read(max: nat) returns (piece: Bytes)
      requires max > 0
      modifies this
      ensures piece + data == old(data) && |piece| <= max
      ensures piece == [] <==> old(data) == []
    {
      if data == [] { return []; }
      var n :| 1 <= n <= |data| && n <= max;
      piece := data[..n];
      data := data[n..];
    }

    /** Other bytes have come to be on their way. */
    method Offer(data: Bytes)
      modifies this
      ensures this.data == data
    {
      this.data := data;
    }

    /** A write that is cut throws once that many bytes are on their way, if it gets that far. */
    method Write(bytes: Bytes, cut: Option<nat>) returns (ok: bool)
      modifies this
      ensures ok == (cut.None? || cut.value >= |bytes|)
      ensures data == old(data) + Sent(bytes, cut)
    {
      data := data + Sent(bytes, cut);
      ok := cut.None? || cut.value >= |bytes|;
    }
  }

  function Sent(bytes: Bytes, cut: Option<nat>): Bytes {
    if cut.None? || cut.value >= |bytes| then bytes else bytes[..cut.value]
  }

  /** The outcome of reading `n` bytes, and what stays unread. */
  function Take(data: Bytes, n: nat): (Result<Bytes>, Bytes) {
    if n <= |data| then (Ok(data[..n]), data[n..]) else (Err(EndOfStream), [])
  }

  /** Fills the buffer, however the stream cuts its bytes into pieces. */
  method ReadExactly(stream: Stream, buffer: array<Byte>) returns (ok: bool)
    modifies stream, buffer
    ensures ok <==> buffer.Length <= |old(stream.data)|
    ensures ok ==> Take(old(stream.data), buffer.Length) == (Ok(buffer[..]), stream.data)
    ensures !ok ==> Take(old(stream.data), buffer.Length) == (Err(EndOfStream), stream.data)
  {
    ghost var all := stream.data;
    var offset := 0;
    while offset < buffer.Length
      invariant offset <= buffer.Length && offset <= |all|
      invariant buffer[..offset] == all[..offset] && stream.data == all[offset..]
    {
      var piece := stream.Read(buffer.Length - offset);
      if piece == [] { return false; }
      Fill(buffer, offset, piece);
      assert all[..offset + |piece|] == all[..offset] + piece;
      offset := offset + |piece|;
    }
    assert buffer[..] == buffer[..offset];
    ok := true;
  }

  method Fill(buffer: array<Byte>, offset: nat, piece: Bytes)
    requires offset + |piece| <= buffer.Length
    modifies buffer
    ensures buffer[..offset + |piece|] == old(buffer[..offset]) + piece
  {
    forall i | 0 <= i < |piece| {
      buffer[offset + i] := piece[i];
    }
    assert buffer[..offset] == old(buffer[..offset]);
  }

  // ---------------------------------------------------------------------------
  // Frames
  // ---------------------------------------------------------------------------

  function Frame(body: Bytes): Bytes {
    BigEndian(|body|, 4) + body
  }

  function ReadFrame(data: Bytes, max: nat): (Result<Bytes>, Bytes) {
    if |data| < 4 then (Err(EndOfStream), [])
    else
      var size := FromBigEndian(data[..4]);
      if size == 0 || size > max then (Err(FrameLimit), data[4..])
      else Take(data[4..], size)
  }

  /** A frame is read back as written and nothing behind it is touched. */
  lemma ReadFrameOfFrame(body: Bytes, rest: Bytes, max: nat)
    requires 0 < |body| <= max && |body| < TWO32
    ensures ReadFrame(Frame(body) + rest, max) == (Ok(body), rest)
  {
    Widths();
    BigEndianRoundTrip(|body|, 4);
    var data := Frame(body) + rest;
    assert data[..4] == BigEndian(|body|, 4);
    assert data[4..] == body + rest;
  }

  /** What a read makes of any bytes: a header that announces nothing or too much is refused with
      nothing behind it consumed; a stream that ends early is an error; else the announced bytes are
      the frame. */
  lemma ReadFrameExactly(data: Bytes, max: nat)
    ensures var (frame, rest) := ReadFrame(data, max);
      if |data| < 4 then frame == Err(EndOfStream) && rest == []
      else
        var size := Number32(data[0], data[1], data[2], data[3]);
        if size == 0 || size > max then frame == Err(FrameLimit) && data == data[..4] + rest
        else if |data| < 4 + size then frame == Err(EndOfStream) && rest == []
        else frame.Ok? && |frame.value| == size && data == data[..4] + frame.value + rest
  {
    hide FromBigEndian;
    if |data| >= 4 {
      FourDigits(data[..4]);
      assert data == data[..4] + data[4..];
      var size := FromBigEndian(data[..4]);
      if |data| >= 4 + size {
        assert data == data[..4] + data[4..][..size] + data[4..][size..];
      }
    }
  }

  lemma FourDigits(s: Bytes)
    requires |s| == 4
    ensures FromBigEndian(s) == Number32(s[0], s[1], s[2], s[3])
  {
    assert s[..3][..2] == s[..2] && s[..2][..1] == s[..1] && s[..1][..0] == [];
    assert FromBigEndian(s[..1]) == s[0];
    assert FromBigEndian(s[..2]) == 0x100 * FromBigEndian(s[..1]) + s[1];
    assert FromBigEndian(s[..3]) == 0x100 * FromBigEndian(s[..2]) + s[2];
  }

  /** Header, body and flush; an exception in any of them leaves a part of the frame behind. */
  method WriteLengthPrefixed(stream: Stream, body: Bytes, cut: Option<nat>) returns (ok: bool)
    requires |body| < TWO32
    modifies stream
    ensures ok == cut.None?
    ensures stream.data == old(stream.data) + Sent(Frame(body), cut)
  {
    var header := BigEndian(|body|, 4);
    ok := stream.Write(header, cut);
    if !ok { return; }
    ok := stream.Write(body, if cut.None? then None else Some(cut.value - |header|));
    ok := ok && cut.None?;
  }

  method ReadLengthPrefixed(stream: Stream, max: nat) returns (body: Result<Bytes>)
    modifies stream
    ensures (body, stream.data) == ReadFrame(old(stream.data), max)
  {
    var header := new Byte[4];
    var ok := ReadExactly(stream, header);
    if !ok { return Err(EndOfStream); }
    var size := FromBigEndian(header[..]);
    if size == 0 || size > max { return Err(FrameLimit); }
    var buffer := new Byte[size];
    ok := ReadExactly(stream, buffer);
    if !ok { return Err(EndOfStream); }
    body := Ok(buffer[..]);
  }
}
