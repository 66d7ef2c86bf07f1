/** A byte stream over a Channel: chunks written at one end, and what the reader at
    the other end has buffered, given out and seen end. */
module Stream {
  import opened Bytes
  import opened Envelope
  import opened ChannelReceiver

  /** Compression of one chunk, if that makes it smaller, and its inverse. */
  datatype Codec = Codec(deflate: seq<byte> -> Option<seq<byte>>, inflate: seq<byte> -> Option<seq<byte>>)

  ghost predicate CodecOk(c: Codec) {
    forall data: seq<byte> :: c.deflate(data).Some? ==>
      |c.deflate(data).value| < |data| && c.inflate(c.deflate(data).value) == Some(data)
  }

  // ----- writing -----

  /** What one call of write() takes of its argument. */
  function Chunk(data: seq<byte>): (chunk: seq<byte>)
    ensures |chunk| <= STREAM_DATA_MAX_LEN && chunk <= data
    ensures |chunk| == STREAM_DATA_MAX_LEN || chunk == data
  {
    if |data| > STREAM_DATA_MAX_LEN then data[..STREAM_DATA_MAX_LEN] else data
  }

  function StreamMessageOf(c: Codec, streamId: nat, chunk: seq<byte>, eof: bool): StreamMessage {
    match c.deflate(chunk)
    case Some(small) => StreamMessage(streamId, eof, true, small)
    case None => StreamMessage(streamId, eof, false, chunk)
  }

  /** The message a write puts on the channel. */
  function Written(c: Codec, streamId: nat, data: seq<byte>, eof: bool): Message {
    Message(CHANNEL_MSGTYPE_STREAM_DATA, BuildStreamMessage(StreamMessageOf(c, streamId, Chunk(data), eof)))
  }

  /** No chunk is ever too big for the channel. */
  lemma NeverTooBig(c: Codec, streamId: nat, data: seq<byte>, eof: bool)
    requires CodecOk(c)
    ensures CHANNEL_HEADER_SIZE + |Written(c, streamId, data, eof).data| <= LINK_MDU
  {
    assert c.deflate(Chunk(data)).Some? ==> |c.deflate(Chunk(data)).value| < |Chunk(data)|;
  }

  // ----- reading -----

  /** `read` is what read() has given out so far. */
  datatype Reader = Reader(streamId: nat, buffer: seq<seq<byte>>, eof: bool, read: seq<byte>)

  datatype Arrival = NotOurs | Broken | Data(data: seq<byte>, eof: bool)

  /** What a channel message means to the reader of a stream. */
  function Arriving(c: Codec, streamId: nat, m: Message): Arrival {
    if m.msgtype != CHANNEL_MSGTYPE_STREAM_DATA then NotOurs
    else
      match ParseStreamMessage(m.data)
      case None => NotOurs
      case Some(s) =>
        if s.streamId != streamId then NotOurs
        else if !s.compressed then Data(s.data, s.eof)
        else
          match c.inflate(s.data)
          case None => Broken
          case Some(data) => if |data| > STREAM_DATA_MAX_CHUNK_LEN then Broken else Data(data, s.eof)
  }

  function Handle(c: Codec, r: Reader, m: Message): Reader {
    match Arriving(c, r.streamId, m)
    case Data(data, eof) => r.(buffer := if data == [] then r.buffer else r.buffer + [data], eof := r.eof || eof)
    case _ => r
  }

  /** Where a buffer of `length` octets is cut; a negative size counts from its end. */
  function CutAt(length: nat, size: int): (at: nat)
    ensures at <= length
  {
    if size >= 0 then (if size < length then size else length) else if length + size > 0 then length + size else 0
  }

  /** One read(): the octets in front of the cut; the rest stays, as one chunk. */
  function Read(r: Reader, size: int): Reader {
    var whole := Join(r.buffer);
    if whole == [] then r
    else
      var at := CutAt(|whole|, size);
      r.(buffer := if at < |whole| then [whole[at..]] else [], read := r.read + whole[..at])
  }

  /** What read() returns; None stands for null. */
  function ReadResult(r: Reader, size: int): Option<seq<byte>> {
    var whole := Join(r.buffer);
    if whole == [] then (if r.eof then Some([]) else None) else Some(whole[..CutAt(|whole|, size)])
  }

  datatype Event = Handled(message: Message) | ReadCall(size: int)

  function Run(c: Codec, r: Reader, evs: seq<Event>): Reader {
    if evs == [] then r
    else
      var before := Run(c, r, evs[..|evs| - 1]);
      match evs[|evs| - 1]
      case Handled(m) => Handle(c, before, m)
      case ReadCall(size) => Read(before, size)
  }

  function OctetsOf(result: Option<seq<byte>>): seq<byte> { if result.Some? then result.value else [] }

  /** What the reads of a run returned, one after the other. */
  function Returned(c: Codec, r: Reader, evs: seq<Event>): seq<byte> {
    if evs == [] then []
    else
      var init, last := evs[..|evs| - 1], evs[|evs| - 1];
      Returned(c, r, init) + (if last.ReadCall? then OctetsOf(ReadResult(Run(c, r, init), last.size)) else [])
  }

  /** The messages a run was handed, in order. */
  function MessagesOf(evs: seq<Event>): seq<Message> {
    if evs == [] then []
    else
      MessagesOf(evs[..|evs| - 1]) + (if evs[|evs| - 1].Handled? then [evs[|evs| - 1].message] else [])
  }

  /** The stream's octets in a list of messages. */
  function Octets(c: Codec, streamId: nat, ms: seq<Message>): seq<byte> {
    if ms == [] then []
    else
      Octets(c, streamId, ms[..|ms| - 1]) +
      (match Arriving(c, streamId, ms[|ms| - 1]) case Data(data, _) => data case _ => [])
  }

  predicate Ends(c: Codec, streamId: nat, m: Message) {
    match Arriving(c, streamId, m)
    case Data(_, eof) => eof
    case _ => false
  }

  function NewReader(streamId: nat): Reader { Reader(streamId, [], false, []) }

  lemma ReadKeepsOctets(r: Reader, size: int)
    ensures Read(r, size).read + Join(Read(r, size).buffer) == r.read + Join(r.buffer)
    ensures Read(r, size).eof == r.eof && Read(r, size).streamId == r.streamId
  {
    var whole := Join(r.buffer);
    if whole != [] {
      var at := CutAt(|whole|, size);
      JoinAppend([], whole[at..]);
      assert [] + [whole[at..]] == [whole[at..]];
      assert whole[..at] + whole[at..] == whole;
    }
  }

  /** What a read returns is what leaves the buffer, from its front: null only if nothing
      is buffered and the end has not been seen; otherwise the first `size` octets or
      all there are, and for a negative size all but that many. */
  lemma ReadReturns(r: Reader, size: int)
    ensures var x, after, whole := ReadResult(r, size), Read(r, size), Join(r.buffer);
      && (x.None? <==> whole == [] && !r.eof)
      && OctetsOf(x) + Join(after.buffer) == whole && after.read == r.read + OctetsOf(x)
      && (size >= 0 ==> |OctetsOf(x)| == if size < |whole| then size else |whole|)
      && (size < 0 ==> |Join(after.buffer)| == if -size < |whole| then -size else |whole|)
  {
    var whole := Join(r.buffer);
    if whole != [] {
      var at := CutAt(|whole|, size);
      JoinAppend([], whole[at..]);
      assert [] + [whole[at..]] == [whole[at..]];
      assert whole[..at] + whole[at..] == whole;
    }
  }

  /** The reads of a run have returned what the reader counts as read. */
  lemma {:induction false} ReturnedIsRead(c: Codec, r: Reader, evs: seq<Event>)
    ensures Run(c, r, evs).read == r.read + Returned(c, r, evs)
    decreases |evs|
  {
    if evs != [] {
      var init, last := evs[..|evs| - 1], evs[|evs| - 1];
      ReturnedIsRead(c, r, init);
      var before := Run(c, r, init);
      if last.ReadCall? { ReadReturns(before, last.size); } else { HandleAdds(c, before, last.message); }
    }
  }

  lemma {:induction false} CountsHold(c: Codec, streamId: nat, evs: seq<Event>)
    ensures var r := Run(c, NewReader(streamId), evs);
      && r.streamId == streamId
      && r.read + Join(r.buffer) == Octets(c, streamId, MessagesOf(evs))
      && (r.eof <==> exists m :: m in MessagesOf(evs) && Ends(c, streamId, m))
    decreases |evs|
  {
    if evs != [] {
      var init, last := evs[..|evs| - 1], evs[|evs| - 1];
      CountsHold(c, streamId, init);
      var before, ms := Run(c, NewReader(streamId), init), MessagesOf(init);
      if last.ReadCall? {
        ReadKeepsOctets(before, last.size);
        assert MessagesOf(evs) == ms;
      } else {
        assert MessagesOf(evs) == ms + [last.message] && (ms + [last.message])[..|ms|] == ms;
        HandleAdds(c, before, last.message);
      }
    }
  }

  /** However reads and arrivals interleave, what the reads returned and what is buffered
      are together the octets of the messages handled, and the end has been seen
      exactly if one of them ends the stream. */
  lemma ReaderHoldsOctets(c: Codec, streamId: nat, evs: seq<Event>)
    ensures var r := Run(c, NewReader(streamId), evs);
      && r.streamId == streamId
      && Returned(c, NewReader(streamId), evs) + Join(r.buffer) == Octets(c, streamId, MessagesOf(evs))
      && (r.eof <==> exists m :: m in MessagesOf(evs) && Ends(c, streamId, m))
  {
    var returned := Returned(c, NewReader(streamId), evs);
    assert Run(c, NewReader(streamId), evs).read == returned by {
      ReturnedIsRead(c, NewReader(streamId), evs);
      assert [] + returned == returned;
    }
    CountsHold(c, streamId, evs);
  }

  lemma HandleAdds(c: Codec, r: Reader, m: Message)
    ensures var n := Handle(c, r, m);
      && n.read + Join(n.buffer) == r.read + Join(r.buffer)
         + (match Arriving(c, r.streamId, m) case Data(data, _) => data case _ => [])
      && n.read == r.read && n.streamId == r.streamId && (n.eof <==> r.eof || Ends(c, r.streamId, m))
  {
    match Arriving(c, r.streamId, m)
    case Data(data, eof) =>
      JoinAppend(r.buffer, data);
      assert data == [] ==> Join(r.buffer) + data == Join(r.buffer);
    case _ =>
  }
}
