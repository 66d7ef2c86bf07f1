/** The stream reader and writer as the objects they are. */
module RawChannel {
  import opened Bytes
  import opened Envelope
  import opened ChannelReceiver
  import opened ChannelSender
  import C = Channel
  import S = Stream

  /** All chunks in one array, one after the other. */
  method ConcatChunks(chunks: seq<seq<byte>>, totalLength: nat) returns (out: array<byte>)
    requires totalLength == |Join(chunks)|
    ensures fresh(out) && out[..] == Join(chunks)
  {
    out := new byte[totalLength];
    var offset := 0;
    assert chunks[..|chunks|] == chunks;
    for i := 0 to |chunks|
      invariant offset == |Join(chunks[..i])| <= totalLength
      invariant out[..offset] == Join(chunks[..i])
    {
      var chunk := chunks[i];
      assert chunks[..i + 1] == chunks[..i] + [chunk];
      JoinAppend(chunks[..i], chunk);
      JoinedPrefix(chunks, i + 1);
      ghost var before := out[..offset];
      forall k | 0 <= k < |chunk| { out[offset + k] := chunk[k]; }
      assert out[..offset] == before && out[offset..offset + |chunk|] == chunk;
      offset := offset + |chunk|;
    }
  }

  lemma {:induction false} JoinedPrefix(chunks: seq<seq<byte>>, n: nat)
    requires n <= |chunks|
    ensures |Join(chunks[..n])| <= |Join(chunks)|
    decreases |chunks|
  {
    if n < |chunks| {
      var init, last := chunks[..|chunks| - 1], chunks[|chunks| - 1];
      JoinedPrefix(init, n);
      JoinAppend(init, last);
      assert init[..n] == chunks[..n] && init + [last] == chunks;
    } else {
      assert chunks[..n] == chunks;
    }
  }

  class RawChannelReader {
    const codec: S.Codec
    const streamId: nat
    var buffer: seq<seq<byte>>
    var bufferedLength: nat
    var eof: bool
    /** What read() has given out so far. */
    ghost var given: seq<byte>

    ghost predicate Valid()
      reads this
    {
      bufferedLength == |Join(buffer)|
    }

    ghost function State(): S.Reader
      reads this
    {
      S.Reader(streamId, buffer, eof, given)
    }

    constructor (codec: S.Codec, streamId: nat)
      ensures Valid() && this.codec == codec && State() == S.NewReader(streamId)
    {
      this.codec := codec;
      this.streamId := streamId;
      buffer, bufferedLength, eof, given := [], 0, false, [];
    }

    /** A message handler: true when the message is taken. */
    method HandleMessage(m: Message) returns (taken: bool)
      requires Valid()
      modifies this
      ensures Valid() && State() == S.Handle(codec, old(State()), m)
      ensures taken <==> !S.Arriving(codec, streamId, m).NotOurs?
    {
      if m.msgtype != CHANNEL_MSGTYPE_STREAM_DATA { return false; }
      var message := ParseStreamMessage(m.data);
      if message.None? || message.value.streamId != streamId { return false; }
      var data := message.value.data;
      if message.value.compressed {
        var inflated := codec.inflate(data);
        if inflated.None? || |inflated.value| > STREAM_DATA_MAX_CHUNK_LEN { return true; }
        data := inflated.value;
      }
      if |data| > 0 {
        JoinAppend(buffer, data);
        buffer := buffer + [data];
        bufferedLength := bufferedLength + |data|;
      }
      if message.value.eof { eof := true; }
      taken := true;
    }

    /** Up to `size` octets; None when nothing is there and the end is not seen. */
    method Read(size: int) returns (taken: Option<seq<byte>>)
      requires Valid()
      modifies this
      ensures Valid() && State() == S.Read(old(State()), size) && taken == S.ReadResult(old(State()), size)
      ensures S.OctetsOf(taken) + Join(buffer) == old(Join(buffer))
    {
      S.ReadReturns(State(), size);
      if bufferedLength == 0 { return if eof then Some([]) else None; }
      var whole: seq<byte>;
      if |buffer| == 1 {
        whole := buffer[0];
        assert buffer == [] + [whole];
        JoinAppend([], whole);
      } else {
        var all := ConcatChunks(buffer, bufferedLength);
        whole := all[..];
      }
      assert whole == Join(buffer);
      var at := S.CutAt(|whole|, size);
      var rest := whole[at..];
      assert [] + [rest] == [rest];
      JoinAppend([], rest);
      buffer := if |rest| > 0 then [rest] else [];
      bufferedLength := |rest|;
      given := given + whole[..at];
      taken := Some(whole[..at]);
    }
  }

  class RawChannelWriter {
    const codec: S.Codec
    const streamId: nat
    const channel: C.Channel
    var eof: bool

    constructor (codec: S.Codec, streamId: nat, channel: C.Channel)
      ensures this.codec == codec && this.streamId == streamId && this.channel == channel && !eof
    {
      this.codec := codec;
      this.streamId := streamId;
      this.channel := channel;
      eof := false;
    }

    /** The envelope of a message under the channel's next sequence. */
    ghost function Enveloped(m: Message): seq<byte>
      reads channel
    {
      BuildChannelEnvelope(ChannelEnvelope(m.msgtype, channel.nextSequence, m.data))
    }

    /** Sends one chunk of `data`; `count` is how much of it was accepted: a whole
        chunk, unless the channel is not ready. It is never too big. */
    method Write(data: seq<byte>, packetHash: nat) returns (count: nat)
      requires S.CodecOk(codec)
      modifies channel
      ensures channel.Rx() == old(channel.Rx())
      ensures Ready(old(channel.Tx())) ==>
                && count == |S.Chunk(data)| && channel.Tx() == SendTx(old(channel.Tx()), packetHash)
                && channel.outbox == old(channel.outbox) + [old(Enveloped(S.Written(codec, streamId, data, eof)))]
      ensures !Ready(old(channel.Tx())) ==> count == 0 && channel.Tx() == old(channel.Tx()) && channel.outbox == old(channel.outbox)
    {
      var chunk := if |data| > STREAM_DATA_MAX_LEN then data[..STREAM_DATA_MAX_LEN] else data;
      var deflated := codec.deflate(chunk);
      var compressed := deflated.Some?;
      var sendData := if compressed then deflated.value else chunk;
      var message := BuildStreamMessage(StreamMessage(streamId, eof, compressed, sendData));
      S.NeverTooBig(codec, streamId, data, eof);
      var r := channel.Send(CHANNEL_MSGTYPE_STREAM_DATA, message, packetHash);
      count := if r.NotReady? then 0 else |chunk|;
    }

    /** Marks the end, for good, and sends it if the channel is ready when the wait
        is over; otherwise nothing is sent. */
    method Close(packetHash: nat)
      requires S.CodecOk(codec)
      modifies this, channel
      ensures eof && channel.Rx() == old(channel.Rx())
      ensures Ready(old(channel.Tx())) ==>
                channel.Tx() == SendTx(old(channel.Tx()), packetHash)
                && channel.outbox == old(channel.outbox) + [old(Enveloped(S.Written(codec, streamId, [], true)))]
      ensures !Ready(old(channel.Tx())) ==> channel.Tx() == old(channel.Tx()) && channel.outbox == old(channel.outbox)
    {
      eof := true;
      var count := Write([], packetHash);
    }
  }
}
