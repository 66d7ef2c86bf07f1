/** The Channel envelope and the stream message inside it, octet by octet. */
module Envelope {
  import opened Bytes

  /** floor((500 - 1 - 19 - 48) / 16) * 16 - 1 */
  const LINK_MDU := 431
  const CHANNEL_HEADER_SIZE := 6
  const CHANNEL_MSGTYPE_STREAM_DATA := 0xff00
  const STREAM_ID_MAX := 0x3fff
  const STREAM_DATA_MAX_LEN := LINK_MDU - 2 - CHANNEL_HEADER_SIZE
  const STREAM_DATA_MAX_CHUNK_LEN := 1024 * 16

  datatype ChannelEnvelope = ChannelEnvelope(msgtype: nat, sequence: nat, data: seq<byte>)

  /** Three 16-bit fields, each keeping its low 16 bits, and the payload. */
  function BuildChannelEnvelope(e: ChannelEnvelope): (raw: seq<byte>)
    ensures |raw| == CHANNEL_HEADER_SIZE + |e.data|
  {
    ToBE(e.msgtype, 2) + ToBE(e.sequence, 2) + ToBE(|e.data|, 2) + e.data
  }

  function ParseChannelEnvelope(raw: seq<byte>): Option<ChannelEnvelope> {
    if |raw| < CHANNEL_HEADER_SIZE then None
    else
      var length := FromBE(raw[4..6]);
      if |raw| < CHANNEL_HEADER_SIZE + length then None
      else Some(ChannelEnvelope(FromBE(raw[0..2]), FromBE(raw[2..4]), raw[6..6 + length]))
  }

  /** A 16-bit field reads back as the low 16 bits of what was written. */
  lemma Field16(n: nat)
    ensures FromBE(ToBE(n, 2)) == n % 0x10000
    ensures n < 0x10000 ==> FromBE(ToBE(n, 2)) == n
  {
    var s := ToBE(n, 2);
    assert ToBE(n / 256, 1) == ToBE(n / 256 / 256, 0) + [n / 256 % 256];
    assert s == [(n / 256) % 256, n % 256];
    assert s[..1] == [s[0]] && s[..1][..0] == [];
    assert FromBE(s[..1]) == s[0];
  }

  /** What send() puts on the wire is what the peer's parser reads, whatever
      follows it. */
  lemma EnvelopeRoundTrip(e: ChannelEnvelope, suffix: seq<byte>)
    requires e.msgtype < 0x10000 && e.sequence < 0x10000 && |e.data| < 0x10000
    ensures ParseChannelEnvelope(BuildChannelEnvelope(e) + suffix) == Some(e)
  {
    var raw := BuildChannelEnvelope(e) + suffix;
    Field16(e.msgtype);
    Field16(e.sequence);
    Field16(|e.data|);
    assert raw[0..2] == ToBE(e.msgtype, 2) && raw[2..4] == ToBE(e.sequence, 2) && raw[4..6] == ToBE(|e.data|, 2);
    assert raw[6..6 + |e.data|] == e.data;
  }

  datatype StreamMessage = StreamMessage(streamId: nat, eof: bool, compressed: bool, data: seq<byte>)

  /** A 14-bit stream id under the eof and compressed bits, then the chunk. */
  function BuildStreamMessage(m: StreamMessage): (raw: seq<byte>)
    ensures |raw| == 2 + |m.data|
  {
    ToBE(m.streamId % (STREAM_ID_MAX + 1) + (if m.compressed then 0x4000 else 0) + (if m.eof then 0x8000 else 0), 2) + m.data
  }

  function ParseStreamMessage(raw: seq<byte>): Option<StreamMessage> {
    if |raw| < 2 then None
    else
      var header := FromBE(raw[..2]);
      Some(StreamMessage(header % 0x4000, (header / 0x8000) % 2 == 1, (header / 0x4000) % 2 == 1, raw[2..]))
  }

  lemma StreamMessageRoundTrip(m: StreamMessage)
    requires m.streamId <= STREAM_ID_MAX
    ensures ParseStreamMessage(BuildStreamMessage(m)) == Some(m)
  {
    var raw := BuildStreamMessage(m);
    var header := m.streamId + (if m.compressed then 0x4000 else 0) + (if m.eof then 0x8000 else 0);
    Field16(header);
    assert raw[..2] == ToBE(header, 2) && raw[2..] == m.data;
  }
}
