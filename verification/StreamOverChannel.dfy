/** The stream refinement across a lossy channel, and the reader and writer as the
    objects they are. */
module StreamOverChannel {
  import opened Bytes
  import opened Envelope
  import opened ChannelReceiver
  import opened Stream
  import Sys = ChannelSystem
  import ChannelSender

  /** What the sending end passed to the channel: writes on any stream, with the
      writer's end mark, and messages of other types. */
  datatype Put = Write(streamId: nat, data: seq<byte>, eof: bool) | Foreign(message: Message)

  predicate PutOk(p: Put) {
    match p
    case Write(streamId, _, _) => streamId <= STREAM_ID_MAX
    case Foreign(m) => m.msgtype != CHANNEL_MSGTYPE_STREAM_DATA
  }

  function MessageOf(c: Codec, p: Put): Message {
    match p
    case Write(streamId, data, eof) => Written(c, streamId, data, eof)
    case Foreign(m) => m
  }

  function Sent(c: Codec, log: seq<Put>): (ms: seq<Message>)
    ensures |ms| == |log| && forall k :: 0 <= k < |log| ==> ms[k] == MessageOf(c, log[k])
  {
    seq(|log|, k requires 0 <= k < |log| => MessageOf(c, log[k]))
  }

  predicate OnStream(p: Put, streamId: nat) { p.Write? && p.streamId == streamId }

  /** The octets the writer of a stream has accepted. */
  function Accepted(log: seq<Put>, streamId: nat): seq<byte> {
    if log == [] then []
    else
      var last := log[|log| - 1];
      Accepted(log[..|log| - 1], streamId) + (if OnStream(last, streamId) then Chunk(last.data) else [])
  }

  /** A written chunk arrives at its own stream as it was, and at no other. */
  lemma WrittenArrives(c: Codec, p: Put, streamId: nat)
    requires CodecOk(c) && PutOk(p) && streamId <= STREAM_ID_MAX
    ensures Arriving(c, streamId, MessageOf(c, p)) == if OnStream(p, streamId) then Data(Chunk(p.data), p.eof) else NotOurs
  {
    if p.Write? {
      var s := StreamMessageOf(c, p.streamId, Chunk(p.data), p.eof);
      StreamMessageRoundTrip(s);
      assert c.deflate(Chunk(p.data)).Some? ==> c.inflate(c.deflate(Chunk(p.data)).value) == Some(Chunk(p.data));
    }
  }

  lemma {:induction false} OctetsAreAccepted(c: Codec, log: seq<Put>, streamId: nat)
    requires CodecOk(c) && streamId <= STREAM_ID_MAX && forall p | p in log :: PutOk(p)
    ensures Octets(c, streamId, Sent(c, log)) == Accepted(log, streamId)
    decreases |log|
  {
    if log != [] {
      var init, last := log[..|log| - 1], log[|log| - 1];
      OctetsAreAccepted(c, init, streamId);
      WrittenArrives(c, last, streamId);
      assert Sent(c, log)[..|log| - 1] == Sent(c, init);
    }
  }

  lemma {:induction false} AcceptedGrows(log: seq<Put>, n: nat, streamId: nat)
    requires n <= |log|
    ensures Accepted(log[..n], streamId) <= Accepted(log, streamId)
    decreases |log|
  {
    if n < |log| {
      var init := log[..|log| - 1];
      AcceptedGrows(init, n, streamId);
      assert init[..n] == log[..n];
    } else {
      assert log[..n] == log;
    }
  }

  /** A writer sets its end mark once and for all. */
  ghost predicate MarksOnce(log: seq<Put>, streamId: nat) {
    forall i, j :: 0 <= i < j < |log| && OnStream(log[i], streamId) && OnStream(log[j], streamId) && log[i].eof ==> log[j].eof
  }

  /** The reader holds everything up to a last write of the stream that carries the
      end mark, and so does every later write. */
  ghost predicate EndHeld(log: seq<Put>, streamId: nat, held: seq<byte>) {
    exists k :: 0 <= k < |log| && EndsAt(log, streamId, k) && Accepted(log[..k + 1], streamId) <= held
  }

  ghost predicate EndsAt(log: seq<Put>, streamId: nat, k: nat)
    requires k < |log|
  {
    OnStream(log[k], streamId) && forall i :: k <= i < |log| && OnStream(log[i], streamId) ==> log[i].eof
  }

  /** The same for a reader handed the first `n` messages. */
  lemma PrefixIsRefined(c: Codec, log: seq<Put>, streamId: nat, n: nat, evs: seq<Event>)
    requires CodecOk(c) && streamId <= STREAM_ID_MAX && (forall p | p in log :: PutOk(p)) && MarksOnce(log, streamId)
    requires n <= |log| && MessagesOf(evs) == Sent(c, log[..n])
    ensures var r := Run(c, NewReader(streamId), evs);
      var held := Returned(c, NewReader(streamId), evs) + Join(r.buffer);
      && held <= Accepted(log, streamId)
      && (r.eof ==> EndHeld(log, streamId, held))
  {
    OctetsAreAccepted(c, log[..n], streamId);
    AcceptedGrows(log, n, streamId);
    ReaderHoldsOctets(c, streamId, evs);
    if Run(c, NewReader(streamId), evs).eof {
      var m :| m in MessagesOf(evs) && Ends(c, streamId, m);
      EndIsHeld(c, log, streamId, n, m);
    }
  }

  lemma EndIsHeld(c: Codec, log: seq<Put>, streamId: nat, n: nat, m: Message)
    requires CodecOk(c) && streamId <= STREAM_ID_MAX && (forall p | p in log :: PutOk(p)) && MarksOnce(log, streamId)
    requires n <= |log| && m in Sent(c, log[..n]) && Ends(c, streamId, m)
    ensures EndHeld(log, streamId, Accepted(log[..n], streamId))
  {
    var k :| 0 <= k < n && Sent(c, log[..n])[k] == m;
    assert m == MessageOf(c, log[k]);
    WrittenArrives(c, log[k], streamId);
    MarkedEndsAt(log, streamId, k);
    AcceptedGrows(log[..n], k + 1, streamId);
    assert log[..n][..k + 1] == log[..k + 1];
  }

  lemma MarkedEndsAt(log: seq<Put>, streamId: nat, k: nat)
    requires k < |log| && MarksOnce(log, streamId) && OnStream(log[k], streamId) && log[k].eof
    ensures EndsAt(log, streamId, k)
  {
  }

  /** With fewer than 65488 messages on the channel, whatever is lost, repeated and
      reordered on the way and however reads interleave: what the reads of a stream
      returned and what is buffered are together a prefix of what its writer accepted, and once it has
      seen the end it holds everything accepted before the writer was closed. */
  lemma StreamIsRefined(c: Codec, log: seq<Put>, streamId: nat, rtt: ChannelSender.Rtt, run: seq<Sys.Event>, evs: seq<Event>)
    requires CodecOk(c) && streamId <= STREAM_ID_MAX && (forall p | p in log :: PutOk(p)) && MarksOnce(log, streamId)
    requires Sys.Run(Sys.Start(rtt), run).sent == Sent(c, log) && |log| < Sys.SAFE_SENDS
    requires MessagesOf(evs) == Sys.Run(Sys.Start(rtt), run).rx.handled
    ensures var r := Run(c, NewReader(streamId), evs);
      var held := Returned(c, NewReader(streamId), evs) + Join(r.buffer);
      && held <= Accepted(log, streamId)
      && (r.eof ==> EndHeld(log, streamId, held))
  {
    var n := HandledSoFar(c, log, rtt, run);
    PrefixIsRefined(c, log, streamId, n, evs);
  }

  lemma HandledSoFar(c: Codec, log: seq<Put>, rtt: ChannelSender.Rtt, run: seq<Sys.Event>) returns (n: nat)
    requires Sys.Run(Sys.Start(rtt), run).sent == Sent(c, log) && |log| < Sys.SAFE_SENDS
    ensures n <= |log| && Sys.Run(Sys.Start(rtt), run).rx.handled == Sent(c, log[..n])
  {
    Sys.ExactlyOnceInOrder(rtt, run);
    var handled := Sys.Run(Sys.Start(rtt), run).rx.handled;
    n := |handled|;
    assert handled == Sent(c, log)[..n];
  }
}
