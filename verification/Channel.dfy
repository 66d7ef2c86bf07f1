/** The Channel object: its fields, updated in place by send(), the retry timer,
    packet proofs and arriving envelopes. */
module Channel {
  import opened Bytes
  import opened Envelope
  import opened ChannelReceiver
  import opened ChannelSender

  datatype SendResult = Sent | NotReady | TooBig(length: nat)

  class Channel {
    /** The unproved messages. Equal packet hashes mean equal packets. */
    var txRing: seq<TxView>
    var rxRing: seq<RxEntry>
    var nextSequence: nat
    var nextRxSequence: nat
    /** The packet hashes a proof is awaited for. */
    var pendingProofs: set<nat>
    var window: nat
    var windowMax: nat
    var windowMin: nat
    var windowFlexibility: nat
    var fastRateRounds: nat
    var mediumRateRounds: nat
    /** The messages given to the handlers so far. */
    var handled: seq<Message>
    /** The envelopes sent, oldest first. */
    var outbox: seq<seq<byte>>
    /** How often each packet has been passed to sendData(). */
    var wire: multiset<nat>
    /** Whether the channel has closed its link. */
    var linkClosed: bool

    ghost function WindowState(): Window
      reads this
    {
      Window(window, windowMax, windowMin, windowFlexibility, fastRateRounds, mediumRateRounds)
    }

    ghost function Tx(): Sender
      reads this
    {
      Sender(txRing, pendingProofs, nextSequence, WindowState(), wire, linkClosed)
    }

    ghost function Rx(): Receiver
      reads this
    {
      Receiver(rxRing, nextRxSequence, handled)
    }

    constructor (rtt: Rtt)
      ensures Tx() == NewSender(rtt) && Rx() == Initial && outbox == []
    {
      txRing, rxRing, nextSequence, nextRxSequence, pendingProofs := [], [], 0, 0, {};
      handled, outbox, wire, linkClosed := [], [], multiset{}, false;
      fastRateRounds, mediumRateRounds := 0, 0;
      if rtt.Some? && rtt.value > RTT_SLOW {
        window, windowMax, windowMin, windowFlexibility := 1, 1, 1, 1;
      } else {
        window, windowMax, windowMin, windowFlexibility := 2, 5, 2, 4;
      }
    }

    /** Fewer unproved messages than the window allows. */
    method IsReadyToSend() returns (ready: bool)
      ensures ready == Ready(Tx())
    {
      ready := |txRing| < window;
    }

    /** Puts one message on the wire under the next sequence, unless the window
        is full or the envelope does not fit a link packet. */
    method Send(msgtype: nat, data: seq<byte>, packetHash: nat) returns (r: SendResult)
      modifies this
      ensures Rx() == old(Rx())
      ensures r.NotReady? <==> !Ready(old(Tx()))
      ensures r.TooBig? <==> Ready(old(Tx())) && CHANNEL_HEADER_SIZE + |data| > LINK_MDU
      ensures outbox == old(outbox) +
                if r.Sent? then [BuildChannelEnvelope(ChannelEnvelope(msgtype, old(nextSequence), data))] else []
      ensures Tx() == if r.Sent? then SendTx(old(Tx()), packetHash) else old(Tx())
    {
      var ready := IsReadyToSend();
      if !ready { return NotReady; }
      var sequence := nextSequence;
      var envelopeRaw := BuildChannelEnvelope(ChannelEnvelope(msgtype, sequence, data));
      if |envelopeRaw| > LINK_MDU { return TooBig(|envelopeRaw|); }
      nextSequence := (sequence + 1) % SEQ_MODULUS;
      txRing := txRing + [TxView(packetHash, sequence, 1)];
      pendingProofs := pendingProofs + {packetHash};
      wire := wire + multiset{packetHash};
      outbox := outbox + [envelopeRaw];
      r := Sent;
    }

    /** The retry timer of ring entry `k` fires. */
    method OnTimeout(k: nat)
      requires k < |txRing|
      modifies this
      ensures Tx() == TimeoutTx(old(Tx()), k)
      ensures handled == old(handled) && nextRxSequence == old(nextRxSequence) && outbox == old(outbox)
      ensures rxRing == if old(txRing[k].tries) >= MAX_TRIES then [] else old(rxRing)
    {
      if txRing[k].tries >= MAX_TRIES {
        Shutdown();
        linkClosed := true;
        return;
      }
      txRing := txRing[k := txRing[k].(tries := txRing[k].tries + 1)];
      if window > windowMin {
        window := window - 1;
        if windowMax > windowMin + windowFlexibility { windowMax := windowMax - 1; }
      }
      wire := wire + multiset{txRing[k].hash};
    }

    /** Where the entry with this hash stands in the ring. */
    method RingIndexOf(packetHash: nat) returns (i: nat)
      requires IndexOf(txRing, packetHash) < |txRing|
      ensures i == IndexOf(txRing, packetHash)
    {
      i := 0;
      while txRing[i].hash != packetHash
        invariant 0 <= i <= IndexOf(txRing, packetHash)
        decreases IndexOf(txRing, packetHash) - i
      {
        i := i + 1;
      }
    }

    /** A valid packet proof: its entry leaves the ring and the window grows. */
    method OnPacketProof(packetHash: nat, rtt: Rtt)
      requires packetHash in pendingProofs ==> IndexOf(txRing, packetHash) < |txRing|
      modifies this
      ensures Rx() == old(Rx()) && Tx() == ProofTx(old(Tx()), packetHash, rtt) && outbox == old(outbox)
    {
      if packetHash !in pendingProofs { return; }
      pendingProofs := pendingProofs - {packetHash};
      var i := RingIndexOf(packetHash);
      txRing := txRing[..i] + txRing[i + 1..];
      Delivered(rtt);
    }

    /** The window adaptation that follows a delivery. */
    method Delivered(rtt: Rtt)
      modifies this`window, this`windowMax, this`windowMin, this`fastRateRounds, this`mediumRateRounds
      ensures WindowState() == Grow(old(WindowState()), rtt)
    {
      if window < windowMax { window := window + 1; }
      if rtt.None? || rtt.value == 0.0 { return; }
      if rtt.value > RTT_FAST {
        fastRateRounds := 0;
        if rtt.value > RTT_MEDIUM {
          mediumRateRounds := 0;
        } else {
          mediumRateRounds := mediumRateRounds + 1;
          if windowMax < 12 && mediumRateRounds == FAST_RATE_THRESHOLD { windowMax, windowMin := 12, 5; }
        }
      } else {
        fastRateRounds := fastRateRounds + 1;
        if windowMax < 48 && fastRateRounds == FAST_RATE_THRESHOLD { windowMax, windowMin := 48, 16; }
      }
    }

    /** A decrypted envelope arrives. */
    method OnReceive(envelopeRaw: seq<byte>)
      modifies this`rxRing, this`nextRxSequence, this`handled
      ensures Rx() == ReceiveEnvelope(old(Rx()), envelopeRaw)
    {
      var parsed := ParseChannelEnvelope(envelopeRaw);
      if parsed.None? { return; }
      var sequence := parsed.value.sequence;
      if sequence < nextRxSequence {
        var windowOverflow := (nextRxSequence + WINDOW_MAX) % SEQ_MODULUS;
        if windowOverflow < nextRxSequence {
          if sequence > windowOverflow { return; }
        } else {
          return;
        }
      }
      var placed := EmplaceRx(RxEntry(sequence, Message(parsed.value.msgtype, parsed.value.data)));
      if !placed { return; }
      var contiguous := Collect();
      RunHandlers(contiguous);
    }

    /** Inserts an entry into the reorder ring, or reports that its sequence is there. */
    method EmplaceRx(entry: RxEntry) returns (placed: bool)
      modifies this`rxRing
      ensures placed <==> Emplace(old(rxRing), nextRxSequence, entry).Some?
      ensures rxRing == if placed then Emplace(old(rxRing), nextRxSequence, entry).value else old(rxRing)
    {
      var i := 0;
      while i < |rxRing|
        invariant 0 <= i <= |rxRing| && rxRing == old(rxRing)
        invariant EmplaceAt(rxRing, nextRxSequence, entry.sequence, 0) == EmplaceAt(rxRing, nextRxSequence, entry.sequence, i)
      {
        var existing := rxRing[i];
        if entry.sequence == existing.sequence { return false; }
        if entry.sequence < existing.sequence && !(nextRxSequence - entry.sequence > 0x7fff) {
          rxRing := rxRing[..i] + [entry] + rxRing[i..];
          return true;
        }
        i := i + 1;
      }
      rxRing := rxRing + [entry];
      assert rxRing == old(rxRing)[..i] + [entry] + old(rxRing)[i..];
      return true;
    }

    /** The positions of the entries that are now contiguous, in order. */
    method Collect() returns (contiguous: seq<nat>)
      modifies this`nextRxSequence
      ensures Scan(nextRxSequence, contiguous) == OuterPass(rxRing, 0, Scan(old(nextRxSequence), []))
      ensures forall k :: 0 <= k < |contiguous| ==> contiguous[k] < |rxRing|
    {
      OuterPassInRange(rxRing, 0, Scan(nextRxSequence, []));
      contiguous := [];
      var i := 0;
      while i < |rxRing|
        invariant 0 <= i <= |rxRing|
        invariant OuterPass(rxRing, 0, Scan(old(nextRxSequence), [])) == OuterPass(rxRing, i, Scan(nextRxSequence, contiguous))
      {
        if rxRing[i].sequence == nextRxSequence {
          contiguous := contiguous + [i];
          nextRxSequence := (nextRxSequence + 1) % SEQ_MODULUS;
          if nextRxSequence == 0 {
            ghost var s1 := Scan(nextRxSequence, contiguous);
            var j := 0;
            while j < |rxRing|
              invariant 0 <= j <= |rxRing|
              invariant InnerPass(rxRing, 0, s1) == InnerPass(rxRing, j, Scan(nextRxSequence, contiguous))
            {
              if rxRing[j].sequence == nextRxSequence {
                contiguous := contiguous + [j];
                nextRxSequence := (nextRxSequence + 1) % SEQ_MODULUS;
              }
              j := j + 1;
            }
          }
        }
        i := i + 1;
      }
    }

    /** Takes the collected entries out of the ring and hands them over. */
    method RunHandlers(contiguous: seq<nat>)
      requires forall k :: 0 <= k < |contiguous| ==> contiguous[k] < |rxRing|
      modifies this`rxRing, this`handled
      ensures rxRing == Kept(old(rxRing), contiguous, 0)
      ensures handled == old(handled) + Messages(old(rxRing), contiguous)
    {
      for k := 0 to |contiguous|
        invariant rxRing == old(rxRing) && handled == old(handled) + Messages(rxRing, contiguous)[..k]
      {
        handled := handled + [rxRing[contiguous[k]].message];
      }
      var kept := [];
      for i := 0 to |rxRing|
        invariant rxRing == old(rxRing) && kept + Kept(rxRing, contiguous, i) == Kept(rxRing, contiguous, 0)
      {
        if i !in contiguous { kept := kept + [rxRing[i]]; }
      }
      rxRing := kept;
    }

    /** The link has closed: forget everything. */
    method Shutdown()
      modifies this`txRing, this`rxRing, this`pendingProofs
      ensures txRing == [] && rxRing == [] && pendingProofs == {}
    {
      txRing, rxRing, pendingProofs := [], [], {};
    }
  }
}
