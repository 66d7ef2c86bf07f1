/** A sending Channel, a receiving Channel and everything in between: the wire
    may lose, repeat and reorder packets and proofs at will. */
module ChannelSystem {
  import opened Bytes
  import opened Envelope
  import opened ChannelReceiver
  import opened ChannelOrder
  import opened ChannelSender
  import Wrap = ChannelWrap

  /** Sends beyond this many may meet sequences the window already wraps. */
  const SAFE_SENDS := 65488

  /** Message n is sent as packet n. `proofs` are the proofs the receiver has
      emitted, `proved` those the sender has accepted. */
  datatype System = System(sent: seq<Message>, tx: Sender, rx: Receiver, proofs: set<nat>, proved: set<nat>)

  datatype Event =
    | Send(message: Message)
    | Timeout(k: nat)
    | DeliverPacket(n: nat)
    | DeliverProof(n: nat, rtt: Rtt)

  function Start(rtt: Rtt): System { System([], NewSender(rtt), Initial, {}, {}) }

  /** Events that cannot happen in the current state change nothing. */
  function Step(s: System, ev: Event): System {
    match ev
    case Send(m) =>
      if Ready(s.tx) then s.(sent := s.sent + [m], tx := SendTx(s.tx, |s.sent|)) else s
    case Timeout(k) =>
      if k < |s.tx.ring| then s.(tx := TimeoutTx(s.tx, k)) else s
    case DeliverPacket(n) =>
      if n in s.tx.wire && n < |s.sent|
      then s.(rx := Receive(s.rx, Copy(s.sent, n)), proofs := s.proofs + {n})
      else s
    case DeliverProof(n, rtt) =>
      if n in s.proofs
      then s.(tx := ProofTx(s.tx, n, rtt), proved := if n in s.tx.pending then s.proved + {n} else s.proved)
      else s
  }

  function Run(s: System, evs: seq<Event>): System
    decreases |evs|
  {
    if evs == [] then s else Run(Step(s, evs[0]), evs[1..])
  }

  // ----- the receiver's ring before the first wrap -----

  ghost predicate Ascending(ring: seq<RxEntry>) {
    forall i, j :: 0 <= i < j < |ring| ==> ring[i].sequence < ring[j].sequence
  }

  ghost predicate AllFrom(ring: seq<RxEntry>, low: nat) {
    forall k :: 0 <= k < |ring| ==> low <= ring[k].sequence < SAFE_SENDS - 1
  }

  lemma EmplaceAscending(ring: seq<RxEntry>, next: nat, e: RxEntry)
    requires Ascending(ring) && AllFrom(ring, next) && next <= e.sequence < SAFE_SENDS - 1
    requires Emplace(ring, next, e).Some?
    ensures Ascending(Emplace(ring, next, e).value) && AllFrom(Emplace(ring, next, e).value, next)
  {
    var p, ring' := Emplaced(ring, next, e);
    forall k | p <= k < |ring| ensures e.sequence < ring[k].sequence { assert ring[p].sequence <= ring[k].sequence; }
    forall k | 0 <= k < p ensures ring[k].sequence < e.sequence {}
    forall i, j | 0 <= i < j < |ring'| ensures ring'[i].sequence < ring'[j].sequence {
      assert j != p ==> ring'[j] == ring[if j < p then j else j - 1];
      assert i != p ==> ring'[i] == ring[if i < p then i else i - 1];
    }
  }

  /** On an ascending ring the drain takes everything up to the first gap. */
  lemma {:induction false} DrainToGap(ring: seq<RxEntry>, i: nat, s: Scan)
    requires Ascending(ring) && i <= |ring| && s.next < SAFE_SENDS
    requires forall k :: 0 <= k < |ring| ==> ring[k].sequence < SAFE_SENDS - 1
    requires forall k :: i <= k < |ring| ==> s.next <= ring[k].sequence
    requires forall k :: 0 <= k < i && k !in s.taken ==> s.next < ring[k].sequence
    ensures var s' := OuterPass(ring, i, s);
      forall k :: 0 <= k < |ring| && k !in s'.taken ==> s'.next < ring[k].sequence
    decreases |ring| - i
  {
    if i < |ring| {
      DrainToGap(ring, i + 1, if ring[i].sequence == s.next then Take(s, i) else s);
    }
  }

  lemma {:induction false} KeptAscending(ring: seq<RxEntry>, taken: seq<nat>, i: nat)
    requires i <= |ring| && Ascending(ring)
    ensures Ascending(Kept(ring, taken, i))
    decreases |ring| - i
  {
    if i < |ring| {
      KeptAscending(ring, taken, i + 1);
      var rest := Kept(ring, taken, i + 1);
      forall k | 0 <= k < |rest| ensures ring[i].sequence < rest[k].sequence {
        var p := KeptFrom(ring, taken, i + 1, k);
      }
    }
  }

  /** After a receive the ring is strictly sorted and lies above `next`. */
  ghost predicate Tidy(rx: Receiver) {
    Ascending(rx.ring) && AllFrom(rx.ring, rx.next + 1)
  }

  lemma DrainTidy(rx: Receiver)
    requires Ascending(rx.ring) && AllFrom(rx.ring, rx.next) && rx.next < SAFE_SENDS
    ensures Tidy(Drain(rx))
  {
    var s := OuterPass(rx.ring, 0, Scan(rx.next, []));
    DrainToGap(rx.ring, 0, Scan(rx.next, []));
    KeptAscending(rx.ring, s.taken, 0);
    var kept := Kept(rx.ring, s.taken, 0);
    forall k | 0 <= k < |kept| ensures s.next + 1 <= kept[k].sequence < SAFE_SENDS - 1 {
      var p := KeptFrom(rx.ring, s.taken, 0, k);
    }
  }

  /** Before the first wrap the sequence is the message number, and only late
      copies are refused. */
  lemma ReceiveTidy(sent: seq<Message>, rx: Receiver, n: nat)
    requires InOrder(sent, rx, SAFE_SENDS - 1) && Tidy(rx) && |sent| < SAFE_SENDS && n < |sent|
    ensures var rx' := Receive(rx, Copy(sent, n));
      && InOrder(sent, rx', SAFE_SENDS - 1) && Tidy(rx') && |rx.handled| <= |rx'.handled|
      && (n < |rx'.handled| || Buffered(rx'.ring, n))
      && (forall m | m < |rx.handled| || Buffered(rx.ring, m) :: m < |rx'.handled| || Buffered(rx'.ring, m))
  {
    var e := Copy(sent, n);
    assert e.sequence == n && rx.next == |rx.handled|;
    if n < |rx.handled| {
      assert Rejected(rx.next, n);
    } else {
      assert !Rejected(rx.next, n) && !Misplaced(rx.ring, rx.next, n);
      Wrap.FreshArrival(sent, rx, n, SAFE_SENDS - 1);
      if Emplace(rx.ring, rx.next, e).Some? {
        EmplaceAscending(rx.ring, rx.next, e);
        DrainTidy(rx.(ring := Emplace(rx.ring, rx.next, e).value));
        StillThere(sent, rx, n);
      }
    }
  }

  /** What was handled or buffered stays handled or buffered. */
  lemma StillThere(sent: seq<Message>, rx: Receiver, n: nat)
    requires InOrder(sent, rx, SAFE_SENDS - 1) && Tidy(rx) && |sent| < SAFE_SENDS && |rx.handled| <= n < |sent|
    requires Emplace(rx.ring, rx.next, Copy(sent, n)).Some? && !Misplaced(rx.ring, rx.next, n)
    ensures var rx' := Drain(rx.(ring := Emplace(rx.ring, rx.next, Copy(sent, n)).value));
      forall m | m < |rx.handled| || Buffered(rx.ring, m) :: m < |rx'.handled| || Buffered(rx'.ring, m)
  {
    var e := Copy(sent, n);
    EmplaceAscending(rx.ring, rx.next, e);
    Wrap.PutInOrder(sent, rx, n, SAFE_SENDS - 1);
    var mid := rx.(ring := Emplace(rx.ring, rx.next, e).value);
    forall m: nat | Buffered(rx.ring, m) ensures m < |Drain(mid).handled| || Buffered(Drain(mid).ring, m) {
      var j :| 0 <= j < |rx.ring| && rx.ring[j].sequence == m;
      assert rx.ring[j] in rx.ring;
      DrainedOrKept(sent, mid, rx.ring[j]);
    }
    DrainInOrder(sent, mid, SAFE_SENDS - 1);
  }

  lemma DrainedOrKept(sent: seq<Message>, mid: Receiver, e: RxEntry)
    requires InOrder(sent, mid, SAFE_SENDS - 1) && e in mid.ring && AllFrom(mid.ring, mid.next)
    requires |mid.handled| < SAFE_SENDS
    ensures e.sequence < |Drain(mid).handled| || Buffered(Drain(mid).ring, e.sequence)
  {
    DrainInOrder(sent, mid, SAFE_SENDS - 1);
    DrainKeeps(mid, Drain(mid), e);
  }

  lemma DrainKeeps(mid: Receiver, after: Receiver, e: RxEntry)
    requires |mid.handled| <= e.sequence < SEQ_MODULUS && |mid.handled| <= |after.handled|
    requires e in after.ring || Ahead(Sequence(|mid.handled|), e.sequence) < |after.handled| - |mid.handled|
    ensures e.sequence < |after.handled| || Buffered(after.ring, e.sequence)
  {
    if e !in after.ring { assert Ahead(Sequence(|mid.handled|), e.sequence) == e.sequence - |mid.handled|; }
  }

  // ----- the whole system -----

  ghost predicate RxInv(s: System) {
    && |s.sent| < SAFE_SENDS
    && InOrder(s.sent, s.rx, SAFE_SENDS - 1)
    && Tidy(s.rx)
    && (forall n | n in s.proofs :: n < |s.rx.handled| || Buffered(s.rx.ring, n))
  }

  ghost predicate DistinctHashes(ring: seq<TxView>) {
    forall i, j :: 0 <= i < j < |ring| ==> ring[i].hash != ring[j].hash
  }

  /** An unproved entry: sent, under its own sequence, `tries` times on the wire. */
  ghost predicate EntryOk(s: System, e: TxView) {
    e.hash < |s.sent| && e.sequence == Sequence(e.hash) && e.tries == s.tx.wire[e.hash] && e.hash !in s.proved
  }

  ghost predicate RingOk(s: System) {
    DistinctHashes(s.tx.ring) && forall k :: 0 <= k < |s.tx.ring| ==> EntryOk(s, s.tx.ring[k])
  }

  function Hashes(ring: seq<TxView>): set<nat> {
    set k | 0 <= k < |ring| :: ring[k].hash
  }

  ghost predicate WireOk(s: System) {
    && s.tx.nextSequence == Sequence(|s.sent|)
    && (forall n | n in s.tx.wire :: n < |s.sent|)
    && (forall n :: s.tx.wire[n] <= MAX_TRIES)
    && s.proved <= s.proofs
    && (forall n | n in s.proofs :: n < |s.sent|)
  }

  /** Until the link closes every message is still pending or already proved. */
  ghost predicate Accounted(s: System) {
    !s.tx.closed ==> forall n: nat :: n < |s.sent| ==> n in s.tx.pending || n in s.proved
  }

  ghost predicate TxInv(s: System) {
    && Bounded(s.tx.window) && |s.tx.ring| <= WINDOW_MAX
    && RingOk(s) && s.tx.pending == Hashes(s.tx.ring) && WireOk(s) && Accounted(s)
  }

  lemma RxStep(s: System, ev: Event)
    requires RxInv(s) && |Step(s, ev).sent| < SAFE_SENDS
    ensures RxInv(Step(s, ev))
  {
    match ev
    case Send(m) => Wrap.MoreSent(s.sent, s.rx, m, SAFE_SENDS - 1);
    case Timeout(k) =>
    case DeliverPacket(n) => if n in s.tx.wire && n < |s.sent| { ReceiveTidy(s.sent, s.rx, n); }
    case DeliverProof(n, rtt) =>
  }

  lemma HashesAppend(ring: seq<TxView>, e: TxView)
    ensures Hashes(ring + [e]) == Hashes(ring) + {e.hash}
  {
    var after := ring + [e];
    assert after[|ring|] == e && forall k :: 0 <= k < |ring| ==> after[k] == ring[k];
    forall n | n in Hashes(ring) + {e.hash} ensures n in Hashes(after) {
      if n != e.hash { var k :| 0 <= k < |ring| && ring[k].hash == n; assert after[k].hash == n; }
    }
  }

  lemma HashesRemove(ring: seq<TxView>, k: nat)
    requires k < |ring| && DistinctHashes(ring)
    ensures Hashes(ring[..k] + ring[k + 1..]) == Hashes(ring) - {ring[k].hash}
  {
    var after := ring[..k] + ring[k + 1..];
    forall j | 0 <= j < |after| ensures after[j] == ring[if j < k then j else j + 1] {}
    forall n | n in Hashes(ring) - {ring[k].hash} ensures n in Hashes(after) {
      var j :| 0 <= j < |ring| && ring[j].hash == n;
      assert after[if j < k then j else j - 1].hash == n;
    }
  }

  lemma SendStep(s: System, m: Message)
    requires TxInv(s)
    ensures TxInv(Step(s, Send(m)))
  {
    if Ready(s.tx) {
      var s' := Step(s, Send(m));
      assert |s.sent| !in s.tx.wire && |s.sent| !in s.proofs;
      HashesAppend(s.tx.ring, s'.tx.ring[|s.tx.ring|]);
      forall k | 0 <= k < |s'.tx.ring| ensures EntryOk(s', s'.tx.ring[k]) {
        if k < |s.tx.ring| { assert EntryOk(s, s.tx.ring[k]); }
      }
    }
  }

  lemma TimeoutStep(s: System, k: nat)
    requires TxInv(s)
    ensures TxInv(Step(s, Timeout(k)))
  {
    if k < |s.tx.ring| && s.tx.ring[k].tries < MAX_TRIES {
      var s' := Step(s, Timeout(k));
      WindowBounded(s.tx.window, None);
      assert EntryOk(s, s.tx.ring[k]);
      forall j | 0 <= j < |s.tx.ring| ensures s'.tx.ring[j].hash == s.tx.ring[j].hash && EntryOk(s', s'.tx.ring[j]) {
        assert EntryOk(s, s.tx.ring[j]);
      }
      SameHashes(s.tx.ring, s'.tx.ring);
    }
  }

  lemma SameHashes(a: seq<TxView>, b: seq<TxView>)
    requires |a| == |b| && forall j :: 0 <= j < |a| ==> a[j].hash == b[j].hash
    ensures Hashes(a) == Hashes(b)
  {
    forall n | n in Hashes(a) ensures n in Hashes(b) { var j :| 0 <= j < |a| && a[j].hash == n; assert b[j].hash == n; }
    forall n | n in Hashes(b) ensures n in Hashes(a) { var j :| 0 <= j < |b| && b[j].hash == n; assert a[j].hash == n; }
  }

  lemma ProofStep(s: System, n: nat, rtt: Rtt)
    requires TxInv(s)
    ensures TxInv(Step(s, DeliverProof(n, rtt)))
  {
    if n in s.proofs && n in s.tx.pending {
      var k := IndexOf(s.tx.ring, n);
      var i :| 0 <= i < |s.tx.ring| && s.tx.ring[i].hash == n;
      var s' := Step(s, DeliverProof(n, rtt));
      WindowBounded(s.tx.window, rtt);
      HashesRemove(s.tx.ring, k);
      RingAfterRemove(s, s', k);
    }
  }

  lemma RingAfterRemove(s: System, s': System, k: nat)
    requires RingOk(s) && k < |s.tx.ring|
    requires s'.sent == s.sent && s'.tx.wire == s.tx.wire && s'.proved == s.proved + {s.tx.ring[k].hash}
    requires s'.tx.ring == s.tx.ring[..k] + s.tx.ring[k + 1..]
    ensures RingOk(s')
  {
    forall j | 0 <= j < |s'.tx.ring| ensures s'.tx.ring[j] == s.tx.ring[if j < k then j else j + 1] {}
    forall j | 0 <= j < |s'.tx.ring| ensures EntryOk(s', s'.tx.ring[j]) {
      assert EntryOk(s, s.tx.ring[if j < k then j else j + 1]);
    }
  }

  lemma TxStep(s: System, ev: Event)
    requires TxInv(s)
    ensures TxInv(Step(s, ev))
  {
    match ev
    case Send(m) => SendStep(s, m);
    case Timeout(k) => TimeoutStep(s, k);
    case DeliverPacket(n) =>
    case DeliverProof(n, rtt) => ProofStep(s, n, rtt);
  }

  lemma {:induction false} RunTxInv(s: System, evs: seq<Event>)
    requires TxInv(s)
    ensures TxInv(Run(s, evs))
    decreases |evs|
  {
    if evs != [] {
      TxStep(s, evs[0]);
      RunTxInv(Step(s, evs[0]), evs[1..]);
    }
  }

  lemma {:induction false} RunRxInv(s: System, evs: seq<Event>)
    requires RxInv(s) && |Run(s, evs).sent| < SAFE_SENDS
    ensures RxInv(Run(s, evs))
    decreases |evs|
  {
    if evs != [] {
      SentGrows(Step(s, evs[0]), evs[1..]);
      RxStep(s, evs[0]);
      RunRxInv(Step(s, evs[0]), evs[1..]);
    }
  }

  lemma {:induction false} SentGrows(s: System, evs: seq<Event>)
    ensures s.sent <= Run(s, evs).sent
    decreases |evs|
  {
    if evs != [] { SentGrows(Step(s, evs[0]), evs[1..]); }
  }

  lemma StartInv(rtt: Rtt)
    ensures RxInv(Start(rtt)) && TxInv(Start(rtt))
  {
    WindowBounded(InitialWindow(rtt), rtt);
  }

  /** Exactly once and in order: in every run with fewer than 65488 sends the
      messages handed to the handlers are a prefix of those sent, the ring is
      sorted and above `next`, and whatever the sender saw proved has been
      handled or is buffered. */
  lemma ExactlyOnceInOrder(rtt: Rtt, evs: seq<Event>)
    requires |Run(Start(rtt), evs).sent| < SAFE_SENDS
    ensures var s := Run(Start(rtt), evs);
      && s.rx.handled <= s.sent
      && Ascending(s.rx.ring) && (forall k :: 0 <= k < |s.rx.ring| ==> s.rx.next < s.rx.ring[k].sequence)
      && (forall n | n in s.proved :: n < |s.rx.handled| || Buffered(s.rx.ring, n))
  {
    StartInv(rtt);
    RunRxInv(Start(rtt), evs);
    RunTxInv(Start(rtt), evs);
  }

  /** The sender's ledger, in every run of any length: until the link closes
      each message is in exactly one of the ring and the proved set, the proof
      index is the ring, the window is within its bounds, at most 48 messages
      are out, and none has been transmitted more than five times. */
  lemma Ledger(rtt: Rtt, evs: seq<Event>)
    ensures var s := Run(Start(rtt), evs);
      && Bounded(s.tx.window) && |s.tx.ring| <= WINDOW_MAX
      && s.tx.pending == Hashes(s.tx.ring)
      && s.tx.pending !! s.proved
      && (!s.tx.closed ==> forall n: nat :: n < |s.sent| <==> n in s.tx.pending || n in s.proved)
      && (forall n :: s.tx.wire[n] <= MAX_TRIES)
  {
    StartInv(rtt);
    RunTxInv(Start(rtt), evs);
    var s := Run(Start(rtt), evs);
    forall n | n in s.tx.pending ensures n !in s.proved && n < |s.sent| {
      var k :| 0 <= k < |s.tx.ring| && s.tx.ring[k].hash == n;
      assert EntryOk(s, s.tx.ring[k]);
    }
  }

  // ----- from octets to octets -----

  lemma {:induction false} WireGrows(s: System, evs: seq<Event>)
    ensures s.tx.wire <= Run(s, evs).tx.wire
    decreases |evs|
  {
    if evs != [] { WireGrows(Step(s, evs[0]), evs[1..]); }
  }

  /** In every run, of any length, the octets a send puts on the wire do to the
      receiver, whenever they arrive and whatever padding follows them, what
      delivering that message does. */
  lemma OctetsDeliver(rtt: Rtt, before: seq<Event>, m: Message, after: seq<Event>, padding: seq<byte>)
    requires m.msgtype < 0x10000 && CHANNEL_HEADER_SIZE + |m.data| <= LINK_MDU
    requires Ready(Run(Start(rtt), before).tx)
    ensures var s := Run(Start(rtt), before);
      var later := Run(Step(s, Send(m)), after);
      var envelope := BuildChannelEnvelope(ChannelEnvelope(m.msgtype, s.tx.nextSequence, m.data));
      && |s.sent| in later.tx.wire && |s.sent| < |later.sent|
      && ReceiveEnvelope(later.rx, envelope + padding) == Step(later, DeliverPacket(|s.sent|)).rx
  {
    StartInv(rtt);
    RunTxInv(Start(rtt), before);
    var s := Run(Start(rtt), before);
    var n, next := |s.sent|, Step(s, Send(m));
    SentGrows(next, after);
    WireGrows(next, after);
    assert n in next.tx.wire && next.sent[n] == m;
    EnvelopeRoundTrip(ChannelEnvelope(m.msgtype, s.tx.nextSequence, m.data), padding);
    assert Run(next, after).sent[n] == m;
  }
}
