/** The receive half of a Channel as a function of its state: the acceptance
    test on 16-bit sequence numbers, the reorder ring and the drain. */
module ChannelReceiver {
  import opened Bytes
  import opened Envelope

  const SEQ_MODULUS := 0x10000
  const WINDOW_MAX := 48

  datatype Message = Message(msgtype: nat, data: seq<byte>)

  datatype RxEntry = RxEntry(sequence: nat, message: Message)

  /** `handled` lists the messages given to the handlers, oldest first. */
  datatype Receiver = Receiver(ring: seq<RxEntry>, next: nat, handled: seq<Message>)

  const Initial := Receiver([], 0, [])

  /** Sequences rejected before they reach the ring: those behind `next`,
      unless the window reaches past the modulus and the sequence is in the
      part of the window that has wrapped. */
  predicate Rejected(next: nat, sequence: nat) {
    sequence < next
    && var overflow := (next + WINDOW_MAX) % SEQ_MODULUS;
       overflow >= next || sequence > overflow
  }

  /** True where the scan for an insertion point stops in front of `existing`. */
  predicate GoesBefore(next: int, sequence: int, existing: int) {
    sequence < existing && next - sequence <= 0x7fff
  }

  /** Where the ring takes a new entry, scanning from `i`; None when the scan
      meets the same sequence first. */
  function EmplaceAt(ring: seq<RxEntry>, next: nat, sequence: nat, i: nat): Option<nat>
    requires i <= |ring|
    decreases |ring| - i
  {
    if i == |ring| then Some(i)
    else if ring[i].sequence == sequence then None
    else if GoesBefore(next, sequence, ring[i].sequence) then Some(i)
    else EmplaceAt(ring, next, sequence, i + 1)
  }

  lemma {:induction false} EmplaceAtBounds(ring: seq<RxEntry>, next: nat, sequence: nat, i: nat)
    requires i <= |ring|
    ensures EmplaceAt(ring, next, sequence, i).Some? ==> i <= EmplaceAt(ring, next, sequence, i).value <= |ring|
    decreases |ring| - i
  {
    if i < |ring| { EmplaceAtBounds(ring, next, sequence, i + 1); }
  }

  function Emplace(ring: seq<RxEntry>, next: nat, e: RxEntry): Option<seq<RxEntry>> {
    EmplaceAtBounds(ring, next, e.sequence, 0);
    match EmplaceAt(ring, next, e.sequence, 0)
    case None => None
    case Some(i) => Some(ring[..i] + [e] + ring[i..])
  }

  /** A drain in progress: the ring positions taken so far, in delivery order. */
  datatype Scan = Scan(next: nat, taken: seq<nat>)

  function Take(s: Scan, i: nat): Scan {
    Scan((s.next + 1) % SEQ_MODULUS, s.taken + [i])
  }

  /** The pass started over from the front of the ring when `next` wraps to 0. */
  function InnerPass(ring: seq<RxEntry>, j: nat, s: Scan): Scan
    requires j <= |ring|
    decreases |ring| - j
  {
    if j == |ring| then s
    else InnerPass(ring, j + 1, if ring[j].sequence == s.next then Take(s, j) else s)
  }

  /** What taking position `i` leads to: the inner pass when `next` becomes 0. */
  function TakeOuter(ring: seq<RxEntry>, s: Scan, i: nat): Scan {
    var s1 := Take(s, i);
    if s1.next == 0 then InnerPass(ring, 0, s1) else s1
  }

  function OuterPass(ring: seq<RxEntry>, i: nat, s: Scan): Scan
    requires i <= |ring|
    decreases |ring| - i
  {
    if i == |ring| then s
    else OuterPass(ring, i + 1, if ring[i].sequence == s.next then TakeOuter(ring, s, i) else s)
  }

  /** The entries of ring[i..] whose position was not taken. */
  function Kept(ring: seq<RxEntry>, taken: seq<nat>, i: nat): seq<RxEntry>
    requires i <= |ring|
    decreases |ring| - i
  {
    if i == |ring| then []
    else (if i in taken then [] else [ring[i]]) + Kept(ring, taken, i + 1)
  }

  function Messages(ring: seq<RxEntry>, taken: seq<nat>): seq<Message>
    requires forall k :: 0 <= k < |taken| ==> taken[k] < |ring|
  {
    seq(|taken|, k requires 0 <= k < |taken| => ring[taken[k]].message)
  }

  ghost predicate InRange(ring: seq<RxEntry>, s: Scan) {
    forall k :: 0 <= k < |s.taken| ==> s.taken[k] < |ring|
  }

  lemma {:induction false} InnerPassInRange(ring: seq<RxEntry>, j: nat, s: Scan)
    requires j <= |ring| && InRange(ring, s)
    ensures InRange(ring, InnerPass(ring, j, s))
    decreases |ring| - j
  {
    if j < |ring| { InnerPassInRange(ring, j + 1, if ring[j].sequence == s.next then Take(s, j) else s); }
  }

  lemma {:induction false} OuterPassInRange(ring: seq<RxEntry>, i: nat, s: Scan)
    requires i <= |ring| && InRange(ring, s)
    ensures InRange(ring, OuterPass(ring, i, s))
    decreases |ring| - i
  {
    if i < |ring| {
      InnerPassInRange(ring, 0, Take(s, i));
      OuterPassInRange(ring, i + 1, if ring[i].sequence == s.next then TakeOuter(ring, s, i) else s);
    }
  }

  /** Deliver what is now contiguous and forget it. */
  function Drain(rx: Receiver): Receiver {
    var s := OuterPass(rx.ring, 0, Scan(rx.next, []));
    OuterPassInRange(rx.ring, 0, Scan(rx.next, []));
    Receiver(Kept(rx.ring, s.taken, 0), s.next, rx.handled + Messages(rx.ring, s.taken))
  }

  /** One arriving envelope. */
  function Receive(rx: Receiver, e: RxEntry): Receiver {
    if Rejected(rx.next, e.sequence) then rx
    else match Emplace(rx.ring, rx.next, e)
      case None => rx
      case Some(ring) => Drain(rx.(ring := ring))
  }

  /** The same from its octets; what is cut short is ignored. */
  function ReceiveEnvelope(rx: Receiver, raw: seq<byte>): Receiver {
    match ParseChannelEnvelope(raw)
    case None => rx
    case Some(e) => Receive(rx, RxEntry(e.sequence, Message(e.msgtype, e.data)))
  }
}
