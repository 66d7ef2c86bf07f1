/** The send half of a Channel: the adaptive window, the unproved entries and
    what has been put on the wire. */
module ChannelSender {
  import opened Bytes
  import opened ChannelReceiver

  const MAX_TRIES := 5
  const FAST_RATE_THRESHOLD := 10
  const RTT_FAST := 0.18
  const RTT_MEDIUM := 0.75
  const RTT_SLOW := 1.45

  datatype Window = Window(size: nat, max: nat, min: nat, flexibility: nat, fastRounds: nat, mediumRounds: nat)

  /** The link's round-trip time in seconds; None while it is not known. */
  type Rtt = Option<real>

  function InitialWindow(rtt: Rtt): Window {
    if rtt.Some? && rtt.value > RTT_SLOW then Window(1, 1, 1, 1, 0, 0) else Window(2, 5, 2, 4, 0, 0)
  }

  /** A retry: one smaller, and the ceiling follows while it is loose. */
  function Shrink(w: Window): Window {
    if w.size > w.min then
      w.(size := w.size - 1, max := if w.max > w.min + w.flexibility then w.max - 1 else w.max)
    else w
  }

  /** A proof: one larger, and the tenth fast or medium round lifts the bounds. */
  function Grow(w: Window, rtt: Rtt): Window {
    var g := if w.size < w.max then w.(size := w.size + 1) else w;
    if rtt.None? || rtt.value == 0.0 then g
    else if rtt.value > RTT_MEDIUM then g.(fastRounds := 0, mediumRounds := 0)
    else if rtt.value > RTT_FAST then
      var m := g.(fastRounds := 0, mediumRounds := g.mediumRounds + 1);
      if m.max < 12 && m.mediumRounds == FAST_RATE_THRESHOLD then m.(max := 12, min := 5) else m
    else
      var f := g.(fastRounds := g.fastRounds + 1);
      if f.max < 48 && f.fastRounds == FAST_RATE_THRESHOLD then f.(max := 48, min := 16) else f
  }

  predicate Bounded(w: Window) {
    1 <= w.size <= w.max <= WINDOW_MAX && 1 <= w.min <= w.max
  }

  /** The window stays between 1 and 48 under every sequence of retries and proofs. */
  lemma WindowBounded(w: Window, rtt: Rtt)
    ensures Bounded(InitialWindow(rtt))
    ensures Bounded(w) ==> Bounded(Shrink(w)) && Bounded(Grow(w, rtt))
  {
  }

  /** An unproved message; `hash` stands for its packet hash. */
  datatype TxView = TxView(hash: nat, sequence: nat, tries: nat)

  /** `wire` counts how often each packet has been transmitted. */
  datatype Sender = Sender(ring: seq<TxView>, pending: set<nat>, nextSequence: nat, window: Window,
                           wire: multiset<nat>, closed: bool)

  function NewSender(rtt: Rtt): Sender {
    Sender([], {}, 0, InitialWindow(rtt), multiset{}, false)
  }

  predicate Ready(s: Sender) { |s.ring| < s.window.size }

  /** Transmit a new packet under the next sequence. */
  function SendTx(s: Sender, hash: nat): Sender {
    s.(ring := s.ring + [TxView(hash, s.nextSequence, 1)], pending := s.pending + {hash},
       nextSequence := (s.nextSequence + 1) % SEQ_MODULUS, wire := s.wire + multiset{hash})
  }

  /** The retry timer of ring entry `k` fires. */
  function TimeoutTx(s: Sender, k: nat): Sender
    requires k < |s.ring|
  {
    var e := s.ring[k];
    if e.tries >= MAX_TRIES then s.(ring := [], pending := {}, closed := true)
    else s.(ring := s.ring[k := e.(tries := e.tries + 1)], window := Shrink(s.window), wire := s.wire + multiset{e.hash})
  }

  function IndexOf(ring: seq<TxView>, hash: nat): (k: nat)
    ensures k <= |ring|
    ensures k < |ring| ==> ring[k].hash == hash
    ensures forall i :: 0 <= i < k ==> ring[i].hash != hash
  {
    if ring == [] || ring[0].hash == hash then 0 else 1 + IndexOf(ring[1..], hash)
  }

  /** A proof for packet `hash` arrives; unknown and repeated ones are ignored. */
  function ProofTx(s: Sender, hash: nat, rtt: Rtt): Sender {
    var k := IndexOf(s.ring, hash);
    if hash !in s.pending || k == |s.ring| then s
    else s.(ring := s.ring[..k] + s.ring[k + 1..], pending := s.pending - {hash}, window := Grow(s.window, rtt))
  }
}
