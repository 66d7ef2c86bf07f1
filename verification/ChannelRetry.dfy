/** How often a message is transmitted: once when it is sent and once for each of its
    first four retry timers; the fifth closes the link. */
module ChannelRetry {
  import opened Bytes
  import opened ChannelReceiver
  import opened ChannelSender
  import opened ChannelSystem

  /** The timer of a message with retries left sends that very packet again, counts the
      try and takes one off a window above its floor; without retries left it closes
      the link and leaves nothing unproved. */
  lemma TimerTransmits(rtt: Rtt, evs: seq<Event>, k: nat)
    requires k < |Run(Start(rtt), evs).tx.ring|
    ensures var s := Run(Start(rtt), evs);
      var s', e := Step(s, Timeout(k)), s.tx.ring[k];
      && (s.tx.wire[e.hash] < MAX_TRIES ==>
            && s'.tx.wire[e.hash] == s.tx.wire[e.hash] + 1 && (forall n: nat :: n != e.hash ==> s'.tx.wire[n] == s.tx.wire[n])
            && |s'.tx.ring| == |s.tx.ring| && s'.tx.ring[k].hash == e.hash && s'.tx.ring[k].tries == e.tries + 1
            && s'.tx.window.size == (if s.tx.window.size > s.tx.window.min then s.tx.window.size - 1 else s.tx.window.size)
            && s'.tx.pending == s.tx.pending && s'.tx.closed == s.tx.closed)
      && (s.tx.wire[e.hash] == MAX_TRIES ==>
            s'.tx.closed && s'.tx.ring == [] && s'.tx.pending == {} && s'.tx.wire == s.tx.wire)
  {
    StartInv(rtt);
    RunTxInv(Start(rtt), evs);
    assert EntryOk(Run(Start(rtt), evs), Run(Start(rtt), evs).tx.ring[k]);
  }

  function Smaller(a: nat, b: nat): nat { if a <= b then a else b }

  function Retried(w: Window, n: nat): Window { if n == 0 then w else Shrink(Retried(w, n - 1)) }

  /** Retries close a full window one by one down to its floor, and the ceiling with it
      until it is within the flexibility of the floor. */
  lemma {:induction false} RetriesClose(w: Window, n: nat)
    requires w.min <= w.size == w.max
    ensures Retried(w, n).size == w.size - Smaller(n, w.size - w.min)
    ensures Retried(w, n).min == w.min && Retried(w, n).flexibility == w.flexibility
    ensures Retried(w, n).max ==
      if w.max > w.min + w.flexibility then w.max - Smaller(n, w.max - w.min - w.flexibility) else w.max
    decreases n
  {
    if n > 0 { RetriesClose(w, n - 1); }
  }

  /** How often the retry timer of message `n` fires in a run from `s`. */
  function Timers(s: System, evs: seq<Event>, n: nat): nat
    decreases |evs|
  {
    if evs == [] then 0
    else (if evs[0].Timeout? && evs[0].k < |s.tx.ring| && s.tx.ring[evs[0].k].hash == n then 1 else 0)
         + Timers(Step(s, evs[0]), evs[1..], n)
  }

  /** A message under `timers` timers so far. */
  ghost predicate Counted(s: System, n: nat, timers: nat) {
    && timers <= MAX_TRIES
    && (n < |s.sent| ==> s.tx.wire[n] == if timers < MAX_TRIES then timers + 1 else MAX_TRIES)
    && (n >= |s.sent| ==> s.tx.wire[n] == 0 && timers == 0)
    && (timers == MAX_TRIES ==> n !in s.tx.pending && s.tx.closed)
  }

  lemma RingIsPending(s: System, k: nat)
    requires TxInv(s) && k < |s.tx.ring|
    ensures s.tx.ring[k].hash in s.tx.pending && EntryOk(s, s.tx.ring[k])
  {
  }

  lemma CountTimer(s: System, k: nat, n: nat, timers: nat)
    requires TxInv(s) && Counted(s, n, timers) && k < |s.tx.ring|
    ensures Counted(Step(s, Timeout(k)), n, timers + if s.tx.ring[k].hash == n then 1 else 0)
  {
    RingIsPending(s, k);
  }

  lemma CountStep(s: System, ev: Event, n: nat, timers: nat)
    requires TxInv(s) && Counted(s, n, timers)
    ensures Counted(Step(s, ev), n, timers + Timers(s, [ev], n))
  {
    match ev
    case Send(m) => assert |s.sent| !in s.tx.wire;
    case Timeout(k) => if k < |s.tx.ring| { CountTimer(s, k, n, timers); }
    case DeliverPacket(_) =>
    case DeliverProof(_, _) =>
  }

  lemma {:induction false} CountRun(s: System, evs: seq<Event>, n: nat, timers: nat)
    requires TxInv(s) && Counted(s, n, timers)
    ensures Counted(Run(s, evs), n, timers + Timers(s, evs, n))
    decreases |evs|
  {
    if evs != [] {
      CountStep(s, evs[0], n, timers);
      TxStep(s, evs[0]);
      CountRun(Step(s, evs[0]), evs[1..], n, timers + Timers(s, [evs[0]], n));
    }
  }

  /** Only a fifth timer closes the link. */
  lemma ClosedByTimer(s: System, ev: Event, n: nat, timers: nat)
    requires TxInv(s) && !s.tx.closed && Step(s, ev).tx.closed
    requires ev.Timeout? && ev.k < |s.tx.ring| && s.tx.ring[ev.k].hash == n ==> Counted(s, n, timers)
    ensures ev.Timeout? && ev.k < |s.tx.ring|
    ensures s.tx.ring[ev.k].hash == n ==> timers + 1 == MAX_TRIES
  {
    if ev.Timeout? && ev.k < |s.tx.ring| { RingIsPending(s, ev.k); }
  }

  lemma {:induction false} TimersAppend(s: System, a: seq<Event>, b: seq<Event>, n: nat)
    ensures Timers(s, a + b, n) == Timers(s, a, n) + Timers(Run(s, a), b, n) && Run(s, a + b) == Run(Run(s, a), b)
    decreases |a|
  {
    if a == [] {
      assert a + b == b;
    } else {
      assert (a + b)[0] == a[0] && (a + b)[1..] == a[1..] + b;
      TimersAppend(Step(s, a[0]), a[1..], b, n);
    }
  }

  lemma StartCounted(rtt: Rtt, evs: seq<Event>, n: nat)
    ensures TxInv(Run(Start(rtt), evs)) && Counted(Run(Start(rtt), evs), n, Timers(Start(rtt), evs, n))
  {
    StartInv(rtt);
    RunTxInv(Start(rtt), evs);
    CountRun(Start(rtt), evs, n, 0);
  }

  lemma {:induction false} WhoClosed(rtt: Rtt, evs: seq<Event>) returns (n: nat)
    requires Run(Start(rtt), evs).tx.closed
    ensures Timers(Start(rtt), evs, n) == MAX_TRIES
    decreases |evs|
  {
    var init, last := evs[..|evs| - 1], evs[|evs| - 1];
    assert evs == init + [last];
    TimersAppend(Start(rtt), init, [last], 0);
    var s := Run(Start(rtt), init);
    assert [last][1..] == [] && Run(s, [last]) == Step(s, last);
    if s.tx.closed {
      n := WhoClosed(rtt, init);
    } else {
      StartCounted(rtt, init, 0);
      assert last.Timeout? && last.k < |s.tx.ring|;
      n := s.tx.ring[last.k].hash;
      StartCounted(rtt, init, n);
      ClosedByTimer(s, last, n, Timers(Start(rtt), init, n));
    }
    TimersAppend(Start(rtt), init, [last], n);
    StartCounted(rtt, evs, n);
  }

  /** In every run of any length: a message has been transmitted once and once more for
      each of its first four timers, and the link has been closed exactly if some
      message had a fifth. */
  lemma TransmittedPerTimer(rtt: Rtt, evs: seq<Event>)
    ensures var s := Run(Start(rtt), evs);
      && (forall n: nat :: n < |s.sent| ==>
            var timers := Timers(Start(rtt), evs, n);
            timers <= MAX_TRIES && s.tx.wire[n] == if timers < MAX_TRIES then timers + 1 else MAX_TRIES)
      && (s.tx.closed <==> exists n: nat :: Timers(Start(rtt), evs, n) == MAX_TRIES)
  {
    var s := Run(Start(rtt), evs);
    forall n: nat
      ensures Counted(s, n, Timers(Start(rtt), evs, n))
    {
      StartCounted(rtt, evs, n);
    }
    if s.tx.closed { var n := WhoClosed(rtt, evs); }
  }

  lemma RingWithout(ring: seq<TxView>, k: nat)
    requires k < |ring|
    ensures multiset(ring[..k] + ring[k + 1..]) == multiset(ring) - multiset{ring[k]}
  {
    assert ring == ring[..k] + [ring[k]] + ring[k + 1..];
  }

  lemma GrowsByOne(w: Window, rtt: Rtt)
    ensures Grow(w, rtt).size == if w.size < w.max then w.size + 1 else w.size
  {
  }

  lemma ProofTaken(tx: Sender, n: nat, rtt: Rtt)
    requires n in tx.pending && IndexOf(tx.ring, n) < |tx.ring|
    ensures var tx', k := ProofTx(tx, n, rtt), IndexOf(tx.ring, n);
      && tx'.ring == tx.ring[..k] + tx.ring[k + 1..] && tx'.pending == tx.pending - {n} && tx'.wire == tx.wire
      && tx'.window.size == if tx.window.size < tx.window.max then tx.window.size + 1 else tx.window.size
  {
    GrowsByOne(tx.window, rtt);
  }

  lemma ProofIs(s: System, n: nat, now: Rtt)
    requires n in s.proofs && n in s.tx.pending
    ensures Step(s, DeliverProof(n, now)) == s.(tx := ProofTx(s.tx, n, now), proved := s.proved + {n})
  {
  }

  /** What an awaited proof does. */
  ghost predicate Freed(s: System, s': System, n: nat) {
    var k := IndexOf(s.tx.ring, n);
    && k < |s.tx.ring| && multiset(s'.tx.ring) == multiset(s.tx.ring) - multiset{s.tx.ring[k]}
    && n in s'.proved && s'.tx.pending == s.tx.pending - {n} && s'.tx.wire == s.tx.wire
    && s'.tx.window.size == (if s.tx.window.size < s.tx.window.max then s.tx.window.size + 1 else s.tx.window.size)
  }

  lemma AwaitedFrees(s: System, n: nat, now: Rtt)
    requires n in s.proofs && n in s.tx.pending && IndexOf(s.tx.ring, n) < |s.tx.ring|
    ensures Freed(s, Step(s, DeliverProof(n, now)), n)
  {
    ProofTaken(s.tx, n, now);
    RingWithout(s.tx.ring, IndexOf(s.tx.ring, n));
    ProofIs(s, n, now);
  }

  lemma PendingIsInRing(s: System, n: nat)
    requires TxInv(s) && n in s.tx.pending
    ensures IndexOf(s.tx.ring, n) < |s.tx.ring|
  {
    var i :| 0 <= i < |s.tx.ring| && s.tx.ring[i].hash == n;
  }

  /** In every run an awaited proof takes exactly its message out of the ring and opens
      the window by one, up to its ceiling. */
  lemma ProofFrees(rtt: Rtt, evs: seq<Event>, n: nat, now: Rtt)
    requires n in Run(Start(rtt), evs).proofs && n in Run(Start(rtt), evs).tx.pending
    ensures Freed(Run(Start(rtt), evs), Step(Run(Start(rtt), evs), DeliverProof(n, now)), n)
  {
    StartInv(rtt);
    RunTxInv(Start(rtt), evs);
    PendingIsInRing(Run(Start(rtt), evs), n);
    AwaitedFrees(Run(Start(rtt), evs), n, now);
  }
}
