/** When the floor of a sender's window lies above the window. */
module ChannelFloor {
  import opened Bytes
  import opened ChannelReceiver
  import opened ChannelSender
  import opened ChannelSystem

  predicate Floored(w: Window) { w.min <= w.size }

  /** The window size after one accepted proof. */
  function Grown(w: Window): nat { if w.size < w.max then w.size + 1 else w.size }

  /** This proof ends the tenth round of its speed, which raises ceiling and floor. */
  predicate RaisesToMedium(w: Window, rtt: Rtt) {
    rtt.Some? && rtt.value != 0.0 && RTT_FAST < rtt.value <= RTT_MEDIUM && w.max < 12 && w.mediumRounds + 1 == FAST_RATE_THRESHOLD
  }

  predicate RaisesToFast(w: Window, rtt: Rtt) {
    rtt.Some? && rtt.value != 0.0 && rtt.value <= RTT_FAST && w.max < 48 && w.fastRounds + 1 == FAST_RATE_THRESHOLD
  }

  /** The floor is raised above the window as it is then. */
  predicate RaisedTooFar(w: Window, rtt: Rtt) {
    (RaisesToMedium(w, rtt) && Grown(w) < 5) || (RaisesToFast(w, rtt) && Grown(w) < 16)
  }

  /** The proof is one the sender waits for. */
  predicate Awaited(s: System, ev: Event) {
    ev.DeliverProof? && ev.n in s.proofs && ev.n in s.tx.pending && IndexOf(s.tx.ring, ev.n) < |s.tx.ring|
  }

  /** One proof leaves the floor above the window exactly if it raises it there, or it
      was there, is not raised, and the window stays below it; a retry never moves one
      past the other. */
  lemma FloorAfter(w: Window, rtt: Rtt)
    ensures !Floored(Grow(w, rtt)) <==>
      RaisedTooFar(w, rtt) || (!RaisesToMedium(w, rtt) && !RaisesToFast(w, rtt) && Grown(w) < w.min)
    ensures Floored(Shrink(w)) <==> Floored(w)
  {
  }

  /** Fast rounds count only in a row: a slower proof starts them over, and a slow one the
      medium rounds too. */
  lemma RoundsStartOver(w: Window, rtt: Rtt)
    ensures var g := Grow(w, rtt);
      var timed := rtt.Some? && rtt.value != 0.0;
      && (timed && rtt.value > RTT_MEDIUM ==> g.fastRounds == 0 && g.mediumRounds == 0)
      && (timed && RTT_FAST < rtt.value <= RTT_MEDIUM ==> g.fastRounds == 0 && g.mediumRounds == w.mediumRounds + 1)
      && (timed && rtt.value <= RTT_FAST ==> g.fastRounds == w.fastRounds + 1 && g.mediumRounds == w.mediumRounds)
      && (!timed ==> g.fastRounds == w.fastRounds && g.mediumRounds == w.mediumRounds)
      && g.max == (if RaisesToMedium(w, rtt) then 12 else if RaisesToFast(w, rtt) then 48 else w.max)
      && g.min == (if RaisesToMedium(w, rtt) then 5 else if RaisesToFast(w, rtt) then 16 else w.min)
  {
  }

  /** The first step that leaves the floor above the window raises it there. */
  predicate Breaks(s: System, ev: Event) { Awaited(s, ev) && RaisedTooFar(s.tx.window, ev.rtt) }

  lemma StepFloor(s: System, ev: Event)
    requires Floored(s.tx.window)
    ensures Floored(Step(s, ev).tx.window) <==> !Breaks(s, ev)
  {
    match ev
    case Send(_) =>
    case Timeout(_) =>
    case DeliverPacket(_) =>
    case DeliverProof(n, rtt) => FloorAfter(s.tx.window, rtt);
  }

  /** The floor is within the window before and after every event. */
  predicate AlwaysFloored(s: System, evs: seq<Event>)
    decreases |evs|
  {
    Floored(s.tx.window) && (evs != [] ==> AlwaysFloored(Step(s, evs[0]), evs[1..]))
  }

  predicate SomeBreaks(s: System, evs: seq<Event>)
    decreases |evs|
  {
    evs != [] && (Breaks(s, evs[0]) || SomeBreaks(Step(s, evs[0]), evs[1..]))
  }

  lemma {:induction false} FloorFrom(s: System, evs: seq<Event>)
    requires Floored(s.tx.window)
    ensures AlwaysFloored(s, evs) <==> !SomeBreaks(s, evs)
    decreases |evs|
  {
    if evs != [] {
      StepFloor(s, evs[0]);
      if Floored(Step(s, evs[0]).tx.window) { FloorFrom(Step(s, evs[0]), evs[1..]); }
    }
  }

  /** In every run the floor stays within the window exactly if no awaited proof ends
      the tenth medium round with fewer than 5, or the tenth fast one with fewer than
      16, as the window. */
  lemma FloorHeldIff(rtt: Rtt, evs: seq<Event>)
    ensures AlwaysFloored(Start(rtt), evs) <==> !SomeBreaks(Start(rtt), evs)
  {
    FloorFrom(Start(rtt), evs);
  }

  // ----- such a run -----

  /** Message `n` is sent, delivered and proved on a fast link. */
  function Round(n: nat, m: Message): seq<Event> { [Send(m), DeliverPacket(n), DeliverProof(n, Some(0.1))] }

  lemma RoundGrows(s: System, m: Message)
    requires s.tx.ring == [] && s.tx.pending == {} && Ready(s.tx) && |s.sent| !in s.proofs
    ensures var s' := Run(s, Round(|s.sent|, m));
      && s'.tx.ring == [] && s'.tx.pending == {} && s'.tx.window == Grow(s.tx.window, Some(0.1))
      && |s'.sent| == |s.sent| + 1 && s'.proofs == s.proofs + {|s.sent|}
  {
    var n, evs := |s.sent|, Round(|s.sent|, m);
    var s1 := Step(s, Send(m));
    var s2 := Step(s1, DeliverPacket(n));
    var s3 := Step(s2, DeliverProof(n, Some(0.1)));
    assert s1.tx.ring == [TxView(n, s.tx.nextSequence, 1)] && s1.tx.pending == {n};
    assert IndexOf(s2.tx.ring, n) == 0;
    assert evs[1..] == [DeliverPacket(n), DeliverProof(n, Some(0.1))];
    assert evs[1..][1..] == [DeliverProof(n, Some(0.1))];
    assert Run(s2, evs[1..][1..]) == s3;
  }

  function Rounds(n: nat, m: Message): seq<Event> { if n == 0 then [] else Rounds(n - 1, m) + Round(n - 1, m) }

  lemma {:induction false} RunAppend(s: System, a: seq<Event>, b: seq<Event>)
    ensures Run(s, a + b) == Run(Run(s, a), b)
    decreases |a|
  {
    if a == [] {
      assert a + b == b;
    } else {
      assert (a + b)[1..] == a[1..] + b;
      RunAppend(Step(s, a[0]), a[1..], b);
    }
  }

  /** The tenth fast round lifts the floor from 2 to 16 under a window of 5. */
  lemma {:induction false} FastRounds(n: nat, m: Message)
    requires n <= 10
    ensures var s := Run(Start(Some(0.1)), Rounds(n, m));
      && s.tx.ring == [] && s.tx.pending == {} && |s.sent| == n && (forall k | k in s.proofs :: k < n)
      && s.tx.window == Window(if n < 3 then 2 + n else 5, if n < 10 then 5 else 48, if n < 10 then 2 else 16, 4, n, 0)
  {
    if n > 0 {
      FastRounds(n - 1, m);
      RunAppend(Start(Some(0.1)), Rounds(n - 1, m), Round(n - 1, m));
      RoundGrows(Run(Start(Some(0.1)), Rounds(n - 1, m)), m);
    }
  }

  /** On a new channel ten fast proofs leave the floor above the window. */
  lemma FloorCanPassWindow(m: Message)
    ensures var s := Run(Start(Some(0.1)), Rounds(10, m));
      s.tx.window.size == 5 && s.tx.window.min == 16 && !AlwaysFloored(Start(Some(0.1)), Rounds(10, m))
  {
    FastRounds(10, m);
    AtTheEnd(Start(Some(0.1)), Rounds(10, m));
  }

  lemma {:induction false} AtTheEnd(s: System, evs: seq<Event>)
    ensures AlwaysFloored(s, evs) ==> Floored(Run(s, evs).tx.window)
    decreases |evs|
  {
    if evs != [] { AtTheEnd(Step(s, evs[0]), evs[1..]); }
  }
}
