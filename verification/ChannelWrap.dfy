/** Delivery across any number of sequence wraps: when the receiver keeps its
    invariant, exactly, and a run that breaks it. */
module ChannelWrap {
  import opened Bytes
  import opened ChannelReceiver
  import opened ChannelOrder

  // ----- one arrival -----

  /** A copy inside the window is never taken for an old one. */
  lemma AheadIsAccepted(received: nat, n: nat)
    requires received <= n <= received + WINDOW_MAX
    ensures !Rejected(Sequence(received), Sequence(n))
    ensures Ahead(Sequence(received), Sequence(n)) == n - received
  {
    AheadOfNth(received, n - received);
  }

  /** A late copy is refused while `next` is past its lateness and the window
      does not reach the modulus. */
  lemma LateIsRejected(received: nat, n: nat)
    requires n < received && received - n <= Sequence(received) < SEQ_MODULUS - WINDOW_MAX
    ensures Rejected(Sequence(received), Sequence(n))
  {
    assert Sequence(n) == Sequence(received) - (received - n);
  }

  lemma CopyHolds(sent: seq<Message>, received: nat, n: nat, reach: nat)
    requires received <= n < |sent| && n - received <= reach < SEQ_MODULUS
    ensures Holds(sent, received, Copy(sent, n), reach)
  {
    AheadOfNth(received, n - received);
  }

  /** The ring with an accepted copy put in is still in order. */
  lemma PutInOrder(sent: seq<Message>, rx: Receiver, n: nat, reach: nat)
    requires InOrder(sent, rx, reach) && |rx.handled| <= n < |sent| && n - |rx.handled| <= reach < SEQ_MODULUS
    requires Emplace(rx.ring, rx.next, Copy(sent, n)).Some? && !Misplaced(rx.ring, rx.next, Sequence(n))
    ensures var mid := rx.(ring := Emplace(rx.ring, rx.next, Copy(sent, n)).value);
      InOrder(sent, mid, reach) && Copy(sent, n) in mid.ring && forall x | x in rx.ring :: x in mid.ring
  {
    var e := Copy(sent, n);
    CopyHolds(sent, |rx.handled|, n, reach);
    EmplacedHolds(sent, |rx.handled|, rx.ring, rx.next, e, reach);
    EmplacedDistinct(rx.ring, rx.next, e);
  }

  lemma PutArrival(sent: seq<Message>, rx: Receiver, n: nat, reach: nat)
    requires InOrder(sent, rx, reach) && reach + 1 < SEQ_MODULUS
    requires |rx.handled| <= n < |sent| && n - |rx.handled| <= reach
    requires Emplace(rx.ring, rx.next, Copy(sent, n)).Some? && !Misplaced(rx.ring, rx.next, Sequence(n))
    ensures var rx' := Drain(rx.(ring := Emplace(rx.ring, rx.next, Copy(sent, n)).value));
      && InOrder(sent, rx', reach) && |rx.handled| <= |rx'.handled|
      && (n < |rx'.handled| || Buffered(rx'.ring, Sequence(n)))
  {
    PutInOrder(sent, rx, n, reach);
    HeldDrains(sent, rx.(ring := Emplace(rx.ring, rx.next, Copy(sent, n)).value), n, reach);
  }

  lemma HeldDrains(sent: seq<Message>, mid: Receiver, n: nat, reach: nat)
    requires InOrder(sent, mid, reach) && reach + 1 < SEQ_MODULUS
    requires |mid.handled| <= n < |sent| && n - |mid.handled| <= reach && Copy(sent, n) in mid.ring
    ensures InOrder(sent, Drain(mid), reach) && |mid.handled| <= |Drain(mid).handled|
    ensures n < |Drain(mid).handled| || Buffered(Drain(mid).ring, Sequence(n))
  {
    var e := Copy(sent, n);
    DrainInOrder(sent, mid, reach);
    AheadOfNth(|mid.handled|, n - |mid.handled|);
    assert e in Drain(mid).ring || Ahead(Sequence(|mid.handled|), e.sequence) < |Drain(mid).handled| - |mid.handled|;
  }

  /** An accepted copy of a message to come is delivered or buffered. */
  lemma FreshArrival(sent: seq<Message>, rx: Receiver, n: nat, reach: nat)
    requires InOrder(sent, rx, reach) && reach + 1 < SEQ_MODULUS
    requires |rx.handled| <= n < |sent| && n - |rx.handled| <= reach
    requires !Rejected(rx.next, Sequence(n)) && !Misplaced(rx.ring, rx.next, Sequence(n))
    ensures var rx' := Receive(rx, Copy(sent, n));
      && InOrder(sent, rx', reach) && |rx.handled| <= |rx'.handled|
      && (n < |rx'.handled| || Buffered(rx'.ring, Sequence(n)))
  {
    var e := Copy(sent, n);
    RefusedIffFound(rx.ring, rx.next, e);
    if Buffered(rx.ring, e.sequence) {
      assert Receive(rx, e) == rx;
    } else {
      assert Receive(rx, e) == Drain(rx.(ring := Emplace(rx.ring, rx.next, e).value));
      PutArrival(sent, rx, n, reach);
    }
  }

  /** Inserting a second copy breaks the invariant for good: whichever of the
      two the drain takes, the other stays under a sequence already spent. */
  lemma MisplacedArrival(sent: seq<Message>, rx: Receiver, n: nat, reach: nat)
    requires InOrder(sent, rx, reach) && 2 * reach + 1 < SEQ_MODULUS
    requires |rx.handled| <= n < |sent| && n - |rx.handled| <= reach
    requires !Rejected(rx.next, Sequence(n)) && Misplaced(rx.ring, rx.next, Sequence(n))
    ensures !InOrder(sent, Receive(rx, Copy(sent, n)), reach)
  {
    var received, e := |rx.handled|, Copy(sent, n);
    CopyHolds(sent, received, n, reach);
    RefusedIffFound(rx.ring, rx.next, e);
    EmplacedHolds(sent, received, rx.ring, rx.next, e, reach);
    EmplacedDistinct(rx.ring, rx.next, e);
    var ring := Emplace(rx.ring, rx.next, e).value;
    TwoCopies(sent, received, rx.ring, rx.next, e);
    var a, b :| 0 <= a < b < |ring| && ring[a].sequence == ring[b].sequence == e.sequence;
    var s := OuterPass(ring, 0, Scan(rx.next, []));
    OuterPassOk(sent, received, ring, 0, Scan(rx.next, []), reach);
    assert Drain(rx.(ring := ring)) == Receive(rx, e);
    SecondCopyStays(sent, rx.(ring := ring), s, a, b, reach);
  }

  lemma TwoCopies(sent: seq<Message>, received: nat, ring: seq<RxEntry>, next: nat, e: RxEntry)
    requires Emplace(ring, next, e).Some? && Misplaced(ring, next, e.sequence)
    ensures var ring' := Emplace(ring, next, e).value;
      exists a, b :: 0 <= a < b < |ring'| && ring'[a].sequence == ring'[b].sequence == e.sequence
  {
    var p, ring' := Emplaced(ring, next, e);
    var i, j :| 0 <= i < j < |ring| && ring[j].sequence == e.sequence && GoesBefore(next, e.sequence, ring[i].sequence);
    assert ring'[j + 1] == ring[j];
    assert p <= i;
  }

  /** The drain takes each sequence at most once. */
  lemma TakenOnce(sent: seq<Message>, received: nat, ring: seq<RxEntry>, s: Scan, a: nat, b: nat, reach: nat)
    requires AllHold(sent, received, ring, reach) && reach + 1 < SEQ_MODULUS && ScanOk(received, ring, s, reach)
    requires a < |ring| && b < |ring| && a != b && ring[a].sequence == ring[b].sequence
    ensures !(a in s.taken && b in s.taken)
  {
    if a in s.taken && b in s.taken {
      var i :| 0 <= i < |s.taken| && s.taken[i] == a;
      var j :| 0 <= j < |s.taken| && s.taken[j] == b;
      TakenMessage(sent, received, ring, s, reach, i);
      TakenMessage(sent, received, ring, s, reach, j);
    }
  }

  lemma SecondCopyStays(sent: seq<Message>, mid: Receiver, s: Scan, a: nat, b: nat, reach: nat)
    requires s == OuterPass(mid.ring, 0, Scan(mid.next, []))
    requires AllHold(sent, |mid.handled|, mid.ring, reach) && 2 * reach + 1 < SEQ_MODULUS
    requires ScanOk(|mid.handled|, mid.ring, s, reach)
    requires a < b < |mid.ring| && mid.ring[a].sequence == mid.ring[b].sequence
    ensures !InOrder(sent, Drain(mid), reach)
  {
    var received := |mid.handled|;
    TakenOnce(sent, received, mid.ring, s, a, b, reach);
    if a in s.taken {
      SpentCopyStays(sent, mid, s, a, b, reach);
    } else if b in s.taken {
      SpentCopyStays(sent, mid, s, b, a, reach);
    } else {
      KeptBoth(mid.ring, s.taken, 0, a, b);
    }
  }

  lemma {:induction false} KeptBoth(ring: seq<RxEntry>, taken: seq<nat>, i: nat, a: nat, b: nat)
    requires i <= a < b < |ring| && a !in taken && b !in taken && ring[a].sequence == ring[b].sequence
    ensures !Distinct(Kept(ring, taken, i))
    decreases |ring| - i
  {
    if i == a {
      KeptAll(ring, taken, i + 1, b);
      var rest, all := Kept(ring, taken, i + 1), Kept(ring, taken, i);
      var y :| 0 <= y < |rest| && rest[y] == ring[b];
      assert all == [ring[a]] + rest;
      assert all[0].sequence == all[y + 1].sequence;
    } else {
      KeptBoth(ring, taken, i + 1, a, b);
      var rest := Kept(ring, taken, i + 1);
      var x, y :| 0 <= x < y < |rest| && rest[x].sequence == rest[y].sequence;
      var all := Kept(ring, taken, i);
      if i in taken {
        assert all == rest;
      } else {
        assert all[x + 1] == rest[x] && all[y + 1] == rest[y];
      }
    }
  }

  lemma SpentCopyKept(sent: seq<Message>, received: nat, ring: seq<RxEntry>, s: Scan, t: nat, k: nat, reach: nat)
    requires AllHold(sent, received, ring, reach) && 2 * reach + 1 < SEQ_MODULUS && ScanOk(received, ring, s, reach)
    requires t < |ring| && k < |ring| && ring[t].sequence == ring[k].sequence && t in s.taken && k !in s.taken
    ensures !AllHold(sent, received + |s.taken|, Kept(ring, s.taken, 0), reach)
  {
    var j :| 0 <= j < |s.taken| && s.taken[j] == t;
    TakenMessage(sent, received, ring, s, reach, j);
    KeptAll(ring, s.taken, 0, k);
    assert Holds(sent, received, ring[k], reach);
    SpentIsFarAhead(received, |s.taken|, ring[k].sequence, reach);
    NotHeld(sent, received + |s.taken|, ring[k], reach, Kept(ring, s.taken, 0));
  }

  lemma SpentCopyStays(sent: seq<Message>, mid: Receiver, s: Scan, t: nat, k: nat, reach: nat)
    requires s == OuterPass(mid.ring, 0, Scan(mid.next, []))
    requires AllHold(sent, |mid.handled|, mid.ring, reach) && 2 * reach + 1 < SEQ_MODULUS
    requires ScanOk(|mid.handled|, mid.ring, s, reach)
    requires t < |mid.ring| && k < |mid.ring| && mid.ring[t].sequence == mid.ring[k].sequence
    requires t in s.taken && k !in s.taken
    ensures !InOrder(sent, Drain(mid), reach)
  {
    SpentCopyKept(sent, |mid.handled|, mid.ring, s, t, k, reach);
    assert Drain(mid).ring == Kept(mid.ring, s.taken, 0) && |Drain(mid).handled| == |mid.handled| + |s.taken|;
  }

  lemma NotHeld(sent: seq<Message>, received: nat, e: RxEntry, reach: nat, ring: seq<RxEntry>)
    requires e in ring && Ahead(Sequence(received), e.sequence) > reach
    ensures !AllHold(sent, received, ring, reach)
  {
    var k :| 0 <= k < |ring| && ring[k] == e;
    assert !Holds(sent, received, ring[k], reach);
  }

  lemma SpentIsFarAhead(received: nat, count: nat, sequence: nat, reach: nat)
    requires sequence < SEQ_MODULUS && Ahead(Sequence(received), sequence) < count <= reach + 1
    requires 2 * reach + 1 < SEQ_MODULUS
    ensures Ahead(Sequence(received + count), sequence) > reach
  {
    assert Ahead(Sequence(received + count), sequence) == Ahead(Sequence(received), sequence) - count + SEQ_MODULUS;
  }

  /** One arrival inside the window, exactly: the invariant survives if and only
      if the insertion is not misplaced. */
  lemma ArrivalExact(sent: seq<Message>, rx: Receiver, n: nat)
    requires InOrder(sent, rx, WINDOW_MAX)
    requires |rx.handled| <= n < |sent| && n - |rx.handled| <= WINDOW_MAX
    ensures InOrder(sent, Receive(rx, Copy(sent, n)), WINDOW_MAX) <==> !Misplaced(rx.ring, rx.next, Sequence(n))
  {
    AheadIsAccepted(|rx.handled|, n);
    if Misplaced(rx.ring, rx.next, Sequence(n)) {
      MisplacedArrival(sent, rx, n, WINDOW_MAX);
    } else {
      FreshArrival(sent, rx, n, WINDOW_MAX);
    }
  }

  /** A ring kept in message order never misplaces. */
  lemma OrderedNeverMisplaces(sent: seq<Message>, rx: Receiver, n: nat)
    requires InOrder(sent, rx, WINDOW_MAX)
    requires |rx.handled| <= n <= |rx.handled| + WINDOW_MAX
    requires forall i, j :: 0 <= i < j < |rx.ring| ==>
      Ahead(rx.next, rx.ring[i].sequence) < Ahead(rx.next, rx.ring[j].sequence)
    ensures !Misplaced(rx.ring, rx.next, Sequence(n))
  {
    var sequence := Sequence(n);
    AheadOfNth(|rx.handled|, n - |rx.handled|);
    forall i, j | 0 <= i < j < |rx.ring| && rx.ring[j].sequence == sequence
      ensures !GoesBefore(rx.next, sequence, rx.ring[i].sequence)
    {
      assert Holds(sent, |rx.handled|, rx.ring[i], WINDOW_MAX);
      SmallerSequence(rx.next, sequence, rx.ring[i].sequence);
    }
  }

  lemma SmallerSequence(next: nat, sequence: nat, existing: nat)
    requires next < SEQ_MODULUS && sequence < SEQ_MODULUS && existing < SEQ_MODULUS
    requires Ahead(next, existing) < Ahead(next, sequence) <= WINDOW_MAX
    ensures !GoesBefore(next, sequence, existing)
  {
    if sequence < next { assert Ahead(next, sequence) == sequence - next + SEQ_MODULUS; }
    else { assert Ahead(next, sequence) == sequence - next; }
    if existing < next { assert Ahead(next, existing) == existing - next + SEQ_MODULUS; }
    else { assert Ahead(next, existing) == existing - next; }
  }

  // ----- whole runs -----

  datatype Event = Send(message: Message) | Arrive(n: nat)

  datatype Wire = Wire(sent: seq<Message>, rx: Receiver)

  function Step(w: Wire, ev: Event): Wire {
    match ev
    case Send(m) => w.(sent := w.sent + [m])
    case Arrive(n) => if n < |w.sent| then w.(rx := Receive(w.rx, Copy(w.sent, n))) else w
  }

  function Run(w: Wire, evs: seq<Event>): Wire
    decreases |evs|
  {
    if evs == [] then w else Run(Step(w, evs[0]), evs[1..])
  }

  /** What an arriving copy must satisfy: at most WINDOW_MAX ahead, or late by no
      more than `next` while the window is clear of the modulus. */
  predicate Timely(received: nat, next: nat, n: nat) {
    if received <= n then n - received <= WINDOW_MAX
    else received - n <= next < SEQ_MODULUS - WINDOW_MAX
  }

  /** Timely, and not inserted in front of another copy of itself. */
  ghost predicate Admissible(w: Wire, ev: Event) {
    ev.Arrive? ==>
      && Timely(|w.rx.handled|, w.rx.next, ev.n)
      && (|w.rx.handled| <= ev.n ==> !Misplaced(w.rx.ring, w.rx.next, Sequence(ev.n)))
  }

  predicate TimelyRun(w: Wire, evs: seq<Event>)
    decreases |evs|
  {
    evs != [] ==>
      && (evs[0].Arrive? ==> evs[0].n < |w.sent| && Timely(|w.rx.handled|, w.rx.next, evs[0].n))
      && TimelyRun(Step(w, evs[0]), evs[1..])
  }

  ghost predicate AdmissibleRun(w: Wire, evs: seq<Event>)
    decreases |evs|
  {
    evs != [] ==> Admissible(w, evs[0]) && AdmissibleRun(Step(w, evs[0]), evs[1..])
  }

  lemma MoreSent(sent: seq<Message>, rx: Receiver, m: Message, reach: nat)
    requires InOrder(sent, rx, reach)
    ensures InOrder(sent + [m], rx, reach)
  {
    forall k | 0 <= k < |rx.ring| ensures Holds(sent + [m], |rx.handled|, rx.ring[k], reach) {
      assert Holds(sent, |rx.handled|, rx.ring[k], reach);
    }
  }

  lemma StepInOrder(w: Wire, ev: Event)
    requires InOrder(w.sent, w.rx, WINDOW_MAX) && Admissible(w, ev)
    ensures InOrder(Step(w, ev).sent, Step(w, ev).rx, WINDOW_MAX)
  {
    match ev
    case Send(m) => MoreSent(w.sent, w.rx, m, WINDOW_MAX);
    case Arrive(n) =>
      if |w.rx.handled| <= n < |w.sent| {
        ArrivalExact(w.sent, w.rx, n);
      } else if n < |w.rx.handled| {
        LateIsRejected(|w.rx.handled|, n);
      }
  }

  lemma {:induction false} RunInOrder(w: Wire, evs: seq<Event>)
    requires InOrder(w.sent, w.rx, WINDOW_MAX) && AdmissibleRun(w, evs)
    ensures InOrder(Run(w, evs).sent, Run(w, evs).rx, WINDOW_MAX)
    decreases |evs|
  {
    if evs != [] {
      StepInOrder(w, evs[0]);
      RunInOrder(Step(w, evs[0]), evs[1..]);
    }
  }

  /** Any number of wraps: under any admissible interleaving of sends, repeats,
      losses and reorderings, what was delivered is a prefix of what was sent. */
  lemma DeliveredIsPrefixAcrossWraps(evs: seq<Event>)
    requires AdmissibleRun(Wire([], Initial), evs)
    ensures Run(Wire([], Initial), evs).rx.handled <= Run(Wire([], Initial), evs).sent
  {
    RunInOrder(Wire([], Initial), evs);
  }
}
