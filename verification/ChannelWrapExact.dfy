/** Which runs keep the receiver in order: exactly those without a misplaced arrival,
    among them all whose arrivals wrap in order. */
module ChannelWrapExact {
  import opened Bytes
  import opened ChannelReceiver
  import opened ChannelOrder
  import opened ChannelWrap
  import opened ChannelWrapLimit

  // ----- exactly the admissible runs -----

  ghost predicate Sound(w: Wire) { InOrder(w.sent, w.rx, WINDOW_MAX) }

  ghost predicate AlwaysSound(w: Wire, evs: seq<Event>)
    decreases |evs|
  {
    Sound(w) && (evs != [] ==> AlwaysSound(Step(w, evs[0]), evs[1..]))
  }

  lemma {:induction false} EveryPrefix(w: Wire, evs: seq<Event>)
    ensures AlwaysSound(w, evs) <==> forall i :: 0 <= i <= |evs| ==> Sound(Run(w, evs[..i]))
    decreases |evs|
  {
    if evs == [] {
      assert evs[..0] == [];
    } else {
      var next, rest := Step(w, evs[0]), evs[1..];
      EveryPrefix(next, rest);
      assert Run(w, evs[..0]) == w;
      forall i | 1 <= i <= |evs| ensures Run(w, evs[..i]) == Run(next, rest[..i - 1]) {
        assert evs[..i][1..] == rest[..i - 1];
      }
      if AlwaysSound(w, evs) {
        forall i | 0 <= i <= |evs| ensures Sound(Run(w, evs[..i])) {
          if i > 0 { assert Sound(Run(next, rest[..i - 1])); }
        }
      }
      if forall i :: 0 <= i <= |evs| ==> Sound(Run(w, evs[..i])) {
        forall i | 0 <= i <= |rest| ensures Sound(Run(next, rest[..i])) { assert Sound(Run(w, evs[..i + 1])); }
      }
    }
  }

  lemma StepExact(w: Wire, ev: Event)
    requires Sound(w) && TimelyRun(w, [ev])
    ensures Sound(Step(w, ev)) <==> Admissible(w, ev)
  {
    match ev
    case Send(m) => MoreSent(w.sent, w.rx, m, WINDOW_MAX);
    case Arrive(n) =>
      if |w.rx.handled| <= n { ArrivalExact(w.sent, w.rx, n); } else { LateIsRejected(|w.rx.handled|, n); }
  }

  lemma {:induction false} AlwaysSoundExact(w: Wire, evs: seq<Event>)
    requires Sound(w) && TimelyRun(w, evs)
    ensures AlwaysSound(w, evs) <==> AdmissibleRun(w, evs)
    decreases |evs|
  {
    if evs != [] {
      assert TimelyRun(w, [evs[0]]);
      StepExact(w, evs[0]);
      if Sound(Step(w, evs[0])) { AlwaysSoundExact(Step(w, evs[0]), evs[1..]); }
    }
  }

  /** From the start, a timely run keeps the receiver in order throughout if and only
      if no arrival in it is misplaced. */
  lemma RunExact(evs: seq<Event>)
    requires TimelyRun(Wire([], Initial), evs)
    ensures AdmissibleRun(Wire([], Initial), evs)
      <==> forall i :: 0 <= i <= |evs| ==> InOrder(Run(Wire([], Initial), evs[..i]).sent, Run(Wire([], Initial), evs[..i]).rx, WINDOW_MAX)
  {
    AlwaysSoundExact(Wire([], Initial), evs);
    EveryPrefix(Wire([], Initial), evs);
    assert forall i :: 0 <= i <= |evs| ==>
      (Sound(Run(Wire([], Initial), evs[..i])) <==>
       InOrder(Run(Wire([], Initial), evs[..i]).sent, Run(Wire([], Initial), evs[..i]).rx, WINDOW_MAX));
  }

  // ----- a drain of a ring in message order -----

  /** Entries are ever further ahead of `next`, those taken aside. */
  ghost predicate Ascends(received: nat, ring: seq<RxEntry>, aside: seq<nat>) {
    forall a, b :: 0 <= a < b < |ring| && a !in aside && b !in aside ==>
      Ahead(Sequence(received), ring[a].sequence) < Ahead(Sequence(received), ring[b].sequence)
  }

  /** Nothing that is left before position `end` is due. */
  ghost predicate GapBefore(received: nat, ring: seq<RxEntry>, s: Scan, end: nat) {
    forall k :: 0 <= k < |ring| && k < end && k !in s.taken ==> |s.taken| < Ahead(Sequence(received), ring[k].sequence)
  }

  /** An entry is due exactly when it is as far ahead as entries were taken. */
  lemma DueIff(sent: seq<Message>, received: nat, ring: seq<RxEntry>, s: Scan, i: nat)
    requires AllHold(sent, received, ring, WINDOW_MAX) && Distinct(ring) && ScanOk(received, ring, s, WINDOW_MAX) && i < |ring|
    ensures ring[i].sequence == s.next <==> Ahead(Sequence(received), ring[i].sequence) == |s.taken|
    ensures i in s.taken ==> Ahead(Sequence(received), ring[i].sequence) < |s.taken|
    ensures i !in s.taken ==> |s.taken| <= Ahead(Sequence(received), ring[i].sequence)
  {
    assert Holds(sent, received, ring[i], WINDOW_MAX);
    AheadOfNth(received, |s.taken|);
    SequenceOfAhead(received, ring[i].sequence);
    if i in s.taken {
      var j :| 0 <= j < |s.taken| && s.taken[j] == i;
      AheadOfNth(received, j);
    } else {
      Untaken(sent, received, ring, s, i, WINDOW_MAX);
    }
  }

  /** Taking the entry at `i` out of turn would need one before it that is due. */
  lemma TakeKeepsGap(sent: seq<Message>, received: nat, ring: seq<RxEntry>, s: Scan, i: nat)
    requires AllHold(sent, received, ring, WINDOW_MAX) && Distinct(ring) && ScanOk(received, ring, s, WINDOW_MAX) && i < |ring|
    requires Ascends(received, ring, s.taken) && GapBefore(received, ring, s, i)
    ensures var s' := if ring[i].sequence == s.next then Take(s, i) else s;
      ScanOk(received, ring, s', WINDOW_MAX) && Ascends(received, ring, s'.taken) && GapBefore(received, ring, s', i + 1)
  {
    DueIff(sent, received, ring, s, i);
    if ring[i].sequence == s.next {
      TakeOk(sent, received, ring, s, i, WINDOW_MAX);
      assert forall k :: k in Take(s, i).taken <==> k in s.taken || k == i;
    }
  }

  lemma {:induction false} InnerToGap(sent: seq<Message>, received: nat, ring: seq<RxEntry>, j: nat, s: Scan)
    requires AllHold(sent, received, ring, WINDOW_MAX) && Distinct(ring) && ScanOk(received, ring, s, WINDOW_MAX) && j <= |ring|
    requires Ascends(received, ring, s.taken) && GapBefore(received, ring, s, j)
    ensures var s' := InnerPass(ring, j, s);
      ScanOk(received, ring, s', WINDOW_MAX) && Ascends(received, ring, s'.taken) && GapBefore(received, ring, s', |ring|)
    decreases |ring| - j
  {
    if j < |ring| {
      TakeKeepsGap(sent, received, ring, s, j);
      InnerToGap(sent, received, ring, j + 1, if ring[j].sequence == s.next then Take(s, j) else s);
    }
  }

  lemma {:induction false} OuterToGap(sent: seq<Message>, received: nat, ring: seq<RxEntry>, i: nat, s: Scan)
    requires AllHold(sent, received, ring, WINDOW_MAX) && Distinct(ring) && ScanOk(received, ring, s, WINDOW_MAX) && i <= |ring|
    requires Ascends(received, ring, s.taken) && GapBefore(received, ring, s, i)
    ensures var s' := OuterPass(ring, i, s);
      ScanOk(received, ring, s', WINDOW_MAX) && Ascends(received, ring, s'.taken) && GapBefore(received, ring, s', |ring|)
    decreases |ring| - i
  {
    if i < |ring| {
      TakeKeepsGap(sent, received, ring, s, i);
      if ring[i].sequence == s.next {
        var s1 := Take(s, i);
        if s1.next == 0 { InnerToGap(sent, received, ring, 0, s1); }
        OuterToGap(sent, received, ring, i + 1, TakeOuter(ring, s, i));
      } else {
        OuterToGap(sent, received, ring, i + 1, s);
      }
    }
  }

  lemma {:induction false} OuterSkips(ring: seq<RxEntry>, i: nat, p: nat, s: Scan)
    requires i <= p <= |ring| && forall k :: i <= k < p ==> ring[k].sequence != s.next
    ensures OuterPass(ring, i, s) == OuterPass(ring, p, s)
    decreases p - i
  {
    if i < p { OuterSkips(ring, i + 1, p, s); }
  }

  /** Nothing is due any more. */
  lemma GapStops(sent: seq<Message>, received: nat, ring: seq<RxEntry>, s: Scan, i: nat)
    requires AllHold(sent, received, ring, WINDOW_MAX) && Distinct(ring) && ScanOk(received, ring, s, WINDOW_MAX) && i <= |ring|
    requires GapBefore(received, ring, s, |ring|)
    ensures OuterPass(ring, i, s) == s
  {
    forall k | i <= k < |ring| ensures ring[k].sequence != s.next { DueIff(sent, received, ring, s, k); }
    NoneDue(ring, i, s);
  }

  /** Behind wrapped entries only the one that wraps to 0 has a successor in front. */
  lemma BehindWrapped(received: nat, ring: seq<RxEntry>, p: nat)
    requires 0 < p < |ring| && Ascends(received, ring, [p]) && Sequence(received) + 1 < SEQ_MODULUS
    requires forall k :: 0 <= k < p ==> ring[k].sequence < Sequence(received)
    ensures GapBefore(received, ring, Scan(Sequence(received) + 1, [p]), |ring|)
  {
    forall k | 0 <= k < |ring| && k != p ensures 1 < Ahead(Sequence(received), ring[k].sequence) {
      WrappedIsFar(received, ring[0].sequence);
      if k > 0 { assert Ahead(Sequence(received), ring[0].sequence) < Ahead(Sequence(received), ring[k].sequence); }
    }
  }

  lemma WrappedIsFar(received: nat, sequence: nat)
    requires sequence < Sequence(received) && Sequence(received) + 1 < SEQ_MODULUS
    ensures 1 < Ahead(Sequence(received), sequence)
  {
    assert Ahead(Sequence(received), sequence) == sequence - Sequence(received) + SEQ_MODULUS;
  }

  ghost predicate NextMissing(rx: Receiver) {
    forall k :: 0 <= k < |rx.ring| ==> Ahead(rx.next, rx.ring[k].sequence) != 0
  }

  /** A drain that has reached the first gap. */
  ghost predicate AtGap(received: nat, ring: seq<RxEntry>, s: Scan) {
    ScanOk(received, ring, s, WINDOW_MAX) && Ascends(received, ring, s.taken) && GapBefore(received, ring, s, |ring|)
  }

  lemma FrontDrains(sent: seq<Message>, received: nat, ring: seq<RxEntry>)
    requires AllHold(sent, received, ring, WINDOW_MAX) && Distinct(ring) && ring != []
    requires Ascends(received, ring, [0]) && ring[0].sequence == Sequence(received)
    requires forall k :: 1 <= k < |ring| ==> Ahead(Sequence(received), ring[k].sequence) != 0
    ensures AtGap(received, ring, OuterPass(ring, 0, Scan(Sequence(received), [])))
  {
    assert Ahead(Sequence(received), ring[0].sequence) == 0;
    assert Ascends(received, ring, []);
    OuterToGap(sent, received, ring, 0, Scan(Sequence(received), []));
  }

  /** Taking the entry at `p` behind wrapped ones leads to the gap. */
  lemma TakeReachesGap(sent: seq<Message>, received: nat, ring: seq<RxEntry>, p: nat)
    requires AllHold(sent, received, ring, WINDOW_MAX) && Distinct(ring) && 0 < p < |ring|
    requires ring[p].sequence == Sequence(received) && Ascends(received, ring, [p])
    requires forall k :: 0 <= k < p ==> ring[k].sequence < Sequence(received)
    ensures AtGap(received, ring, TakeOuter(ring, Scan(Sequence(received), []), p))
  {
    var s := Scan(Sequence(received), []);
    TakeOk(sent, received, ring, s, p, WINDOW_MAX);
    var s1 := Take(s, p);
    assert s1.taken == [p];
    if s1.next == 0 {
      InnerToGap(sent, received, ring, 0, s1);
    } else {
      BehindWrapped(received, ring, p);
    }
  }

  /** From the entry at `p`, the only one due, a drain of an ascending ring goes to the
      gap even if it stands behind entries that have wrapped. */
  lemma DrainsFrom(sent: seq<Message>, received: nat, ring: seq<RxEntry>, p: nat)
    requires AllHold(sent, received, ring, WINDOW_MAX) && Distinct(ring) && p < |ring|
    requires ring[p].sequence == Sequence(received) && Ascends(received, ring, [p])
    requires forall k :: 0 <= k < p ==> ring[k].sequence < Sequence(received)
    requires forall k :: 0 <= k < |ring| && k != p ==> Ahead(Sequence(received), ring[k].sequence) != 0
    ensures AtGap(received, ring, OuterPass(ring, 0, Scan(Sequence(received), [])))
  {
    if p == 0 {
      FrontDrains(sent, received, ring);
    } else {
      var s := Scan(Sequence(received), []);
      OuterSkips(ring, 0, p, s);
      TakeReachesGap(sent, received, ring, p);
      GapStops(sent, received, ring, TakeOuter(ring, s, p), p + 1);
    }
  }

  /** The next message arrives at an ascending ring. */
  lemma NextArrives(sent: seq<Message>, rx: Receiver) returns (mid: Receiver)
    requires InOrder(sent, rx, WINDOW_MAX) && |rx.handled| < |sent| && Ascends(|rx.handled|, rx.ring, []) && NextMissing(rx)
    ensures Receive(rx, Copy(sent, |rx.handled|)) == Drain(mid)
    ensures InOrder(sent, mid, WINDOW_MAX) && mid.handled == rx.handled
    ensures forall x :: x in mid.ring <==> x in rx.ring || x == Copy(sent, |rx.handled|)
    ensures var s := OuterPass(mid.ring, 0, Scan(mid.next, []));
      AtGap(|rx.handled|, mid.ring, s) && |s.taken| > 0
  {
    var received, e := |rx.handled|, Copy(sent, |rx.handled|);
    AheadIsAccepted(received, received);
    NotDue(rx, received);
    RefusedIffFound(rx.ring, rx.next, e);
    PutInOrder(sent, rx, received, WINDOW_MAX);
    var p, ring' := Emplaced(rx.ring, rx.next, e);
    mid := rx.(ring := ring');
    PutAscends(received, rx.ring, ring', p);
    forall k | 0 <= k < |ring'| && k != p ensures ring'[k] == rx.ring[if k < p then k else k - 1] {}
    DrainsFrom(sent, received, ring', p);
    AheadOfNth(received, 0);
  }

  lemma NotDue(rx: Receiver, received: nat)
    requires rx.next == Sequence(received) && NextMissing(rx)
    ensures !Buffered(rx.ring, rx.next) && !Misplaced(rx.ring, rx.next, rx.next)
  {
  }

  lemma PutAscends(received: nat, ring: seq<RxEntry>, ring': seq<RxEntry>, p: nat)
    requires Ascends(received, ring, []) && p < |ring'| == |ring| + 1
    requires (forall k :: 0 <= k < p ==> ring'[k] == ring[k]) && (forall k :: p < k < |ring'| ==> ring'[k] == ring[k - 1])
    ensures Ascends(received, ring', [p])
  {
    forall a, b | 0 <= a < b < |ring'| && a != p && b != p
      ensures Ahead(Sequence(received), ring'[a].sequence) < Ahead(Sequence(received), ring'[b].sequence)
    {
      assert ring'[a] == ring[if a < p then a else a - 1] && ring'[b] == ring[if b < p then b else b - 1];
    }
  }

  // ----- runs whose arrivals wrap in order -----

  /** The first number from `from` on that has not been seen. */
  function Missing(seen: set<nat>, from: nat): (n: nat)
    ensures from <= n && n !in seen && forall k :: from <= k < n ==> k in seen
    decreases seen
  {
    if from in seen then Missing(seen - {from}, from + 1) else from
  }

  lemma MissingIs(seen: set<nat>, n: nat)
    requires n !in seen && forall k :: 0 <= k < n ==> k in seen
    ensures Missing(seen, 0) == n
  {
  }

  /** Timely; and while the window reaches past the modulus, what is new and not next
      comes after all that was seen. */
  predicate OrderlyArrival(seen: set<nat>, n: nat) {
    var next := Missing(seen, 0);
    && Timely(next, Sequence(next), n)
    && (next < n && n !in seen && Sequence(next) + WINDOW_MAX >= SEQ_MODULUS ==> forall k | k in seen :: k < n)
  }

  /** Said of the events alone, `count` messages sent and `seen` arrived before. */
  predicate OrderlyRun(count: nat, seen: set<nat>, evs: seq<Event>)
    decreases |evs|
  {
    evs != [] ==>
      match evs[0]
      case Send(_) => OrderlyRun(count + 1, seen, evs[1..])
      case Arrive(n) => n < count && OrderlyArrival(seen, n) && OrderlyRun(count, seen + {n}, evs[1..])
  }

  function Arrivals(evs: seq<Event>): set<nat> {
    if evs == [] then {} else (if evs[0].Arrive? then {evs[0].n} else {}) + Arrivals(evs[1..])
  }

  function Number(received: nat, e: RxEntry): nat { received + Ahead(Sequence(received), e.sequence) }

  /** Ring and seen messages agree. */
  ghost predicate SeenIn(sent: seq<Message>, received: nat, ring: seq<RxEntry>, seen: set<nat>) {
    && (forall e | e in ring :: Number(received, e) in seen)
    && (forall n | n in seen :: n < |sent| && n <= received + WINDOW_MAX)
    && (forall n {:trigger Copy(sent, n)} :: n in seen && received <= n ==> Copy(sent, n) in ring)
  }

  /** The receiver has handed out all up to the first message not seen, and buffers
      the rest in message order. */
  ghost predicate Tracks(w: Wire, seen: set<nat>) {
    var received := |w.rx.handled|;
    && Sound(w) && received == Missing(seen, 0) && Ascends(received, w.rx.ring, [])
    && SeenIn(w.sent, received, w.rx.ring, seen)
  }

  lemma TracksNext(w: Wire, seen: set<nat>)
    requires Tracks(w, seen)
    ensures NextMissing(w.rx)
  {
    forall k | 0 <= k < |w.rx.ring| ensures Ahead(w.rx.next, w.rx.ring[k].sequence) != 0 {
      assert w.rx.ring[k] in w.rx.ring;
    }
  }

  // ----- the next message arrives -----

  lemma {:induction false} KeptAscends(received: nat, ring: seq<RxEntry>, s: Scan, i: nat)
    requires i <= |ring| && Ascends(received, ring, s.taken)
    ensures Ascends(received, Kept(ring, s.taken, i), [])
    decreases |ring| - i
  {
    if i < |ring| {
      KeptAscends(received, ring, s, i + 1);
      if i !in s.taken {
        var rest := Kept(ring, s.taken, i + 1);
        forall k | 0 <= k < |rest|
          ensures Ahead(Sequence(received), ring[i].sequence) < Ahead(Sequence(received), rest[k].sequence)
        {
          var p := KeptFrom(ring, s.taken, i + 1, k);
        }
        assert Kept(ring, s.taken, i) == [ring[i]] + rest;
      }
    }
  }

  /** What a drain to the gap leaves is still numbered as it was, beyond the gap. */
  lemma KeptNumber(received: nat, ring: seq<RxEntry>, s: Scan, e: RxEntry)
    requires AtGap(received, ring, s) && e in Kept(ring, s.taken, 0)
    ensures e in ring && |s.taken| < Ahead(Sequence(received), e.sequence)
    ensures Number(received + |s.taken|, e) == Number(received, e)
  {
    var k :| 0 <= k < |Kept(ring, s.taken, 0)| && Kept(ring, s.taken, 0)[k] == e;
    var p := KeptFrom(ring, s.taken, 0, k);
    AheadAfter(received, |s.taken|, e.sequence);
  }

  lemma ShiftAscends(received: nat, count: nat, ring: seq<RxEntry>)
    requires Ascends(received, ring, []) && forall e | e in ring :: Number(received + count, e) == Number(received, e)
    ensures Ascends(received + count, ring, [])
  {
    forall a, b | 0 <= a < b < |ring|
      ensures Ahead(Sequence(received + count), ring[a].sequence) < Ahead(Sequence(received + count), ring[b].sequence)
    {
      assert ring[a] in ring && ring[b] in ring;
    }
  }

  /** The entries taken are of messages seen. */
  lemma TakenSeen(sent: seq<Message>, received: nat, ring: seq<RxEntry>, s: Scan, j: nat) returns (e: RxEntry)
    requires AllHold(sent, received, ring, WINDOW_MAX) && ScanOk(received, ring, s, WINDOW_MAX) && j < |s.taken|
    ensures e in ring && Number(received, e) == received + j
  {
    TakenMessage(sent, received, ring, s, WINDOW_MAX, j);
    e := ring[s.taken[j]];
  }

  /** No copy of the message at the gap is in the ring, so it has not been seen. */
  lemma GapUnseen(sent: seq<Message>, received: nat, ring: seq<RxEntry>, s: Scan, seen: set<nat>)
    requires AllHold(sent, received, ring, WINDOW_MAX) && Distinct(ring) && AtGap(received, ring, s) && |s.taken| > 0
    requires SeenIn(sent, received, ring, seen)
    ensures received + |s.taken| !in seen
  {
    var n := received + |s.taken|;
    if n in seen {
      var i :| 0 <= i < |ring| && ring[i] == Copy(sent, n);
      AheadOfNth(received, |s.taken|);
      DueIff(sent, received, ring, s, i);
    }
  }

  lemma GapIsMissing(sent: seq<Message>, received: nat, ring: seq<RxEntry>, s: Scan, seen: set<nat>)
    requires AllHold(sent, received, ring, WINDOW_MAX) && Distinct(ring) && AtGap(received, ring, s) && |s.taken| > 0
    requires SeenIn(sent, received, ring, seen) && forall k :: 0 <= k < received ==> k in seen
    ensures Missing(seen, 0) == received + |s.taken|
  {
    forall k | received <= k < received + |s.taken| ensures k in seen {
      var e := TakenSeen(sent, received, ring, s, k - received);
    }
    GapUnseen(sent, received, ring, s, seen);
    MissingIs(seen, received + |s.taken|);
  }

  /** What a drain to the gap leaves. */
  lemma GapLeaves(sent: seq<Message>, received: nat, ring: seq<RxEntry>, s: Scan, seen: set<nat>)
    requires AtGap(received, ring, s) && AllHold(sent, received, ring, WINDOW_MAX)
    requires SeenIn(sent, received, ring, seen)
    ensures Ascends(received + |s.taken|, Kept(ring, s.taken, 0), [])
    ensures SeenIn(sent, received + |s.taken|, Kept(ring, s.taken, 0), seen)
  {
    KeptAscends(received, ring, s, 0);
    KeptNumbers(received, ring, s);
    ShiftAscends(received, |s.taken|, Kept(ring, s.taken, 0));
    StillHeld(sent, received, ring, s, seen);
  }

  /** A drain to the gap, seen as the receiver's new state. */
  lemma DrainTracks(sent: seq<Message>, mid: Receiver, s: Scan, seen: set<nat>)
    requires s == OuterPass(mid.ring, 0, Scan(mid.next, [])) && AtGap(|mid.handled|, mid.ring, s)
    requires InOrder(sent, mid, WINDOW_MAX) && |s.taken| > 0
    requires SeenIn(sent, |mid.handled|, mid.ring, seen) && forall k :: 0 <= k < |mid.handled| ==> k in seen
    ensures Tracks(Wire(sent, Drain(mid)), seen)
  {
    assert Drain(mid).ring == Kept(mid.ring, s.taken, 0) && |Drain(mid).handled| == |mid.handled| + |s.taken|;
    assert Sound(Wire(sent, Drain(mid))) by { DrainInOrder(sent, mid, WINDOW_MAX); }
    GapIsMissing(sent, |mid.handled|, mid.ring, s, seen);
    GapLeaves(sent, |mid.handled|, mid.ring, s, seen);
  }

  lemma KeptNumbers(received: nat, ring: seq<RxEntry>, s: Scan)
    requires AtGap(received, ring, s)
    ensures forall e | e in Kept(ring, s.taken, 0) :: e in ring && Number(received + |s.taken|, e) == Number(received, e)
  {
    forall e | e in Kept(ring, s.taken, 0) ensures e in ring && Number(received + |s.taken|, e) == Number(received, e) {
      KeptNumber(received, ring, s, e);
    }
  }

  lemma StillHeld(sent: seq<Message>, received: nat, ring: seq<RxEntry>, s: Scan, seen: set<nat>)
    requires ScanOk(received, ring, s, WINDOW_MAX) && AllHold(sent, received, ring, WINDOW_MAX)
    requires SeenIn(sent, received, ring, seen)
    ensures forall n {:trigger Copy(sent, n)} :: n in seen && received + |s.taken| <= n ==> Copy(sent, n) in Kept(ring, s.taken, 0)
  {
    forall n | n in seen && n >= received + |s.taken| ensures Copy(sent, n) in Kept(ring, s.taken, 0) {
      AheadOfNth(received, n - received);
      NothingLost(sent, received, ring, s, WINDOW_MAX, Copy(sent, n));
    }
  }

  lemma NextTracks(w: Wire, seen: set<nat>)
    requires Tracks(w, seen) && |w.rx.handled| < |w.sent|
    ensures Tracks(Step(w, Arrive(|w.rx.handled|)), seen + {|w.rx.handled|})
  {
    var received := |w.rx.handled|;
    TracksNext(w, seen);
    var mid := NextArrives(w.sent, w.rx);
    NextSeen(w.sent, received, w.rx.ring, mid.ring, seen);
    DrainTracks(w.sent, mid, OuterPass(mid.ring, 0, Scan(mid.next, [])), seen + {received});
  }

  lemma NextSeen(sent: seq<Message>, received: nat, ring: seq<RxEntry>, ring': seq<RxEntry>, seen: set<nat>)
    requires SeenIn(sent, received, ring, seen) && received < |sent|
    requires forall x :: x in ring' <==> x in ring || x == Copy(sent, received)
    ensures SeenIn(sent, received, ring', seen + {received})
  {
    AheadOfNth(received, 0);
  }

  // ----- another message arrives -----

  lemma UnseenIsNew(sent: seq<Message>, received: nat, ring: seq<RxEntry>, seen: set<nat>, n: nat)
    requires SeenIn(sent, received, ring, seen) && n !in seen && received <= n <= received + WINDOW_MAX
    ensures !Buffered(ring, Sequence(n))
  {
    AheadOfNth(received, n - received);
    forall k | 0 <= k < |ring| ensures ring[k].sequence != Sequence(n) { assert ring[k] in ring; }
  }

  /** Clear of the modulus the scan sorts by message. */
  lemma ClearSorts(sent: seq<Message>, received: nat, ring: seq<RxEntry>, n: nat, k: nat)
    requires AllHold(sent, received, ring, WINDOW_MAX) && k < |ring| && received <= n <= received + WINDOW_MAX
    requires Sequence(received) + WINDOW_MAX < SEQ_MODULUS && ring[k].sequence != Sequence(n)
    ensures GoesBefore(Sequence(received), Sequence(n), ring[k].sequence)
      <==> n - received < Ahead(Sequence(received), ring[k].sequence)
    ensures Ahead(Sequence(received), ring[k].sequence) != n - received
  {
    assert Holds(sent, received, ring[k], WINDOW_MAX);
    SequenceOfAhead(received, ring[k].sequence);
    assert Sequence(n) == Sequence(received) + (n - received);
    assert ring[k].sequence == Sequence(received) + Ahead(Sequence(received), ring[k].sequence);
  }

  /** Where a new entry is put, and what is on either side of it. */
  ghost predicate SortsIn(received: nat, ring: seq<RxEntry>, n: nat, p: nat) {
    && received <= n && p <= |ring|
    && (forall k :: 0 <= k < p ==> Ahead(Sequence(received), ring[k].sequence) < n - received)
    && (forall k :: p <= k < |ring| ==> n - received < Ahead(Sequence(received), ring[k].sequence))
  }

  lemma ClearPlace(sent: seq<Message>, received: nat, ring: seq<RxEntry>, n: nat)
    requires AllHold(sent, received, ring, WINDOW_MAX) && Ascends(received, ring, []) && received <= n <= received + WINDOW_MAX
    requires Sequence(received) + WINDOW_MAX < SEQ_MODULUS && !Buffered(ring, Sequence(n))
    requires EmplaceAt(ring, Sequence(received), Sequence(n), 0).Some?
    ensures SortsIn(received, ring, n, EmplaceAt(ring, Sequence(received), Sequence(n), 0).value)
  {
    EmplaceAtSome(ring, Sequence(received), Sequence(n), 0);
    var p := EmplaceAt(ring, Sequence(received), Sequence(n), 0).value;
    forall k | 0 <= k < |ring|
      ensures GoesBefore(Sequence(received), Sequence(n), ring[k].sequence)
        <==> n - received < Ahead(Sequence(received), ring[k].sequence)
      ensures Ahead(Sequence(received), ring[k].sequence) != n - received
    {
      ClearSorts(sent, received, ring, n, k);
    }
  }

  /** After everything buffered, a new entry goes to the end wherever the window is. */
  lemma LastPlace(sent: seq<Message>, received: nat, ring: seq<RxEntry>, n: nat)
    requires AllHold(sent, received, ring, WINDOW_MAX) && received <= n <= received + WINDOW_MAX
    requires forall k :: 0 <= k < |ring| ==> Ahead(Sequence(received), ring[k].sequence) < n - received
    requires EmplaceAt(ring, Sequence(received), Sequence(n), 0).Some?
    ensures SortsIn(received, ring, n, EmplaceAt(ring, Sequence(received), Sequence(n), 0).value)
  {
    EmplaceAtSome(ring, Sequence(received), Sequence(n), 0);
    var p := EmplaceAt(ring, Sequence(received), Sequence(n), 0).value;
    AheadOfNth(received, n - received);
    if p < |ring| {
      assert Holds(sent, received, ring[p], WINDOW_MAX);
      SmallerSequence(Sequence(received), Sequence(n), ring[p].sequence);
    }
  }

  lemma InsertAscends(received: nat, ring: seq<RxEntry>, n: nat, p: nat, e: RxEntry)
    requires Ascends(received, ring, []) && SortsIn(received, ring, n, p) && e.sequence == Sequence(n)
    requires n <= received + WINDOW_MAX
    ensures Ascends(received, ring[..p] + [e] + ring[p..], [])
  {
    var ring' := ring[..p] + [e] + ring[p..];
    AheadOfNth(received, n - received);
    PutAscends(received, ring, ring', p);
    forall a, b | 0 <= a < b < |ring'| ensures Ahead(Sequence(received), ring'[a].sequence) < Ahead(Sequence(received), ring'[b].sequence) {
      if a == p { assert ring'[b] == ring[b - 1]; } else if b == p { assert ring'[a] == ring[a]; }
    }
  }

  lemma InsertSeen(sent: seq<Message>, received: nat, ring: seq<RxEntry>, n: nat, p: nat, seen: set<nat>)
    requires SeenIn(sent, received, ring, seen) && p <= |ring| && received <= n < |sent| && n <= received + WINDOW_MAX
    ensures SeenIn(sent, received, ring[..p] + [Copy(sent, n)] + ring[p..], seen + {n})
  {
    var e := Copy(sent, n);
    var ring' := ring[..p] + [e] + ring[p..];
    AheadOfNth(received, n - received);
    assert ring == ring[..p] + ring[p..];
    assert forall x :: x in ring' <==> x in ring || x == e;
  }

  /** A new message that is not next is put where it belongs and waits there. */
  lemma LaterTracks(w: Wire, seen: set<nat>, n: nat)
    requires Tracks(w, seen) && OrderlyArrival(seen, n) && |w.rx.handled| < n < |w.sent| && n !in seen
    ensures Tracks(Step(w, Arrive(n)), seen + {n})
  {
    var received, ring, e := |w.rx.handled|, w.rx.ring, Copy(w.sent, n);
    UnseenIsNew(w.sent, received, ring, seen, n);
    LaterPlace(w, seen, n);
    var p := EmplaceAt(ring, w.rx.next, Sequence(n), 0).value;
    AheadIsAccepted(received, n);
    TracksNext(w, seen);
    NotFirst(received, ring, n);
    BufferedOnly(w.rx, e, p);
    ArrivalExact(w.sent, w.rx, n);
    InsertAscends(received, ring, n, p, e);
    InsertSeen(w.sent, received, ring, n, p, seen);
    MissingIs(seen + {n}, received);
  }

  lemma NotFirst(received: nat, ring: seq<RxEntry>, n: nat)
    requires received < n <= received + WINDOW_MAX
    requires forall k :: 0 <= k < |ring| ==> Ahead(Sequence(received), ring[k].sequence) != 0
    ensures Sequence(n) != Sequence(received) && forall x | x in ring :: x.sequence != Sequence(received)
  {
    AheadOfNth(received, n - received);
    AheadOfNth(received, 0);
  }

  lemma LaterPlace(w: Wire, seen: set<nat>, n: nat)
    requires Tracks(w, seen) && OrderlyArrival(seen, n) && |w.rx.handled| < n < |w.sent| && n !in seen
    requires !Buffered(w.rx.ring, Sequence(n))
    ensures var at := EmplaceAt(w.rx.ring, w.rx.next, Sequence(n), 0);
      at.Some? && at.value <= |w.rx.ring| && SortsIn(|w.rx.handled|, w.rx.ring, n, at.value)
  {
    var received, ring := |w.rx.handled|, w.rx.ring;
    RefusedIffFound(ring, w.rx.next, Copy(w.sent, n));
    EmplaceAtBounds(ring, w.rx.next, Sequence(n), 0);
    if Sequence(received) + WINDOW_MAX < SEQ_MODULUS {
      ClearPlace(w.sent, received, ring, n);
    } else {
      forall k | 0 <= k < |ring| ensures Ahead(Sequence(received), ring[k].sequence) < n - received {
        assert Number(received, ring[k]) in seen;
      }
      LastPlace(w.sent, received, ring, n);
    }
  }

  /** A copy of a message seen changes nothing. */
  lemma AgainTracks(w: Wire, seen: set<nat>, n: nat)
    requires Tracks(w, seen) && OrderlyArrival(seen, n) && n in seen
    ensures Step(w, Arrive(n)) == w && Admissible(w, Arrive(n))
  {
    var received := |w.rx.handled|;
    if n < received {
      LateIsRejected(received, n);
    } else {
      assert Copy(w.sent, n) in w.rx.ring;
      OrderedNeverMisplaces(w.sent, w.rx, n);
      RefusedIffFound(w.rx.ring, w.rx.next, Copy(w.sent, n));
    }
  }

  lemma NewIsAdmissible(w: Wire, seen: set<nat>, n: nat)
    requires Tracks(w, seen) && OrderlyArrival(seen, n) && n !in seen
    ensures Admissible(w, Arrive(n))
  {
    UnseenIsNew(w.sent, |w.rx.handled|, w.rx.ring, seen, n);
  }

  lemma ArrivalTracks(w: Wire, seen: set<nat>, n: nat)
    requires Tracks(w, seen) && OrderlyArrival(seen, n) && n < |w.sent|
    ensures Admissible(w, Arrive(n)) && Tracks(Step(w, Arrive(n)), seen + {n})
  {
    if n in seen {
      AgainTracks(w, seen, n);
      assert seen + {n} == seen;
    } else {
      NewIsAdmissible(w, seen, n);
      if n == |w.rx.handled| { NextTracks(w, seen); } else { LaterTracks(w, seen, n); }
    }
  }

  lemma SendTracks(w: Wire, seen: set<nat>, m: Message)
    requires Tracks(w, seen)
    ensures Tracks(Step(w, Send(m)), seen)
  {
    MoreSent(w.sent, w.rx, m, WINDOW_MAX);
    var sent' := w.sent + [m];
    forall n {:trigger Copy(sent', n)} | n in seen && |w.rx.handled| <= n ensures Copy(sent', n) in w.rx.ring {
      assert Copy(w.sent, n) in w.rx.ring && Copy(sent', n) == Copy(w.sent, n);
    }
  }

  lemma {:induction false} RunTracks(w: Wire, seen: set<nat>, evs: seq<Event>)
    requires Tracks(w, seen) && OrderlyRun(|w.sent|, seen, evs)
    ensures TimelyRun(w, evs) && AdmissibleRun(w, evs) && Tracks(Run(w, evs), seen + Arrivals(evs))
    decreases |evs|
  {
    if evs == [] {
      assert seen + Arrivals(evs) == seen;
    } else {
      var more := if evs[0].Arrive? then {evs[0].n} else {};
      match evs[0] {
        case Send(m) => SendTracks(w, seen, m);
        case Arrive(n) => ArrivalTracks(w, seen, n);
      }
      assert seen + more == (if evs[0].Arrive? then seen + {evs[0].n} else seen);
      RunTracks(Step(w, evs[0]), seen + more, evs[1..]);
      assert seen + more + Arrivals(evs[1..]) == seen + Arrivals(evs);
    }
  }

  /** Across any number of wraps, with a condition on the arrivals alone: if they are
      timely and new messages come in order while the window wraps, no arrival is
      misplaced, and what has been handed out is exactly everything up to the first
      message that has not arrived. */
  lemma OrderlyDelivers(evs: seq<Event>)
    requires OrderlyRun(0, {}, evs)
    ensures TimelyRun(Wire([], Initial), evs) && AdmissibleRun(Wire([], Initial), evs)
    ensures var w, missing := Run(Wire([], Initial), evs), Missing(Arrivals(evs), 0);
      missing <= |w.sent| && w.rx.handled == w.sent[..missing]
  {
    RunTracks(Wire([], Initial), {}, evs);
    assert {} + Arrivals(evs) == Arrivals(evs);
  }
}
