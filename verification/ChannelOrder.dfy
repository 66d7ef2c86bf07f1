/** What the receiver's bookkeeping means: message number n travels under the
    sequence n % 65536, and the ring holds copies of undelivered messages. */
module ChannelOrder {
  import opened Bytes
  import opened ChannelReceiver

  function Sequence(n: nat): nat { n % SEQ_MODULUS }

  /** How far `sequence` lies ahead of `next`, going round the modulus. */
  function Ahead(next: nat, sequence: nat): nat { (sequence - next) % SEQ_MODULUS }

  function Copy(sent: seq<Message>, n: nat): RxEntry
    requires n < |sent|
  {
    RxEntry(Sequence(n), sent[n])
  }

  ghost predicate Distinct(ring: seq<RxEntry>) {
    forall i, j :: 0 <= i < j < |ring| ==> ring[i].sequence != ring[j].sequence
  }

  /** `e` is a copy of an undelivered message at most `reach` ahead. */
  ghost predicate Holds(sent: seq<Message>, received: nat, e: RxEntry, reach: nat) {
    var d := Ahead(Sequence(received), e.sequence);
    e.sequence < SEQ_MODULUS && d <= reach && received + d < |sent| && e.message == sent[received + d]
  }

  ghost predicate AllHold(sent: seq<Message>, received: nat, ring: seq<RxEntry>, reach: nat) {
    forall k :: 0 <= k < |ring| ==> Holds(sent, received, ring[k], reach)
  }

  /** The receiver's invariant: a prefix is delivered, and every buffered entry
      is a copy of a message still to come, each sequence at most once. */
  ghost predicate InOrder(sent: seq<Message>, rx: Receiver, reach: nat) {
    var received := |rx.handled|;
    && received <= |sent| && rx.handled == sent[..received]
    && rx.next == Sequence(received)
    && Distinct(rx.ring)
    && AllHold(sent, received, rx.ring, reach)
  }

  // ----- the insertion scan -----

  /** The scan would stop in front of a larger entry although the sequence is
      already buffered further on. */
  ghost predicate Misplaced(ring: seq<RxEntry>, next: nat, sequence: nat) {
    exists i, j :: 0 <= i < j < |ring| && ring[j].sequence == sequence && GoesBefore(next, sequence, ring[i].sequence)
  }

  ghost predicate Buffered(ring: seq<RxEntry>, sequence: nat) {
    exists j :: 0 <= j < |ring| && ring[j].sequence == sequence
  }

  lemma {:induction false} EmplaceAtSome(ring: seq<RxEntry>, next: nat, sequence: nat, i: nat)
    requires i <= |ring| && EmplaceAt(ring, next, sequence, i).Some?
    ensures var p := EmplaceAt(ring, next, sequence, i).value;
      && i <= p <= |ring|
      && (forall k :: i <= k < p ==> ring[k].sequence != sequence && !GoesBefore(next, sequence, ring[k].sequence))
      && (p < |ring| ==> GoesBefore(next, sequence, ring[p].sequence))
    decreases |ring| - i
  {
    if i < |ring| && !GoesBefore(next, sequence, ring[i].sequence) { EmplaceAtSome(ring, next, sequence, i + 1); }
  }

  lemma {:induction false} EmplaceAtNone(ring: seq<RxEntry>, next: nat, sequence: nat, i: nat) returns (j: nat)
    requires i <= |ring| && EmplaceAt(ring, next, sequence, i).None?
    ensures i <= j < |ring| && ring[j].sequence == sequence
    ensures forall k :: i <= k < j ==> !GoesBefore(next, sequence, ring[k].sequence)
    decreases |ring| - i
  {
    if ring[i].sequence == sequence { j := i; } else { j := EmplaceAtNone(ring, next, sequence, i + 1); }
  }

  /** Deduplication is exact up to `Misplaced`: a copy of a buffered sequence is
      refused if and only if the scan reaches it. */
  lemma RefusedIffFound(ring: seq<RxEntry>, next: nat, e: RxEntry)
    requires Distinct(ring)
    ensures Emplace(ring, next, e).None? <==> Buffered(ring, e.sequence) && !Misplaced(ring, next, e.sequence)
  {
    if EmplaceAt(ring, next, e.sequence, 0).Some? {
      EmplaceAtSome(ring, next, e.sequence, 0);
    } else {
      var j := EmplaceAtNone(ring, next, e.sequence, 0);
    }
  }

  /** Where `e` stands in the ring it was put into, and where the others went. */
  lemma Emplaced(ring: seq<RxEntry>, next: nat, e: RxEntry) returns (p: nat, ring': seq<RxEntry>)
    requires Emplace(ring, next, e).Some?
    ensures ring' == Emplace(ring, next, e).value && |ring'| == |ring| + 1
    ensures p <= |ring| && ring'[p] == e
    ensures forall k :: 0 <= k < p ==> ring'[k] == ring[k]
    ensures forall k :: p < k <= |ring| ==> ring'[k] == ring[k - 1]
    ensures forall k :: 0 <= k < |ring| ==> ring[k] == ring'[if k < p then k else k + 1]
    ensures forall k :: 0 <= k < p ==> ring[k].sequence != e.sequence && !GoesBefore(next, e.sequence, ring[k].sequence)
    ensures p < |ring| ==> GoesBefore(next, e.sequence, ring[p].sequence)
  {
    EmplaceAtSome(ring, next, e.sequence, 0);
    p := EmplaceAt(ring, next, e.sequence, 0).value;
    ring' := Emplace(ring, next, e).value;
  }

  lemma EmplacedHolds(sent: seq<Message>, received: nat, ring: seq<RxEntry>, next: nat, e: RxEntry, reach: nat)
    requires AllHold(sent, received, ring, reach) && Holds(sent, received, e, reach)
    requires Emplace(ring, next, e).Some?
    ensures AllHold(sent, received, Emplace(ring, next, e).value, reach)
    ensures forall x :: x in ring || x == e ==> x in Emplace(ring, next, e).value
  {
    var p, ring' := Emplaced(ring, next, e);
  }

  /** Insertion keeps sequences distinct exactly when it is not misplaced. */
  lemma EmplacedDistinct(ring: seq<RxEntry>, next: nat, e: RxEntry)
    requires Distinct(ring) && Emplace(ring, next, e).Some?
    ensures Distinct(Emplace(ring, next, e).value) <==> !Misplaced(ring, next, e.sequence)
  {
    RefusedIffFound(ring, next, e);
    var p, ring' := Emplaced(ring, next, e);
    if Misplaced(ring, next, e.sequence) {
      var i, j :| 0 <= i < j < |ring| && ring[j].sequence == e.sequence && GoesBefore(next, e.sequence, ring[i].sequence);
      assert ring'[j + 1] == ring[j];
    }
  }

  // ----- the drain -----

  ghost predicate ScanOk(received: nat, ring: seq<RxEntry>, s: Scan, reach: nat) {
    && s.next == Sequence(received + |s.taken|)
    && |s.taken| <= reach + 1
    && InRange(ring, s)
    && forall j :: 0 <= j < |s.taken| ==> ring[s.taken[j]].sequence == Sequence(received + j)
  }

  lemma AheadOfNth(received: nat, j: nat)
    requires j < SEQ_MODULUS
    ensures Ahead(Sequence(received), Sequence(received + j)) == j
  {
  }

  lemma TakeOk(sent: seq<Message>, received: nat, ring: seq<RxEntry>, s: Scan, i: nat, reach: nat)
    requires AllHold(sent, received, ring, reach) && reach + 1 < SEQ_MODULUS
    requires ScanOk(received, ring, s, reach) && i < |ring| && ring[i].sequence == s.next
    ensures ScanOk(received, ring, Take(s, i), reach)
  {
    AheadOfNth(received, |s.taken|);
    assert Holds(sent, received, ring[i], reach);
  }

  lemma {:induction false} InnerPassOk(sent: seq<Message>, received: nat, ring: seq<RxEntry>, j: nat, s: Scan, reach: nat)
    requires AllHold(sent, received, ring, reach) && reach + 1 < SEQ_MODULUS
    requires ScanOk(received, ring, s, reach) && j <= |ring|
    ensures ScanOk(received, ring, InnerPass(ring, j, s), reach)
    decreases |ring| - j
  {
    if j < |ring| {
      if ring[j].sequence == s.next { TakeOk(sent, received, ring, s, j, reach); }
      InnerPassOk(sent, received, ring, j + 1, if ring[j].sequence == s.next then Take(s, j) else s, reach);
    }
  }

  lemma {:induction false} OuterPassOk(sent: seq<Message>, received: nat, ring: seq<RxEntry>, i: nat, s: Scan, reach: nat)
    requires AllHold(sent, received, ring, reach) && reach + 1 < SEQ_MODULUS
    requires ScanOk(received, ring, s, reach) && i <= |ring|
    ensures ScanOk(received, ring, OuterPass(ring, i, s), reach)
    decreases |ring| - i
  {
    if i < |ring| {
      if ring[i].sequence == s.next {
        TakeOk(sent, received, ring, s, i, reach);
        InnerPassOk(sent, received, ring, 0, Take(s, i), reach);
      }
      OuterPassOk(sent, received, ring, i + 1, if ring[i].sequence == s.next then TakeOuter(ring, s, i) else s, reach);
    }
  }

  lemma {:induction false} KeptFrom(ring: seq<RxEntry>, taken: seq<nat>, i: nat, k: nat) returns (p: nat)
    requires i <= |ring| && k < |Kept(ring, taken, i)|
    ensures i <= p < |ring| && p !in taken && ring[p] == Kept(ring, taken, i)[k]
    decreases |ring| - i
  {
    if i in taken { p := KeptFrom(ring, taken, i + 1, k); }
    else if k == 0 { p := i; }
    else { p := KeptFrom(ring, taken, i + 1, k - 1); }
  }

  lemma {:induction false} KeptDistinct(ring: seq<RxEntry>, taken: seq<nat>, i: nat)
    requires i <= |ring| && Distinct(ring)
    ensures Distinct(Kept(ring, taken, i))
    decreases |ring| - i
  {
    if i < |ring| {
      KeptDistinct(ring, taken, i + 1);
      if i !in taken {
        var rest := Kept(ring, taken, i + 1);
        forall k | 0 <= k < |rest| ensures ring[i].sequence != rest[k].sequence {
          var p := KeptFrom(ring, taken, i + 1, k);
        }
      }
    }
  }

  lemma {:induction false} KeptAll(ring: seq<RxEntry>, taken: seq<nat>, i: nat, p: nat)
    requires i <= p < |ring| && p !in taken
    ensures ring[p] in Kept(ring, taken, i)
    decreases |ring| - i
  {
    if i < p { KeptAll(ring, taken, i + 1, p); }
  }

  lemma SequenceOfAhead(received: nat, sequence: nat)
    requires sequence < SEQ_MODULUS
    ensures Sequence(received + Ahead(Sequence(received), sequence)) == sequence
  {
  }

  lemma Untaken(sent: seq<Message>, received: nat, ring: seq<RxEntry>, s: Scan, p: nat, reach: nat)
    requires AllHold(sent, received, ring, reach) && Distinct(ring)
    requires ScanOk(received, ring, s, reach) && p < |ring| && p !in s.taken
    ensures |s.taken| <= Ahead(Sequence(received), ring[p].sequence)
  {
    var d := Ahead(Sequence(received), ring[p].sequence);
    assert Holds(sent, received, ring[p], reach);
    SequenceOfAhead(received, ring[p].sequence);
    if d < |s.taken| { TakenIs(received, ring, s, d, p, reach); }
  }

  lemma TakenIs(received: nat, ring: seq<RxEntry>, s: Scan, d: nat, p: nat, reach: nat)
    requires Distinct(ring) && ScanOk(received, ring, s, reach)
    requires d < |s.taken| && p < |ring| && ring[p].sequence == Sequence(received + d)
    ensures s.taken[d] == p
  {
  }

  /** An entry the drain leaves behind is still a copy of a message to come. */
  lemma UntakenHolds(sent: seq<Message>, received: nat, ring: seq<RxEntry>, s: Scan, p: nat, reach: nat)
    requires AllHold(sent, received, ring, reach) && reach + 1 < SEQ_MODULUS && Distinct(ring)
    requires ScanOk(received, ring, s, reach) && p < |ring| && p !in s.taken
    ensures Holds(sent, received + |s.taken|, ring[p], reach)
  {
    Untaken(sent, received, ring, s, p, reach);
    assert Holds(sent, received, ring[p], reach);
    AheadAfter(received, |s.taken|, ring[p].sequence);
  }

  lemma AheadAfter(received: nat, count: nat, sequence: nat)
    requires count <= Ahead(Sequence(received), sequence)
    ensures Ahead(Sequence(received + count), sequence) == Ahead(Sequence(received), sequence) - count
  {
  }

  /** The messages taken are the next ones sent. */
  lemma TakenMessage(sent: seq<Message>, received: nat, ring: seq<RxEntry>, s: Scan, reach: nat, j: nat)
    requires AllHold(sent, received, ring, reach) && reach + 1 < SEQ_MODULUS
    requires ScanOk(received, ring, s, reach) && j < |s.taken|
    ensures received + j < |sent| && ring[s.taken[j]].message == sent[received + j]
    ensures Ahead(Sequence(received), ring[s.taken[j]].sequence) == j
  {
    AheadOfNth(received, j);
    assert Holds(sent, received, ring[s.taken[j]], reach);
  }

  lemma DeliveredPrefix(sent: seq<Message>, rx: Receiver, s: Scan, reach: nat)
    requires InOrder(sent, rx, reach) && reach + 1 < SEQ_MODULUS
    requires ScanOk(|rx.handled|, rx.ring, s, reach)
    ensures |rx.handled| + |s.taken| <= |sent|
    ensures rx.handled + Messages(rx.ring, s.taken) == sent[..|rx.handled| + |s.taken|]
  {
    var received := |rx.handled|;
    forall j | 0 <= j < |s.taken|
      ensures received + j < |sent| && rx.ring[s.taken[j]].message == sent[received + j]
    {
      TakenMessage(sent, received, rx.ring, s, reach, j);
    }
    if |s.taken| > 0 { TakenMessage(sent, received, rx.ring, s, reach, |s.taken| - 1); }
  }

  lemma KeptHolds(sent: seq<Message>, received: nat, ring: seq<RxEntry>, s: Scan, reach: nat)
    requires AllHold(sent, received, ring, reach) && reach + 1 < SEQ_MODULUS && Distinct(ring)
    requires ScanOk(received, ring, s, reach)
    ensures AllHold(sent, received + |s.taken|, Kept(ring, s.taken, 0), reach)
  {
    var kept := Kept(ring, s.taken, 0);
    forall k | 0 <= k < |kept| ensures Holds(sent, received + |s.taken|, kept[k], reach) {
      var p := KeptFrom(ring, s.taken, 0, k);
      UntakenHolds(sent, received, ring, s, p, reach);
    }
  }

  lemma NothingLost(sent: seq<Message>, received: nat, ring: seq<RxEntry>, s: Scan, reach: nat, e: RxEntry)
    requires AllHold(sent, received, ring, reach) && reach + 1 < SEQ_MODULUS
    requires ScanOk(received, ring, s, reach) && e in ring
    ensures e in Kept(ring, s.taken, 0) || Ahead(Sequence(received), e.sequence) < |s.taken|
  {
    var p :| 0 <= p < |ring| && ring[p] == e;
    if p in s.taken {
      var j :| 0 <= j < |s.taken| && s.taken[j] == p;
      TakenMessage(sent, received, ring, s, reach, j);
    } else {
      KeptAll(ring, s.taken, 0, p);
    }
  }

  /** Draining keeps the invariant, loses nothing and delivers in order. */
  lemma DrainInOrder(sent: seq<Message>, rx: Receiver, reach: nat)
    requires InOrder(sent, rx, reach) && reach + 1 < SEQ_MODULUS
    ensures InOrder(sent, Drain(rx), reach)
    ensures |rx.handled| <= |Drain(rx).handled|
    ensures forall e | e in rx.ring ::
      e in Drain(rx).ring || Ahead(Sequence(|rx.handled|), e.sequence) < |Drain(rx).handled| - |rx.handled|
  {
    var received := |rx.handled|;
    var s := OuterPass(rx.ring, 0, Scan(rx.next, []));
    OuterPassOk(sent, received, rx.ring, 0, Scan(rx.next, []), reach);
    DeliveredPrefix(sent, rx, s, reach);
    KeptDistinct(rx.ring, s.taken, 0);
    KeptHolds(sent, received, rx.ring, s, reach);
    forall e | e in rx.ring
      ensures e in Drain(rx).ring || Ahead(Sequence(received), e.sequence) < |s.taken|
    {
      NothingLost(sent, received, rx.ring, s, reach, e);
    }
  }
}
