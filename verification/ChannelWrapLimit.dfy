/** A run in which every copy is timely and yet one message is replaced by
    another: two copies wrap in the wrong order, the first is sent again, and
    the extra entry is handed out one whole wrap later. */
module ChannelWrapLimit {
  import opened Bytes
  import opened ChannelReceiver
  import opened ChannelOrder
  import opened ChannelWrap

  lemma {:induction false} RunAppend(w: Wire, a: seq<Event>, b: seq<Event>)
    ensures Run(w, a + b) == Run(Run(w, a), b)
    ensures TimelyRun(w, a + b) <==> TimelyRun(w, a) && TimelyRun(Run(w, a), b)
    decreases |a|
  {
    if a == [] {
      assert a + b == b;
    } else {
      assert (a + b)[0] == a[0] && (a + b)[1..] == a[1..] + b;
      RunAppend(Step(w, a[0]), a[1..], b);
    }
  }

  /** Arrivals of messages `from` up to, not including, `end`, in order. */
  function InTurn(from: nat, end: nat): seq<Event>
    requires from <= end
  {
    seq(end - from, k requires 0 <= k < end - from => Arrive(from + k))
  }

  // ----- single arrivals on small rings -----

  /** The entry at `p` is due and no other, nor is any due after it. */
  lemma DrainOne(mid: Receiver, p: nat)
    requires p < |mid.ring| && mid.ring[p].sequence == mid.next < SEQ_MODULUS
    requires forall k :: 0 <= k < |mid.ring| && k != p ==>
      mid.ring[k].sequence != mid.next && mid.ring[k].sequence != (mid.next + 1) % SEQ_MODULUS
    ensures Drain(mid) == Receiver(mid.ring[..p] + mid.ring[p + 1..], (mid.next + 1) % SEQ_MODULUS,
                                   mid.handled + [mid.ring[p].message])
  {
    OneDue(mid.ring, p, mid.next, 0);
    assert OuterPass(mid.ring, 0, Scan(mid.next, [])) == Scan((mid.next + 1) % SEQ_MODULUS, [p]);
    KeptOne(mid.ring, p, 0);
    assert Messages(mid.ring, [p]) == [mid.ring[p].message];
  }

  /** The next message arrives and nothing buffered follows it. */
  lemma NextInLine(rx: Receiver, e: RxEntry)
    requires e.sequence == rx.next < SEQ_MODULUS
    requires forall x | x in rx.ring :: x.sequence != rx.next && x.sequence != (rx.next + 1) % SEQ_MODULUS
    ensures Receive(rx, e) == Receiver(rx.ring, (rx.next + 1) % SEQ_MODULUS, rx.handled + [e.message])
  {
    var p := EmplaceAt(rx.ring, rx.next, e.sequence, 0);
    RefusedByEquals(rx.ring, rx.next, e.sequence);
    EmplaceAtSome(rx.ring, rx.next, e.sequence, 0);
    var ring := rx.ring[..p.value] + [e] + rx.ring[p.value..];
    forall k | 0 <= k < |ring| && k != p.value ensures ring[k] in rx.ring {
      assert ring[k] == rx.ring[if k < p.value then k else k - 1];
    }
    DrainOne(rx.(ring := ring), p.value);
    assert ring[..p.value] + ring[p.value + 1..] == rx.ring;
  }

  lemma RefusedByEquals(ring: seq<RxEntry>, next: nat, sequence: nat)
    requires forall x | x in ring :: x.sequence != sequence
    ensures EmplaceAt(ring, next, sequence, 0).Some?
  {
    if EmplaceAt(ring, next, sequence, 0).None? { var j := EmplaceAtNone(ring, next, sequence, 0); }
  }

  lemma {:induction false} NoneDueInner(ring: seq<RxEntry>, j: nat, s: Scan)
    requires j <= |ring| && forall k :: j <= k < |ring| ==> ring[k].sequence != s.next
    ensures InnerPass(ring, j, s) == s
    decreases |ring| - j
  {
    if j < |ring| { NoneDueInner(ring, j + 1, s); }
  }

  lemma {:induction false} NoneDue(ring: seq<RxEntry>, i: nat, s: Scan)
    requires i <= |ring| && forall k :: i <= k < |ring| ==> ring[k].sequence != s.next
    ensures OuterPass(ring, i, s) == s
    decreases |ring| - i
  {
    if i < |ring| { NoneDue(ring, i + 1, s); }
  }

  /** Only the entry at `p` is due, and nothing is due after it. */
  lemma {:induction false} OneDue(ring: seq<RxEntry>, p: nat, next: nat, i: nat)
    requires i <= p < |ring| && next < SEQ_MODULUS && ring[p].sequence == next
    requires forall k :: 0 <= k < |ring| && k != p ==> ring[k].sequence != next
    requires forall k :: 0 <= k < |ring| ==> ring[k].sequence != (next + 1) % SEQ_MODULUS
    ensures OuterPass(ring, i, Scan(next, [])) == Scan((next + 1) % SEQ_MODULUS, [p])
    decreases p - i
  {
    if i < p {
      OneDue(ring, p, next, i + 1);
    } else {
      var s := Take(Scan(next, []), p);
      assert s.taken == [p];
      NoneDueInner(ring, 0, s);
      NoneDue(ring, p + 1, s);
    }
  }

  lemma {:induction false} KeptNone(ring: seq<RxEntry>, taken: seq<nat>, i: nat)
    requires i <= |ring| && forall k :: i <= k < |ring| ==> k !in taken
    ensures Kept(ring, taken, i) == ring[i..]
    decreases |ring| - i
  {
    if i < |ring| { KeptNone(ring, taken, i + 1); }
  }

  lemma {:induction false} KeptOne(ring: seq<RxEntry>, p: nat, i: nat)
    requires i <= p < |ring|
    ensures Kept(ring, [p], i) == ring[i..p] + ring[p + 1..]
    decreases p - i
  {
    if i < p { KeptOne(ring, p, i + 1); } else { KeptNone(ring, [p], p + 1); }
  }

  lemma InTurnSplits(from: nat, end: nat)
    requires from < end
    ensures InTurn(from, end)[0] == Arrive(from) && InTurn(from, end)[1..] == InTurn(from + 1, end)
  {
  }

  lemma SequenceNext(n: nat)
    ensures Sequence(n + 1) == (Sequence(n) + 1) % SEQ_MODULUS
  {
  }

  /** In-order arrivals leave a ring they never reach alone. */
  lemma {:induction false} InOrderStretch(w: Wire, from: nat, end: nat)
    requires |w.rx.handled| == from <= end <= |w.sent| && w.rx.next == Sequence(from)
    requires forall x, n | x in w.rx.ring && from <= n <= end :: x.sequence != Sequence(n)
    ensures Run(w, InTurn(from, end)) == Wire(w.sent, Receiver(w.rx.ring, Sequence(end), w.rx.handled + w.sent[from..end]))
    ensures TimelyRun(w, InTurn(from, end))
    decreases end - from
  {
    if from == end {
      assert InTurn(from, end) == [] && w.rx.handled + w.sent[from..end] == w.rx.handled;
    } else {
      SequenceNext(from);
      InTurnSplits(from, end);
      NextInLine(w.rx, Copy(w.sent, from));
      InOrderStretch(Step(w, Arrive(from)), from + 1, end);
      assert w.sent[from..end] == [w.sent[from]] + w.sent[from + 1..end];
    }
  }

  /** The next message arrives and the first buffered entry follows it. */
  lemma TwoInLine(rx: Receiver, e: RxEntry)
    requires e.sequence == rx.next < 0x7fff && rx.ring != []
    requires rx.ring[0].sequence == rx.next + 1
    requires forall k :: 1 <= k < |rx.ring| ==> rx.ring[k].sequence != rx.next + 2
    ensures Receive(rx, e) == Receiver(rx.ring[1..], rx.next + 2, rx.handled + [e.message, rx.ring[0].message])
  {
    assert EmplaceAt(rx.ring, rx.next, e.sequence, 0) == Some(0);
    var ring := [e] + rx.ring;
    assert rx.ring[..0] + [e] + rx.ring[0..] == ring;
    TwoDue(ring, rx.next);
    assert Kept(ring, [0, 1], 0) == rx.ring[1..] by {
      KeptNone(ring, [0, 1], 2);
      assert Kept(ring, [0, 1], 0) == Kept(ring, [0, 1], 1) == Kept(ring, [0, 1], 2) == ring[2..];
    }
    assert Messages(ring, [0, 1]) == [e.message, rx.ring[0].message];
  }

  lemma TwoDue(ring: seq<RxEntry>, next: nat)
    requires next < 0x7fff && |ring| >= 2 && ring[0].sequence == next && ring[1].sequence == next + 1
    requires forall k :: 2 <= k < |ring| ==> ring[k].sequence != next + 2
    ensures OuterPass(ring, 0, Scan(next, [])) == Scan(next + 2, [0, 1])
  {
    var s1, s2 := Scan(next + 1, [0]), Scan(next + 2, [0, 1]);
    assert Take(Scan(next, []), 0) == s1 && Take(s1, 1) == s2;
    assert TakeOuter(ring, Scan(next, []), 0) == s1 && TakeOuter(ring, s1, 1) == s2;
    assert OuterPass(ring, 0, Scan(next, [])) == OuterPass(ring, 1, s1) == OuterPass(ring, 2, s2);
    NoneDue(ring, 2, s2);
  }

  /** An accepted entry that is not due and not found is only buffered. */
  lemma BufferedOnly(rx: Receiver, e: RxEntry, p: nat)
    requires !Rejected(rx.next, e.sequence) && e.sequence != rx.next
    requires EmplaceAt(rx.ring, rx.next, e.sequence, 0) == Some(p) && p <= |rx.ring|
    requires forall x | x in rx.ring :: x.sequence != rx.next
    ensures Receive(rx, e) == rx.(ring := rx.ring[..p] + [e] + rx.ring[p..])
  {
    var ring := rx.ring[..p] + [e] + rx.ring[p..];
    NoneDue(ring, 0, Scan(rx.next, []));
    KeptNone(ring, [], 0);
    assert Messages(ring, []) == [];
  }

  // ----- the run -----

  lemma RunOne(w: Wire, n: nat)
    requires n < |w.sent| && Timely(|w.rx.handled|, w.rx.next, n)
    ensures Run(w, [Arrive(n)]) == Step(w, Arrive(n)) && TimelyRun(w, [Arrive(n)])
  {
    var evs := [Arrive(n)];
    assert evs[1..] == [];
  }

  lemma RunMore(w: Wire, a: seq<Event>, n: nat)
    requires TimelyRun(w, a) && n < |Run(w, a).sent| && Timely(|Run(w, a).rx.handled|, Run(w, a).rx.next, n)
    ensures Run(w, a + [Arrive(n)]) == Step(Run(w, a), Arrive(n)) && TimelyRun(w, a + [Arrive(n)])
  {
    RunOne(Run(w, a), n);
    RunAppend(w, a, [Arrive(n)]);
  }

  /** 65541 and 65539 arrive while `next` is 65530. */
  lemma WrongOrder(w: Wire)
    requires |w.sent| > 65541 && w.rx == Receiver([], 65530, w.sent[..65530])
    ensures TimelyRun(w, [Arrive(65541), Arrive(65539)])
    ensures Run(w, [Arrive(65541), Arrive(65539)])
      == Wire(w.sent, Receiver([Copy(w.sent, 65541), Copy(w.sent, 65539)], 65530, w.sent[..65530]))
  {
    var a, b := Copy(w.sent, 65541), Copy(w.sent, 65539);
    BufferedOnly(w.rx, a, 0);
    RunOne(w, 65541);
    var w1 := Step(w, Arrive(65541));
    assert w1.rx.ring == [a];
    assert EmplaceAt([a], 65530, 3, 0) == EmplaceAt([a], 65530, 3, 1) == Some(1);
    BufferedOnly(w1.rx, b, 1);
    RunMore(w, [Arrive(65541)], 65539);
    assert [Arrive(65541)] + [Arrive(65539)] == [Arrive(65541), Arrive(65539)];
  }

  /** 65539 again, right after the wrap, lands in front of 65541. */
  lemma BufferedTwice(w: Wire)
    requires |w.sent| > 65541
    requires w.rx == Receiver([Copy(w.sent, 65541), Copy(w.sent, 65539)], 0, w.sent[..65536])
    ensures TimelyRun(w, [Arrive(65539)])
    ensures Run(w, [Arrive(65539)])
      == Wire(w.sent, Receiver([Copy(w.sent, 65539), Copy(w.sent, 65541), Copy(w.sent, 65539)], 0, w.sent[..65536]))
  {
    var a, b := Copy(w.sent, 65541), Copy(w.sent, 65539);
    BufferedOnly(w.rx, b, 0);
    RunOne(w, 65539);
    assert [] + [b] + [a, b] == [b, a, b];
  }

  lemma FirstTwoOut(w: Wire)
    requires |w.sent| > 65542
    requires w.rx == Receiver([Copy(w.sent, 65539), Copy(w.sent, 65541), Copy(w.sent, 65539)], 2, w.sent[..65538])
    ensures TimelyRun(w, [Arrive(65538)])
    ensures Run(w, [Arrive(65538)]) == Wire(w.sent, Receiver([Copy(w.sent, 65541), Copy(w.sent, 65539)], 4, w.sent[..65540]))
  {
    TwoInLine(w.rx, Copy(w.sent, 65538));
    RunOne(w, 65538);
    assert w.sent[..65538] + [w.sent[65538], w.sent[65539]] == w.sent[..65540];
  }

  lemma NextTwoOut(w: Wire)
    requires |w.sent| > 65542
    requires w.rx == Receiver([Copy(w.sent, 65541), Copy(w.sent, 65539)], 4, w.sent[..65540])
    ensures Step(w, Arrive(65540)) == Wire(w.sent, Receiver([Copy(w.sent, 65539)], 6, w.sent[..65542]))
    ensures Timely(|w.rx.handled|, w.rx.next, 65540)
  {
    TwoInLine(w.rx, Copy(w.sent, 65540));
    assert w.sent[..65540] + [w.sent[65540], w.sent[65541]] == w.sent[..65542];
  }

  /** The second copy survives the delivery of the first. */
  lemma LeftBehind(w: Wire)
    requires |w.sent| > 65542
    requires w.rx == Receiver([Copy(w.sent, 65539), Copy(w.sent, 65541), Copy(w.sent, 65539)], 2, w.sent[..65538])
    ensures TimelyRun(w, [Arrive(65538), Arrive(65540)])
    ensures Run(w, [Arrive(65538), Arrive(65540)]) == Wire(w.sent, Receiver([Copy(w.sent, 65539)], 6, w.sent[..65542]))
  {
    FirstTwoOut(w);
    NextTwoOut(Run(w, [Arrive(65538)]));
    RunMore(w, [Arrive(65538)], 65540);
    assert [Arrive(65538)] + [Arrive(65540)] == [Arrive(65538), Arrive(65540)];
  }

  function UpToTheWrap(): seq<Event> {
    InTurn(0, 65530) + [Arrive(65541), Arrive(65539)] + InTurn(65530, 65536)
  }

  function PastTheWrap(): seq<Event> {
    [Arrive(65539)] + InTurn(65536, 65538) + [Arrive(65538), Arrive(65540)]
  }

  function OneWrapLater(): seq<Event> {
    InTurn(65542, 131074) + [Arrive(131074)]
  }

  lemma UpToWrongOrder(w: Wire)
    requires |w.sent| > 65541 && w.rx == Initial
    ensures var evs := InTurn(0, 65530) + [Arrive(65541), Arrive(65539)];
      && TimelyRun(w, evs)
      && Run(w, evs) == Wire(w.sent, Receiver([Copy(w.sent, 65541), Copy(w.sent, 65539)], 65530, w.sent[..65530]))
  {
    InOrderStretch(w, 0, 65530);
    var w1 := Run(w, InTurn(0, 65530));
    assert [] + w.sent[0..65530] == w.sent[..65530];
    WrongOrder(w1);
    RunAppend(w, InTurn(0, 65530), [Arrive(65541), Arrive(65539)]);
  }

  lemma ReachTheWrap(w: Wire)
    requires |w.sent| > 65541 && w.rx == Initial
    ensures TimelyRun(w, UpToTheWrap())
    ensures Run(w, UpToTheWrap()) == Wire(w.sent, Receiver([Copy(w.sent, 65541), Copy(w.sent, 65539)], 0, w.sent[..65536]))
  {
    UpToWrongOrder(w);
    var evs := InTurn(0, 65530) + [Arrive(65541), Arrive(65539)];
    var w2 := Run(w, evs);
    NotReached(w2, 65530, 65536);
    InOrderStretch(w2, 65530, 65536);
    assert w.sent[..65530] + w.sent[65530..65536] == w.sent[..65536];
    RunAppend(w, evs, InTurn(65530, 65536));
  }

  lemma PassTheWrap(w: Wire)
    requires |w.sent| > 65542
    requires w.rx == Receiver([Copy(w.sent, 65541), Copy(w.sent, 65539)], 0, w.sent[..65536])
    ensures TimelyRun(w, PastTheWrap())
    ensures Run(w, PastTheWrap()) == Wire(w.sent, Receiver([Copy(w.sent, 65539)], 6, w.sent[..65542]))
  {
    BufferedTwice(w);
    var w1 := Run(w, [Arrive(65539)]);
    NotReached(w1, 65536, 65538);
    InOrderStretch(w1, 65536, 65538);
    assert w.sent[..65536] + w.sent[65536..65538] == w.sent[..65538];
    var w2 := Run(w1, InTurn(65536, 65538));
    RunAppend(w, [Arrive(65539)], InTurn(65536, 65538));
    LeftBehind(w2);
    RunAppend(w, [Arrive(65539)] + InTurn(65536, 65538), [Arrive(65538), Arrive(65540)]);
  }

  lemma HandOutStale(w: Wire)
    requires |w.sent| > 131075 && w.rx == Receiver([Copy(w.sent, 65539)], 6, w.sent[..65542])
    ensures TimelyRun(w, OneWrapLater())
    ensures Run(w, OneWrapLater()).rx.handled == w.sent[..131075] + [w.sent[65539]]
  {
    var sent := w.sent;
    NotReached(w, 65542, 131074);
    InOrderStretch(w, 65542, 131074);
    SliceJoin(sent, 65542, 131074);
    var w1 := Run(w, InTurn(65542, 131074));
    assert w1 == Wire(sent, Receiver([Copy(sent, 65539)], 2, sent[..131074]));
    StaleFollows(w1);
    RunMore(w, InTurn(65542, 131074), 131074);
  }

  lemma StaleFollows(w: Wire)
    requires |w.sent| > 131075 && w.rx == Receiver([Copy(w.sent, 65539)], 2, w.sent[..131074])
    ensures Step(w, Arrive(131074)).rx.handled == w.sent[..131075] + [w.sent[65539]]
  {
    var sent := w.sent;
    TwoInLine(w.rx, Copy(sent, 131074));
    assert sent[..131074] + [sent[131074], sent[65539]] == (sent[..131074] + [sent[131074]]) + [sent[65539]];
    SliceJoin(sent, 131074, 131075);
    assert sent[131074..131075] == [sent[131074]];
  }

  lemma SliceJoin(s: seq<Message>, a: nat, b: nat)
    requires a <= b <= |s|
    ensures s[..a] + s[a..b] == s[..b]
  {
  }

  lemma NotReached(w: Wire, from: nat, end: nat)
    requires forall x | x in w.rx.ring :: x.sequence == 3 || x.sequence == 5
    requires (from == 65530 && end == 65536) || (from == 65536 && end == 65538) || (from == 65542 && end == 131074)
    ensures forall x, n | x in w.rx.ring && from <= n <= end :: x.sequence != Sequence(n)
  {
  }

  /** Timely copies are not enough: after this run, message 131075 has been
      handed out as a second copy of message 65539. */
  lemma TimelyIsNotEnough(sent: seq<Message>)
    requires |sent| > 131075 && sent[65539] != sent[131075]
    ensures var evs := UpToTheWrap() + PastTheWrap() + OneWrapLater();
      && TimelyRun(Wire(sent, Initial), evs)
      && Run(Wire(sent, Initial), evs).rx.handled == sent[..131075] + [sent[65539]]
      && !(Run(Wire(sent, Initial), evs).rx.handled <= sent)
  {
    var w := Wire(sent, Initial);
    ReachTheWrap(w);
    var w1 := Run(w, UpToTheWrap());
    PassTheWrap(w1);
    RunAppend(w, UpToTheWrap(), PastTheWrap());
    var w2 := Run(w1, PastTheWrap());
    HandOutStale(w2);
    RunAppend(w, UpToTheWrap() + PastTheWrap(), OneWrapLater());
    assert (sent[..131075] + [sent[65539]])[131075] == sent[65539];
  }
}
