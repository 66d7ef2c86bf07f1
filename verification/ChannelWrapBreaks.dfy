/** What a misplaced copy leads to: a spare copy of message n stays buffered, and
    further timely arrivals alone bring it out in the place of message n + 65536. */
module ChannelWrapBreaks {
  import opened Bytes
  import opened ChannelReceiver
  import opened ChannelOrder
  import opened ChannelWrap
  import opened ChannelWrapLimit

  /** The message whose place a spare copy of message `n` takes. */
  function Victim(n: nat): nat { n + SEQ_MODULUS }

  // ----- a receiver with a spare copy -----

  /** A copy of message `n`, or of a message to come that is not the victim. */
  ghost predicate CopyOk(sent: seq<Message>, received: nat, n: nat, top: nat, e: RxEntry)
    requires n < |sent|
  {
    var k := received + Ahead(Sequence(received), e.sequence);
    e == Copy(sent, n) || (k <= top && k < |sent| && k != Victim(n) && e == Copy(sent, k))
  }

  ghost predicate AllOk(sent: seq<Message>, received: nat, n: nat, top: nat, ring: seq<RxEntry>)
    requires n < |sent|
  {
    forall i :: 0 <= i < |ring| ==> CopyOk(sent, received, n, top, ring[i])
  }

  /** Only `sequence` is buffered more than once. */
  ghost predicate OneTwin(ring: seq<RxEntry>, sequence: nat) {
    forall i, j :: 0 <= i < j < |ring| && ring[i].sequence == ring[j].sequence ==> ring[i].sequence == sequence
  }

  ghost predicate Twice(ring: seq<RxEntry>, sequence: nat) {
    exists i, j :: 0 <= i < j < |ring| && ring[i].sequence == ring[j].sequence == sequence
  }

  /** All is well so far, but there is one copy of message `n` too many. */
  ghost predicate Loose(sent: seq<Message>, rx: Receiver, n: nat, top: nat) {
    var received := |rx.handled|;
    && n < |sent| && received <= |sent| && rx.handled == sent[..received] && rx.next == Sequence(received)
    && n <= received + WINDOW_MAX && received <= Victim(n) && top <= received + WINDOW_MAX
    && (received <= n ==> n <= top && Twice(rx.ring, Sequence(n)))
    && (n < received ==> Buffered(rx.ring, Sequence(n)))
    && AllOk(sent, received, n, top, rx.ring) && OneTwin(rx.ring, Sequence(n))
  }

  /** The spare copy has come out. */
  ghost predicate Broken(sent: seq<Message>, rx: Receiver, n: nat) {
    n < |sent| && Victim(n) < |rx.handled| && rx.handled[Victim(n)] == sent[n]
  }

  // ----- which message an entry is -----

  lemma Close(a: nat, b: nat)
    requires Sequence(a) == Sequence(b) && a <= b < a + SEQ_MODULUS
    ensures a == b
  {
  }

  lemma NearVictim(received: nat, n: nat, q: nat)
    requires n <= received + WINDOW_MAX && received <= Victim(n) && received <= q <= received + WINDOW_MAX + 1
    requires Sequence(q) == Sequence(n)
    ensures q == n || q == Victim(n)
  {
    if n <= q < n + SEQ_MODULUS { Close(n, q); }
    else if q < n { Close(q, n); }
    else { Close(Victim(n), q); }
  }

  /** What an entry with the sequence of message `q` is. */
  lemma EntryIs(sent: seq<Message>, received: nat, n: nat, top: nat, e: RxEntry, q: nat)
    requires n < |sent| && CopyOk(sent, received, n, top, e) && e.sequence == Sequence(q)
    requires n <= received + WINDOW_MAX && received <= Victim(n) && top <= received + WINDOW_MAX
    requires received <= q <= received + WINDOW_MAX + 1
    ensures q == Victim(n) ==> e == Copy(sent, n)
    ensures q != Victim(n) ==> q <= received + WINDOW_MAX && (q <= top || q == n) && q < |sent| && e == Copy(sent, q)
  {
    AheadOfNth(received, q - received);
    if e == Copy(sent, n) { NearVictim(received, n, q); }
  }

  // ----- what a drain takes -----

  /** The entries taken carry consecutive sequences from that of message `received`. */
  ghost predicate Consecutive(received: nat, ring: seq<RxEntry>, s: Scan) {
    && s.next == Sequence(received + |s.taken|)
    && InRange(ring, s)
    && forall j :: 0 <= j < |s.taken| ==> ring[s.taken[j]].sequence == Sequence(received + j)
  }

  lemma {:induction false} InnerConsecutive(received: nat, ring: seq<RxEntry>, j: nat, s: Scan)
    requires Consecutive(received, ring, s) && j <= |ring|
    ensures var s' := InnerPass(ring, j, s);
      Consecutive(received, ring, s') && |s.taken| <= |s'.taken|
      && ((exists k :: j <= k < |ring| && ring[k].sequence == s.next) ==> |s.taken| < |s'.taken|)
    decreases |ring| - j
  {
    if j < |ring| {
      SequenceNext(received + |s.taken|);
      InnerConsecutive(received, ring, j + 1, if ring[j].sequence == s.next then Take(s, j) else s);
    }
  }

  /** A drain goes on from what it took; what is due further on is taken, and what
      is due after that, further on still. */
  lemma {:induction false} OuterConsecutive(received: nat, ring: seq<RxEntry>, i: nat, s: Scan)
    requires Consecutive(received, ring, s) && i <= |ring|
    ensures var s' := OuterPass(ring, i, s);
      Consecutive(received, ring, s') && |s.taken| <= |s'.taken|
      && ((exists k :: i <= k < |ring| && ring[k].sequence == s.next) ==> |s.taken| < |s'.taken|)
    decreases |ring| - i
  {
    if i < |ring| {
      if ring[i].sequence == s.next {
        SequenceNext(received + |s.taken|);
        InnerConsecutive(received, ring, 0, Take(s, i));
      }
      OuterConsecutive(received, ring, i + 1, if ring[i].sequence == s.next then TakeOuter(ring, s, i) else s);
    }
  }

  /** At most 49 are taken unless the spare copy is among them. */
  lemma TakenWhat(sent: seq<Message>, rx: Receiver, n: nat, top: nat, s: Scan, j: nat)
    requires Loose(sent, rx, n, top) && Consecutive(|rx.handled|, rx.ring, s) && j < |s.taken|
    requires j <= WINDOW_MAX + 1
    ensures var q := |rx.handled| + j;
      && (q == Victim(n) ==> rx.ring[s.taken[j]] == Copy(sent, n))
      && (q != Victim(n) ==> j <= WINDOW_MAX && q < |sent| && rx.ring[s.taken[j]] == Copy(sent, q))
  {
    assert CopyOk(sent, |rx.handled|, n, top, rx.ring[s.taken[j]]);
    EntryIs(sent, |rx.handled|, n, top, rx.ring[s.taken[j]], |rx.handled| + j);
  }

  lemma SpareComesOut(sent: seq<Message>, rx: Receiver, n: nat, top: nat, s: Scan)
    requires Loose(sent, rx, n, top) && Consecutive(|rx.handled|, rx.ring, s)
    requires s == OuterPass(rx.ring, 0, Scan(rx.next, [])) && Victim(n) < |rx.handled| + |s.taken|
    ensures Broken(sent, Drain(rx), n)
  {
    if |s.taken| > WINDOW_MAX + 1 { TakenWhat(sent, rx, n, top, s, WINDOW_MAX + 1); }
    TakenWhat(sent, rx, n, top, s, Victim(n) - |rx.handled|);
  }

  lemma NotYet(sent: seq<Message>, rx: Receiver, n: nat, top: nat, s: Scan)
    requires Loose(sent, rx, n, top) && Consecutive(|rx.handled|, rx.ring, s)
    requires |rx.handled| + |s.taken| <= Victim(n)
    ensures |s.taken| <= WINDOW_MAX + 1 && |rx.handled| + |s.taken| <= |sent|
    ensures rx.handled + Messages(rx.ring, s.taken) == sent[..|rx.handled| + |s.taken|]
  {
    var received := |rx.handled|;
    if |s.taken| > WINDOW_MAX + 1 { TakenWhat(sent, rx, n, top, s, WINDOW_MAX + 1); }
    forall j | 0 <= j < |s.taken|
      ensures received + j < |sent| && rx.ring[s.taken[j]].message == sent[received + j]
    {
      TakenWhat(sent, rx, n, top, s, j);
    }
    if |s.taken| > 0 { TakenWhat(sent, rx, n, top, s, |s.taken| - 1); }
  }

  lemma TakenThere(received: nat, ring: seq<RxEntry>, s: Scan, sequence: nat, d: nat, p: nat)
    requires OneTwin(ring, sequence) && Consecutive(received, ring, s) && d < |s.taken| && p < |ring|
    requires ring[p].sequence == Sequence(received + d) != sequence
    ensures s.taken[d] == p
  {
  }

  /** An entry that stays is still a copy of message `n` or of one to come. */
  lemma StaysOk(sent: seq<Message>, rx: Receiver, n: nat, top: nat, s: Scan, p: nat)
    requires Loose(sent, rx, n, top) && Consecutive(|rx.handled|, rx.ring, s)
    requires |s.taken| <= WINDOW_MAX + 1 && p < |rx.ring| && p !in s.taken
    ensures CopyOk(sent, |rx.handled| + |s.taken|, n, top, rx.ring[p])
  {
    var received, e := |rx.handled|, rx.ring[p];
    assert CopyOk(sent, received, n, top, e);
    if e != Copy(sent, n) {
      var d := Ahead(Sequence(received), e.sequence);
      SequenceOfAhead(received, e.sequence);
      NotTwin(sent, received, n, top, e);
      if d < |s.taken| { TakenThere(received, rx.ring, s, Sequence(n), d, p); }
      AheadAfter(received, |s.taken|, e.sequence);
    }
  }

  lemma NotTwin(sent: seq<Message>, received: nat, n: nat, top: nat, e: RxEntry)
    requires n < |sent| && CopyOk(sent, received, n, top, e) && e != Copy(sent, n)
    requires n <= received + WINDOW_MAX && received <= Victim(n) && top <= received + WINDOW_MAX
    ensures e.sequence != Sequence(n)
  {
    var k := received + Ahead(Sequence(received), e.sequence);
    if e.sequence == Sequence(n) { NearVictim(received, n, k); }
  }

  lemma {:induction false} KeptTwin(ring: seq<RxEntry>, taken: seq<nat>, i: nat, sequence: nat)
    requires i <= |ring| && OneTwin(ring, sequence)
    ensures OneTwin(Kept(ring, taken, i), sequence)
    decreases |ring| - i
  {
    if i < |ring| {
      KeptTwin(ring, taken, i + 1, sequence);
      if i !in taken {
        var rest := Kept(ring, taken, i + 1);
        forall k | 0 <= k < |rest| && ring[i].sequence == rest[k].sequence ensures ring[i].sequence == sequence {
          var p := KeptFrom(ring, taken, i + 1, k);
        }
      }
    }
  }

  lemma {:induction false} KeptTwice(ring: seq<RxEntry>, taken: seq<nat>, i: nat, a: nat, b: nat)
    requires i <= a < b < |ring| && a !in taken && b !in taken && ring[a].sequence == ring[b].sequence
    ensures Twice(Kept(ring, taken, i), ring[a].sequence)
    decreases |ring| - i
  {
    var rest, all := Kept(ring, taken, i + 1), Kept(ring, taken, i);
    if i == a {
      KeptAll(ring, taken, i + 1, b);
      var y :| 0 <= y < |rest| && rest[y] == ring[b];
      assert all[0] == ring[a] && all[y + 1] == ring[b];
    } else {
      KeptTwice(ring, taken, i + 1, a, b);
      var x, y :| 0 <= x < y < |rest| && rest[x].sequence == rest[y].sequence == ring[a].sequence;
      if i in taken {
        assert all == rest;
      } else {
        assert all[x + 1] == rest[x] && all[y + 1] == rest[y];
      }
    }
  }

  /** A sequence is taken only at the turn of message `n`, so once at most. */
  lemma TwinTaken(sent: seq<Message>, rx: Receiver, n: nat, top: nat, s: Scan, j: nat)
    requires Loose(sent, rx, n, top) && Consecutive(|rx.handled|, rx.ring, s)
    requires |rx.handled| + |s.taken| <= Victim(n) && |s.taken| <= WINDOW_MAX + 1
    requires j < |s.taken| && rx.ring[s.taken[j]].sequence == Sequence(n)
    ensures |rx.handled| + j == n
  {
    NearVictim(|rx.handled|, n, |rx.handled| + j);
  }

  /** One copy of message `n` too many stays behind. */
  lemma SpareStays(sent: seq<Message>, rx: Receiver, n: nat, top: nat, s: Scan)
    requires Loose(sent, rx, n, top) && Consecutive(|rx.handled|, rx.ring, s)
    requires |rx.handled| + |s.taken| <= Victim(n) && |s.taken| <= WINDOW_MAX + 1
    ensures var kept := Kept(rx.ring, s.taken, 0);
      (|rx.handled| + |s.taken| <= n ==> Twice(kept, Sequence(n))) && (n < |rx.handled| + |s.taken| ==> Buffered(kept, Sequence(n)))
  {
    var received, ring := |rx.handled|, rx.ring;
    forall j | 0 <= j < |s.taken| && ring[s.taken[j]].sequence == Sequence(n) ensures received + j == n {
      TwinTaken(sent, rx, n, top, s, j);
    }
    if received <= n {
      var a, b :| 0 <= a < b < |ring| && ring[a].sequence == ring[b].sequence == Sequence(n);
      if a !in s.taken && b !in s.taken {
        KeptTwice(ring, s.taken, 0, a, b);
      } else {
        var c := if a in s.taken then b else a;
        assert c !in s.taken;
        KeptAll(ring, s.taken, 0, c);
      }
    } else {
      var a :| 0 <= a < |ring| && ring[a].sequence == Sequence(n);
      assert a !in s.taken;
      KeptAll(ring, s.taken, 0, a);
    }
  }

  /** A drain brings the spare copy out or leaves it there. */
  lemma DrainLoose(sent: seq<Message>, rx: Receiver, n: nat, top: nat)
    requires Loose(sent, rx, n, top)
    ensures |rx.handled| <= |Drain(rx).handled|
    ensures Buffered(rx.ring, rx.next) ==> |rx.handled| < |Drain(rx).handled|
    ensures Broken(sent, Drain(rx), n)
      || (Loose(sent, Drain(rx), n, top) && |Drain(rx).handled| <= |rx.handled| + WINDOW_MAX + 1)
  {
    var received, s := |rx.handled|, OuterPass(rx.ring, 0, Scan(rx.next, []));
    OuterConsecutive(received, rx.ring, 0, Scan(rx.next, []));
    if Victim(n) < received + |s.taken| { SpareComesOut(sent, rx, n, top, s); } else { LeavesLoose(sent, rx, n, top, s); }
  }

  lemma LeavesLoose(sent: seq<Message>, rx: Receiver, n: nat, top: nat, s: Scan)
    requires Loose(sent, rx, n, top) && Consecutive(|rx.handled|, rx.ring, s)
    requires s == OuterPass(rx.ring, 0, Scan(rx.next, [])) && |rx.handled| + |s.taken| <= Victim(n)
    ensures Loose(sent, Drain(rx), n, top) && |Drain(rx).handled| <= |rx.handled| + WINDOW_MAX + 1
  {
    NotYet(sent, rx, n, top, s);
    KeptTwin(rx.ring, s.taken, 0, Sequence(n));
    SpareStays(sent, rx, n, top, s);
    StayOk(sent, rx, n, top, s);
  }

  lemma StayOk(sent: seq<Message>, rx: Receiver, n: nat, top: nat, s: Scan)
    requires Loose(sent, rx, n, top) && Consecutive(|rx.handled|, rx.ring, s) && |s.taken| <= WINDOW_MAX + 1
    ensures AllOk(sent, |rx.handled| + |s.taken|, n, top, Kept(rx.ring, s.taken, 0))
  {
    var kept := Kept(rx.ring, s.taken, 0);
    forall k | 0 <= k < |kept| ensures CopyOk(sent, |rx.handled| + |s.taken|, n, top, kept[k]) {
      var p := KeptFrom(rx.ring, s.taken, 0, k);
      StaysOk(sent, rx, n, top, s, p);
    }
  }

  // ----- one arrival -----

  function Upper(a: nat, b: nat): nat { if a < b then b else a }

  function Put(rx: Receiver, e: RxEntry): Receiver
    requires Emplace(rx.ring, rx.next, e).Some?
  {
    rx.(ring := Emplace(rx.ring, rx.next, e).value)
  }

  /** A copy inside the window that is not buffered is taken in, then drained. */
  lemma TakenIn(sent: seq<Message>, rx: Receiver, m: nat)
    requires rx.next == Sequence(|rx.handled|) && |rx.handled| <= m <= |rx.handled| + WINDOW_MAX && m < |sent|
    requires !Buffered(rx.ring, Sequence(m))
    ensures Emplace(rx.ring, rx.next, Copy(sent, m)).Some?
    ensures Receive(rx, Copy(sent, m)) == Drain(Put(rx, Copy(sent, m)))
  {
    AheadIsAccepted(|rx.handled|, m);
    forall x | x in rx.ring ensures x.sequence != Sequence(m) {
      var i :| 0 <= i < |rx.ring| && rx.ring[i] == x;
    }
    RefusedByEquals(rx.ring, rx.next, Sequence(m));
  }

  lemma PutKeepsTwin(ring: seq<RxEntry>, ring': seq<RxEntry>, e: RxEntry, p: nat, sequence: nat)
    requires OneTwin(ring, sequence) && (!Buffered(ring, e.sequence) || e.sequence == sequence)
    requires p < |ring'| == |ring| + 1 && ring'[p] == e
    requires forall k :: 0 <= k < |ring'| && k != p ==> ring'[k] == ring[if k < p then k else k - 1]
    ensures OneTwin(ring', sequence)
  {
    forall i, j | 0 <= i < j < |ring'| && ring'[i].sequence == ring'[j].sequence ensures ring'[i].sequence == sequence {
      var o := if i == p then j else i;
      assert ring'[o] == ring[if o < p then o else o - 1];
    }
  }

  lemma PutTwins(ring: seq<RxEntry>, next: nat, e: RxEntry, sequence: nat)
    requires Emplace(ring, next, e).Some?
    ensures var ring' := Emplace(ring, next, e).value;
      && Buffered(ring', e.sequence)
      && (Buffered(ring, sequence) ==> Buffered(ring', sequence))
      && (Twice(ring, sequence) ==> Twice(ring', sequence))
      && (OneTwin(ring, sequence) && (!Buffered(ring, e.sequence) || e.sequence == sequence) ==> OneTwin(ring', sequence))
  {
    var p, ring' := Emplaced(ring, next, e);
    if Twice(ring, sequence) {
      var i, j :| 0 <= i < j < |ring| && ring[i].sequence == ring[j].sequence == sequence;
      assert ring'[if i < p then i else i + 1] == ring[i] && ring'[if j < p then j else j + 1] == ring[j];
    }
    if OneTwin(ring, sequence) && (!Buffered(ring, e.sequence) || e.sequence == sequence) {
      PutKeepsTwin(ring, ring', e, p, sequence);
    }
  }

  lemma PutOk(sent: seq<Message>, received: nat, n: nat, top: nat, ring: seq<RxEntry>, next: nat, m: nat)
    requires n < |sent| && AllOk(sent, received, n, top, ring) && m < |sent| && m != Victim(n)
    requires received <= m <= received + WINDOW_MAX && Emplace(ring, next, Copy(sent, m)).Some?
    ensures AllOk(sent, received, n, Upper(top, m), Emplace(ring, next, Copy(sent, m)).value)
  {
    var p, ring' := Emplaced(ring, next, Copy(sent, m));
    forall k | 0 <= k < |ring'| ensures CopyOk(sent, received, n, Upper(top, m), ring'[k]) {
      if k == p {
        NewOk(sent, received, n, Upper(top, m), m);
      } else {
        UnderHigherTop(sent, received, n, top, Upper(top, m), ring[if k < p then k else k - 1]);
      }
    }
  }

  lemma NewOk(sent: seq<Message>, received: nat, n: nat, top: nat, m: nat)
    requires n < |sent| && m < |sent| && m != Victim(n) && received <= m <= received + WINDOW_MAX && m <= top
    ensures CopyOk(sent, received, n, top, Copy(sent, m))
  {
    AheadOfNth(received, m - received);
  }

  lemma UnderHigherTop(sent: seq<Message>, received: nat, n: nat, top: nat, higher: nat, e: RxEntry)
    requires n < |sent| && CopyOk(sent, received, n, top, e) && top <= higher
    ensures CopyOk(sent, received, n, higher, e)
  {
  }

  /** Another message taken in leaves the spare copy where it is. */
  lemma PutLoose(sent: seq<Message>, rx: Receiver, n: nat, top: nat, m: nat)
    requires Loose(sent, rx, n, top) && m < |sent| && m != Victim(n)
    requires |rx.handled| <= m <= |rx.handled| + WINDOW_MAX && !Buffered(rx.ring, Sequence(m))
    requires Emplace(rx.ring, rx.next, Copy(sent, m)).Some?
    ensures Loose(sent, Put(rx, Copy(sent, m)), n, Upper(top, m))
  {
    PutTwins(rx.ring, rx.next, Copy(sent, m), Sequence(n));
    PutOk(sent, |rx.handled|, n, top, rx.ring, rx.next, m);
  }

  /** The next message, or another while the next is buffered, moves the receiver on. */
  lemma Advance(sent: seq<Message>, rx: Receiver, n: nat, top: nat, m: nat)
    requires Loose(sent, rx, n, top) && m < |sent| && m != Victim(n)
    requires |rx.handled| <= m <= |rx.handled| + WINDOW_MAX && !Buffered(rx.ring, Sequence(m))
    requires m == |rx.handled| || Buffered(rx.ring, rx.next)
    ensures var rx' := Receive(rx, Copy(sent, m));
      && |rx.handled| < |rx'.handled|
      && (Broken(sent, rx', n) || (Loose(sent, rx', n, Upper(top, m)) && |rx'.handled| <= |rx.handled| + WINDOW_MAX + 1))
  {
    TakenIn(sent, rx, m);
    PutLoose(sent, rx, n, top, m);
    PutTwins(rx.ring, rx.next, Copy(sent, m), rx.next);
    DrainLoose(sent, Put(rx, Copy(sent, m)), n, Upper(top, m));
  }

  /** Beyond everything buffered there is room. */
  lemma RoomAbove(sent: seq<Message>, rx: Receiver, n: nat, top: nat, m: nat)
    requires Loose(sent, rx, n, top) && top < m <= |rx.handled| + WINDOW_MAX && |rx.handled| < m && m != Victim(n)
    ensures !Buffered(rx.ring, Sequence(m))
  {
    forall i | 0 <= i < |rx.ring| ensures rx.ring[i].sequence != Sequence(m) {
      assert CopyOk(sent, |rx.handled|, n, top, rx.ring[i]);
      if rx.ring[i].sequence == Sequence(m) { EntryIs(sent, |rx.handled|, n, top, rx.ring[i], m); }
    }
  }

  // ----- arrivals until a goal -----

  lemma First(w: Wire, m: nat, rest: seq<Event>)
    requires m < |w.sent| && |w.rx.handled| <= m <= |w.rx.handled| + WINDOW_MAX
    requires TimelyRun(Step(w, Arrive(m)), rest)
    ensures TimelyRun(w, [Arrive(m)] + rest) && Run(w, [Arrive(m)] + rest) == Run(Step(w, Arrive(m)), rest)
  {
    var evs := [Arrive(m)] + rest;
    assert evs[0] == Arrive(m) && evs[1..] == rest;
  }

  /** Long enough that the victim and the window behind it have been sent. */
  ghost predicate Doomed(w: Wire, n: nat, top: nat) { Loose(w.sent, w.rx, n, top) && Victim(n) + WINDOW_MAX < |w.sent| }

  /** The message to send next, if `lead` ahead there is room. */
  lemma Choose(w: Wire, n: nat, top: nat, lead: nat) returns (m: nat)
    requires Doomed(w, n, top) && 0 < lead <= WINDOW_MAX && |w.rx.handled| + lead != Victim(n)
    requires top < |w.rx.handled| + lead || !Buffered(w.rx.ring, w.rx.next)
    ensures m == if Buffered(w.rx.ring, w.rx.next) then |w.rx.handled| + lead else |w.rx.handled|
    ensures m < |w.sent| && m != Victim(n) && !Buffered(w.rx.ring, Sequence(m))
  {
    assert Sequence(Victim(n)) == Sequence(n);
    if Buffered(w.rx.ring, w.rx.next) {
      m := |w.rx.handled| + lead;
      RoomAbove(w.sent, w.rx, n, top, m);
    } else {
      m := |w.rx.handled|;
    }
  }

  /** One such arrival. */
  lemma Move(w: Wire, n: nat, top: nat, lead: nat) returns (m: nat)
    requires Doomed(w, n, top) && 0 < lead <= WINDOW_MAX && |w.rx.handled| + lead != Victim(n)
    requires top <= |w.rx.handled| + lead && (top < |w.rx.handled| + lead || !Buffered(w.rx.ring, w.rx.next))
    ensures m < |w.sent| && m == (if Buffered(w.rx.ring, w.rx.next) then |w.rx.handled| + lead else |w.rx.handled|)
    ensures !Buffered(w.rx.ring, Sequence(m))
    ensures var next := Step(w, Arrive(m));
      && next.sent == w.sent && |w.rx.handled| < |next.rx.handled|
      && (Broken(w.sent, next.rx, n)
          || (Doomed(next, n, Upper(top, m)) && Upper(top, m) < |next.rx.handled| + lead
              && |next.rx.handled| <= |w.rx.handled| + WINDOW_MAX + 1))
  {
    m := Choose(w, n, top, lead);
    Advance(w.sent, w.rx, n, top, m);
  }

  ghost predicate Reached(sent: seq<Message>, rx: Receiver, n: nat, top: nat, goal: nat) {
    Broken(sent, rx, n) || (Loose(sent, rx, n, top) && goal <= |rx.handled|)
  }

  /** The receiver can be driven to any goal, or the spare copy comes out before. */
  lemma {:induction false} Drive(w: Wire, n: nat, top: nat, lead: nat, goal: nat) returns (evs: seq<Event>, top': nat)
    requires Doomed(w, n, top) && 0 < lead <= WINDOW_MAX && top <= |w.rx.handled| + lead
    requires top < |w.rx.handled| + lead || !Buffered(w.rx.ring, w.rx.next)
    requires goal + lead <= Victim(n) || Victim(n) < |w.rx.handled| + lead
    ensures TimelyRun(w, evs) && Run(w, evs).sent == w.sent && Reached(w.sent, Run(w, evs).rx, n, top', goal)
    ensures evs == [] <==> goal <= |w.rx.handled|
    ensures evs == [] ==> top' == top
    ensures evs != [] && !Broken(w.sent, Run(w, evs).rx, n) ==>
      top' < |Run(w, evs).rx.handled| + lead && |Run(w, evs).rx.handled| <= goal + WINDOW_MAX
    decreases goal - |w.rx.handled|
  {
    evs, top' := [], top;
    if |w.rx.handled| < goal {
      var m := Move(w, n, top, lead);
      var next := Step(w, Arrive(m));
      if !Broken(w.sent, next.rx, n) {
        evs, top' := Drive(next, n, Upper(top, m), lead, goal);
      }
      First(w, m, evs);
      evs := [Arrive(m)] + evs;
    }
  }

  // ----- making room -----

  /** `sequence` is buffered with nothing larger in front. */
  ghost predicate RunsUp(ring: seq<RxEntry>, sequence: nat) {
    exists x :: 0 <= x < |ring| && ring[x].sequence == sequence && forall i :: 0 <= i < x ==> ring[i].sequence <= sequence
  }

  ghost predicate Follows(ring: seq<RxEntry>, first: nat, second: nat) {
    exists x, y :: 0 <= x < y < |ring| && ring[x].sequence == first && ring[y].sequence == second
  }

  lemma {:induction false} TakesTwo(received: nat, ring: seq<RxEntry>, i: nat, s: Scan, x: nat, y: nat)
    requires Consecutive(received, ring, s) && i <= x < y < |ring|
    requires ring[x].sequence == s.next && ring[y].sequence == Sequence(received + |s.taken| + 1)
    ensures |OuterPass(ring, i, s).taken| >= |s.taken| + 2
    decreases x - i
  {
    if ring[i].sequence == s.next {
      SequenceNext(received + |s.taken|);
      var s1 := Take(s, i);
      InnerConsecutive(received, ring, 0, s1);
      OuterConsecutive(received, ring, i + 1, TakeOuter(ring, s, i));
    } else {
      TakesTwo(received, ring, i + 1, s, x, y);
    }
  }

  /** What a drain that takes one entry leaves. */
  lemma OneTaken(rx: Receiver) returns (p: nat)
    requires rx.next == Sequence(|rx.handled|) && |Drain(rx).handled| == |rx.handled| + 1
    ensures p < |rx.ring| && rx.ring[p].sequence == rx.next
    ensures Drain(rx).ring == rx.ring[..p] + rx.ring[p + 1..]
  {
    var s := OuterPass(rx.ring, 0, Scan(rx.next, []));
    OuterConsecutive(|rx.handled|, rx.ring, 0, Scan(rx.next, []));
    p := s.taken[0];
    assert s.taken == [p];
    KeptOne(rx.ring, p, 0);
  }

  lemma RunsUpWithout(ring: seq<RxEntry>, p: nat, sequence: nat)
    requires p < |ring| && RunsUp(ring, sequence) && ring[p].sequence != sequence
    ensures RunsUp(ring[..p] + ring[p + 1..], sequence)
  {
    var x :| 0 <= x < |ring| && ring[x].sequence == sequence && forall i :: 0 <= i < x ==> ring[i].sequence <= sequence;
    var after := ring[..p] + ring[p + 1..];
    assert after[if x < p then x else x - 1] == ring[x];
    forall i | 0 <= i < |after| ensures after[i] == ring[if i < p then i else i + 1] {}
  }

  lemma FollowsWithout(ring: seq<RxEntry>, p: nat, first: nat, second: nat)
    requires p < |ring| && Follows(ring, first, second) && ring[p].sequence != first && ring[p].sequence != second
    ensures Follows(ring[..p] + ring[p + 1..], first, second)
  {
    var x, y :| 0 <= x < y < |ring| && ring[x].sequence == first && ring[y].sequence == second;
    var after := ring[..p] + ring[p + 1..];
    assert after[if x < p then x else x - 1] == ring[x] && after[if y < p then y else y - 1] == ring[y];
  }

  lemma FollowsPut(ring: seq<RxEntry>, next: nat, e: RxEntry, first: nat, second: nat)
    requires Follows(ring, first, second) && Emplace(ring, next, e).Some?
    ensures Follows(Emplace(ring, next, e).value, first, second)
  {
    var x, y :| 0 <= x < y < |ring| && ring[x].sequence == first && ring[y].sequence == second;
    var p, ring' := Emplaced(ring, next, e);
    assert ring'[if x < p then x else x + 1] == ring[x] && ring'[if y < p then y else y + 1] == ring[y];
  }

  /** Put in ahead of `next`, an entry has nothing larger in front. */
  lemma PutRunsUp(ring: seq<RxEntry>, next: nat, e: RxEntry)
    requires next <= e.sequence && Emplace(ring, next, e).Some?
    ensures RunsUp(Emplace(ring, next, e).value, e.sequence)
  {
    var p, ring' := Emplaced(ring, next, e);
    assert ring'[p].sequence == e.sequence && forall i :: 0 <= i < p ==> ring'[i].sequence <= e.sequence;
  }

  /** And its successor goes behind it. */
  lemma PutFollows(ring: seq<RxEntry>, next: nat, e: RxEntry, sequence: nat)
    requires next <= sequence && e.sequence == sequence + 1 && RunsUp(ring, sequence) && Emplace(ring, next, e).Some?
    ensures Follows(Emplace(ring, next, e).value, sequence, e.sequence)
  {
    var x :| 0 <= x < |ring| && ring[x].sequence == sequence && forall i :: 0 <= i < x ==> ring[i].sequence <= sequence;
    var p, ring' := Emplaced(ring, next, e);
    assert p > x;
    assert ring'[x] == ring[x] && ring'[p] == e;
  }

  /** The spare copy is out, or the last place but one of the window is free. */
  ghost predicate Roomy(sent: seq<Message>, rx: Receiver, n: nat, top: nat) {
    Broken(sent, rx, n) || (Loose(sent, rx, n, top) && top + 1 < |rx.handled| + WINDOW_MAX)
  }

  /** Two entries that follow each other come out together, if both are due. */
  lemma BothComeOut(rx: Receiver, a: nat)
    requires a == |rx.handled| && rx.next == Sequence(a) && Follows(rx.ring, Sequence(a), Sequence(a + 1))
    ensures |rx.handled| + 2 <= |Drain(rx).handled|
  {
    var x, y :| 0 <= x < y < |rx.ring| && rx.ring[x].sequence == Sequence(a) && rx.ring[y].sequence == Sequence(a + 1);
    TakesTwo(a, rx.ring, 0, Scan(rx.next, []), x, y);
  }

  lemma NotBoth(received: nat, a: nat)
    requires received < a < received + SEQ_MODULUS - 1
    ensures Sequence(received) != Sequence(a) && Sequence(received) != Sequence(a + 1)
  {
  }

  /** After an arrival at the top either room was made or one entry came out; two
      entries in sequence stay so until the first is due. */
  lemma PairMoves(sent: seq<Message>, rx: Receiver, m: nat, a: nat)
    requires rx.next == Sequence(|rx.handled|) && |rx.handled| <= m <= |rx.handled| + WINDOW_MAX && m < |sent|
    requires !Buffered(rx.ring, Sequence(m)) && |rx.handled| <= a <= |rx.handled| + WINDOW_MAX
    requires Follows(rx.ring, Sequence(a), Sequence(a + 1))
    ensures var rx' := Receive(rx, Copy(sent, m));
      |rx'.handled| == |rx.handled| + 1 ==> |rx.handled| < a && Follows(rx'.ring, Sequence(a), Sequence(a + 1))
  {
    TakenIn(sent, rx, m);
    var mid := Put(rx, Copy(sent, m));
    FollowsPut(rx.ring, rx.next, Copy(sent, m), Sequence(a), Sequence(a + 1));
    if |Drain(mid).handled| == |mid.handled| + 1 {
      if a == |rx.handled| { BothComeOut(mid, a); }
      NotBoth(|rx.handled|, a);
      var p := OneTaken(mid);
      FollowsWithout(mid.ring, p, Sequence(a), Sequence(a + 1));
    }
  }

  lemma {:induction false} UntilBothDue(w: Wire, n: nat, top: nat, a: nat) returns (evs: seq<Event>, top': nat)
    requires Doomed(w, n, top) && top < |w.rx.handled| + WINDOW_MAX
    requires |w.rx.handled| <= a <= |w.rx.handled| + WINDOW_MAX && a + WINDOW_MAX < Victim(n)
    requires Follows(w.rx.ring, Sequence(a), Sequence(a + 1))
    ensures TimelyRun(w, evs) && Run(w, evs).sent == w.sent && Roomy(w.sent, Run(w, evs).rx, n, top')
    decreases a - |w.rx.handled|
  {
    var m := Move(w, n, top, WINDOW_MAX);
    var next := Step(w, Arrive(m));
    evs, top' := [], Upper(top, m);
    if !Roomy(w.sent, next.rx, n, top') {
      PairMoves(w.sent, w.rx, m, a);
      evs, top' := UntilBothDue(next, n, top', a);
    }
    First(w, m, evs);
    evs := [Arrive(m)] + evs;
  }

  /** Clear of the modulus, the top of the window has nothing larger in front. */
  lemma FirstOfPair(sent: seq<Message>, rx: Receiver, a: nat)
    requires rx.next == Sequence(|rx.handled|) && a == |rx.handled| + WINDOW_MAX < |sent|
    requires rx.next + WINDOW_MAX < SEQ_MODULUS && !Buffered(rx.ring, Sequence(a))
    ensures var rx' := Receive(rx, Copy(sent, a));
      |rx'.handled| == |rx.handled| + 1 ==> RunsUp(rx'.ring, Sequence(a))
  {
    TakenIn(sent, rx, a);
    var mid := Put(rx, Copy(sent, a));
    PutRunsUp(rx.ring, rx.next, Copy(sent, a));
    if |Drain(mid).handled| == |mid.handled| + 1 {
      var p := OneTaken(mid);
      RunsUpWithout(mid.ring, p, Sequence(a));
    }
  }

  lemma SecondOfPair(sent: seq<Message>, rx: Receiver, a: nat)
    requires rx.next == Sequence(|rx.handled|) && a + 1 == |rx.handled| + WINDOW_MAX < |sent|
    requires rx.next + WINDOW_MAX < SEQ_MODULUS && !Buffered(rx.ring, Sequence(a + 1)) && RunsUp(rx.ring, Sequence(a))
    ensures var rx' := Receive(rx, Copy(sent, a + 1));
      |rx'.handled| == |rx.handled| + 1 ==> Follows(rx'.ring, Sequence(a), Sequence(a + 1))
  {
    TakenIn(sent, rx, a + 1);
    var mid := Put(rx, Copy(sent, a + 1));
    PutFollows(rx.ring, rx.next, Copy(sent, a + 1), Sequence(a));
    if |Drain(mid).handled| == |mid.handled| + 1 {
      var p := OneTaken(mid);
      NotBoth(|rx.handled|, a);
      FollowsWithout(mid.ring, p, Sequence(a), Sequence(a + 1));
    }
  }

  /** The second one makes room or goes in behind the first. */
  lemma SecondMove(w: Wire, n: nat, top: nat, a: nat) returns (m: nat)
    requires Doomed(w, n, top) && top < |w.rx.handled| + WINDOW_MAX && a + 1 == |w.rx.handled| + WINDOW_MAX
    requires w.rx.next + WINDOW_MAX < SEQ_MODULUS && a + 1 < Victim(n) && RunsUp(w.rx.ring, Sequence(a))
    ensures m < |w.sent| && |w.rx.handled| <= m <= |w.rx.handled| + WINDOW_MAX && Step(w, Arrive(m)).sent == w.sent
    ensures var rx, top' := Step(w, Arrive(m)).rx, Upper(top, m);
      Roomy(w.sent, rx, n, top')
      || (Loose(w.sent, rx, n, top') && top' < |rx.handled| + WINDOW_MAX && |rx.handled| == |w.rx.handled| + 1
          && Follows(rx.ring, Sequence(a), Sequence(a + 1)))
  {
    m := Move(w, n, top, WINDOW_MAX);
    if !Roomy(w.sent, Step(w, Arrive(m)).rx, n, Upper(top, m)) {
      SecondOfPair(w.sent, w.rx, a);
    }
  }

  lemma FromSecond(w: Wire, n: nat, top: nat, a: nat) returns (evs: seq<Event>, top': nat)
    requires Doomed(w, n, top) && top < |w.rx.handled| + WINDOW_MAX && a + 1 == |w.rx.handled| + WINDOW_MAX
    requires w.rx.next + WINDOW_MAX < SEQ_MODULUS && a + WINDOW_MAX < Victim(n) && RunsUp(w.rx.ring, Sequence(a))
    ensures TimelyRun(w, evs) && Run(w, evs).sent == w.sent && Roomy(w.sent, Run(w, evs).rx, n, top')
  {
    var m := SecondMove(w, n, top, a);
    var next := Step(w, Arrive(m));
    evs, top' := [], Upper(top, m);
    if !Roomy(w.sent, next.rx, n, top') {
      evs, top' := UntilBothDue(next, n, top', a);
    }
    First(w, m, evs);
    evs := [Arrive(m)] + evs;
  }

  /** Clear of the modulus, the first arrival makes room or is one at the top. */
  lemma FirstMove(w: Wire, n: nat, top: nat) returns (m: nat)
    requires Doomed(w, n, top) && top < |w.rx.handled| + WINDOW_MAX
    requires w.rx.next + WINDOW_MAX + 1 < SEQ_MODULUS && |w.rx.handled| + WINDOW_MAX < Victim(n)
    ensures m < |w.sent| && |w.rx.handled| <= m <= |w.rx.handled| + WINDOW_MAX && Step(w, Arrive(m)).sent == w.sent
    ensures var rx, top' := Step(w, Arrive(m)).rx, Upper(top, m);
      Roomy(w.sent, rx, n, top')
      || (Loose(w.sent, rx, n, top') && top' < |rx.handled| + WINDOW_MAX && RunsUp(rx.ring, Sequence(m))
          && m == |w.rx.handled| + WINDOW_MAX && |rx.handled| == |w.rx.handled| + 1)
  {
    m := Move(w, n, top, WINDOW_MAX);
    var next := Step(w, Arrive(m));
    if !Roomy(w.sent, next.rx, n, Upper(top, m)) {
      FirstOfPair(w.sent, w.rx, m);
    }
  }

  lemma ClearNext(received: nat)
    requires Sequence(received) + WINDOW_MAX + 1 < SEQ_MODULUS
    ensures Sequence(received + 1) + WINDOW_MAX < SEQ_MODULUS
  {
  }

  /** Clear of the modulus, room can be made: two copies at the top go in behind each
      other, and further ones until both come out together. */
  lemma MakeRoom(w: Wire, n: nat, top: nat) returns (evs: seq<Event>, top': nat)
    requires Doomed(w, n, top) && top < |w.rx.handled| + WINDOW_MAX
    requires w.rx.next + WINDOW_MAX + 1 < SEQ_MODULUS && |w.rx.handled| + 2 * WINDOW_MAX < Victim(n)
    ensures TimelyRun(w, evs) && Run(w, evs).sent == w.sent && Roomy(w.sent, Run(w, evs).rx, n, top')
  {
    var m := FirstMove(w, n, top);
    var next := Step(w, Arrive(m));
    evs, top' := [], Upper(top, m);
    if !Roomy(w.sent, next.rx, n, top') {
      ClearNext(|w.rx.handled|);
      evs, top' := FromSecond(next, n, top', m);
    }
    First(w, m, evs);
    evs := [Arrive(m)] + evs;
  }

  // ----- from a misplaced arrival to the break -----

  /** With room, the place of the victim can be passed over. */
  lemma PassVictim(w: Wire, n: nat, top: nat) returns (evs: seq<Event>)
    requires Doomed(w, n, top) && top + 1 < |w.rx.handled| + WINDOW_MAX
    ensures TimelyRun(w, evs) && Run(w, evs).sent == w.sent && Broken(w.sent, Run(w, evs).rx, n)
  {
    var top1;
    evs, top1 := Drive(w, n, top, WINDOW_MAX - 1, Victim(n) + 1 - WINDOW_MAX);
    var w1 := Run(w, evs);
    if !Broken(w.sent, w1.rx, n) {
      var more, top2 := Drive(w1, n, top1, WINDOW_MAX, Victim(n) + 1);
      RunAppend(w, evs, more);
      evs := evs + more;
    }
  }

  /** The next message number under a sequence clear of the modulus. */
  function Clear(received: nat): (goal: nat)
    ensures received <= goal <= received + WINDOW_MAX + 2
  {
    if Sequence(received) + WINDOW_MAX + 1 < SEQ_MODULUS then received else received + SEQ_MODULUS - Sequence(received)
  }

  lemma ClearAfter(received: nat, now: nat)
    requires if Clear(received) == received then now == received else Clear(received) <= now <= Clear(received) + WINDOW_MAX
    ensures Sequence(now) + WINDOW_MAX + 1 < SEQ_MODULUS
  {
    var goal := Clear(received);
    if goal != received { assert Sequence(goal) == 0 && Sequence(now) == now - goal; }
  }

  /** Well before the victim, the break can be reached from wherever the window is. */
  lemma ReachBreak(w: Wire, n: nat, top: nat) returns (evs: seq<Event>)
    requires Doomed(w, n, top) && top < |w.rx.handled| + WINDOW_MAX
    requires |w.rx.handled| <= n + 3 * WINDOW_MAX
    ensures TimelyRun(w, evs) && Run(w, evs).sent == w.sent && Broken(w.sent, Run(w, evs).rx, n)
  {
    var top1;
    evs, top1 := Drive(w, n, top, WINDOW_MAX, Clear(|w.rx.handled|));
    var w1 := Run(w, evs);
    if !Broken(w.sent, w1.rx, n) {
      ClearAfter(|w.rx.handled|, |w1.rx.handled|);
      var more := BreakWhenClear(w1, n, top1);
      RunAppend(w, evs, more);
      evs := evs + more;
    }
  }

  lemma BreakWhenClear(w: Wire, n: nat, top: nat) returns (evs: seq<Event>)
    requires Doomed(w, n, top) && top < |w.rx.handled| + WINDOW_MAX
    requires w.rx.next + WINDOW_MAX + 1 < SEQ_MODULUS && |w.rx.handled| + 2 * WINDOW_MAX < Victim(n)
    ensures TimelyRun(w, evs) && Run(w, evs).sent == w.sent && Broken(w.sent, Run(w, evs).rx, n)
  {
    var top1;
    evs, top1 := MakeRoom(w, n, top);
    var w1 := Run(w, evs);
    if !Broken(w.sent, w1.rx, n) {
      var more := PassVictim(w1, n, top1);
      RunAppend(w, evs, more);
      evs := evs + more;
    }
  }

  /** A ring in order is one without a spare copy. */
  lemma OrderIsOk(sent: seq<Message>, rx: Receiver, n: nat)
    requires InOrder(sent, rx, WINDOW_MAX) && |rx.handled| <= n <= |rx.handled| + WINDOW_MAX && n < |sent|
    ensures AllOk(sent, |rx.handled|, n, |rx.handled| + WINDOW_MAX, rx.ring) && OneTwin(rx.ring, Sequence(n))
  {
    forall i | 0 <= i < |rx.ring| ensures CopyOk(sent, |rx.handled|, n, |rx.handled| + WINDOW_MAX, rx.ring[i]) {
      assert Holds(sent, |rx.handled|, rx.ring[i], WINDOW_MAX);
      SequenceOfAhead(|rx.handled|, rx.ring[i].sequence);
    }
  }

  /** A misplaced arrival leaves a spare copy. */
  lemma MisplacedLoose(sent: seq<Message>, rx: Receiver, n: nat)
    requires InOrder(sent, rx, WINDOW_MAX) && |rx.handled| <= n <= |rx.handled| + WINDOW_MAX && n < |sent|
    requires Misplaced(rx.ring, rx.next, Sequence(n))
    ensures Emplace(rx.ring, rx.next, Copy(sent, n)).Some?
    ensures Receive(rx, Copy(sent, n)) == Drain(Put(rx, Copy(sent, n)))
    ensures Loose(sent, Put(rx, Copy(sent, n)), n, |rx.handled| + WINDOW_MAX)
  {
    AheadIsAccepted(|rx.handled|, n);
    RefusedIffFound(rx.ring, rx.next, Copy(sent, n));
    OrderIsOk(sent, rx, n);
    PutTwins(rx.ring, rx.next, Copy(sent, n), Sequence(n));
    PutOk(sent, |rx.handled|, n, |rx.handled| + WINDOW_MAX, rx.ring, rx.next, n);
    TwoCopies(sent, |rx.handled|, rx.ring, rx.next, Copy(sent, n));
  }

  /** What is not due before a drain that takes nothing is not due after it. */
  lemma StillNotDue(rx: Receiver)
    requires rx.next == Sequence(|rx.handled|) && |Drain(rx).handled| == |rx.handled|
    ensures Drain(rx) == rx && !Buffered(rx.ring, rx.next)
  {
    var s := OuterPass(rx.ring, 0, Scan(rx.next, []));
    OuterConsecutive(|rx.handled|, rx.ring, 0, Scan(rx.next, []));
    KeptNone(rx.ring, [], 0);
    assert s.taken == [] && Messages(rx.ring, []) == [];
  }

  lemma AfterMisplaced(w: Wire, n: nat) returns (evs: seq<Event>)
    requires InOrder(w.sent, w.rx, WINDOW_MAX) && |w.rx.handled| <= n <= |w.rx.handled| + WINDOW_MAX
    requires Misplaced(w.rx.ring, w.rx.next, Sequence(n)) && Victim(n) + WINDOW_MAX < |w.sent|
    ensures TimelyRun(Step(w, Arrive(n)), evs) && Run(Step(w, Arrive(n)), evs).sent == w.sent
    ensures Broken(w.sent, Run(Step(w, Arrive(n)), evs).rx, n)
  {
    var top := |w.rx.handled| + WINDOW_MAX;
    MisplacedLoose(w.sent, w.rx, n);
    var mid := Put(w.rx, Copy(w.sent, n));
    DrainLoose(w.sent, mid, n, top);
    var next := Step(w, Arrive(n));
    evs := [];
    if !Broken(w.sent, next.rx, n) {
      if |next.rx.handled| == |w.rx.handled| {
        StillNotDue(mid);
        var m := Move(next, n, top, WINDOW_MAX);
        var after := Step(next, Arrive(m));
        if !Broken(w.sent, after.rx, n) { evs := ReachBreak(after, n, Upper(top, m)); }
        First(next, m, evs);
        evs := [Arrive(m)] + evs;
      } else {
        evs := ReachBreak(next, n, top);
      }
    }
  }

  // ----- for every misplaced arrival -----

  function Sends(count: nat, m: Message): seq<Event> { seq(count, _ => Send(m)) }

  lemma {:induction false} RunSends(w: Wire, count: nat, m: Message)
    ensures TimelyRun(w, Sends(count, m))
    ensures Run(w, Sends(count, m)) == Wire(w.sent + seq(count, _ => m), w.rx)
    decreases count
  {
    if count == 0 {
      assert w.sent + seq(0, _ => m) == w.sent;
    } else {
      var evs := Sends(count, m);
      assert evs[0] == Send(m) && evs[1..] == Sends(count - 1, m);
      RunSends(Step(w, Send(m)), count - 1, m);
      assert w.sent + seq(count, _ => m) == w.sent + [m] + seq(count - 1, _ => m);
    }
  }

  lemma MoreToCome(sent: seq<Message>, rx: Receiver, more: seq<Message>)
    requires InOrder(sent, rx, WINDOW_MAX)
    ensures InOrder(sent + more, rx, WINDOW_MAX)
  {
    forall k | 0 <= k < |rx.ring| ensures Holds(sent + more, |rx.handled|, rx.ring[k], WINDOW_MAX) {
      assert Holds(sent, |rx.handled|, rx.ring[k], WINDOW_MAX);
    }
  }

  function Other(m: Message): (o: Message)
    ensures o != m
  {
    Message(m.msgtype, if m.data == [] then [0] else [])
  }

  lemma BreakShows(sent: seq<Message>, rx: Receiver, n: nat)
    requires Broken(sent, rx, n) && Victim(n) < |sent| && sent[Victim(n)] != sent[n]
    ensures !(rx.handled <= sent)
  {
  }

  /** Every misplaced arrival, in whatever state, has a timely continuation after which
      what was delivered is no prefix of what was sent, unless the message that is due
      one wrap later equals the misplaced one. */
  lemma MisplacedBreaks(w: Wire, n: nat) returns (evs: seq<Event>)
    requires InOrder(w.sent, w.rx, WINDOW_MAX) && |w.rx.handled| <= n <= |w.rx.handled| + WINDOW_MAX && n < |w.sent|
    requires Misplaced(w.rx.ring, w.rx.next, Sequence(n))
    requires Victim(n) < |w.sent| ==> w.sent[Victim(n)] != w.sent[n]
    ensures TimelyRun(w, [Arrive(n)] + evs)
    ensures !(Run(w, [Arrive(n)] + evs).rx.handled <= Run(w, [Arrive(n)] + evs).sent)
  {
    var m, count := Other(w.sent[n]), Victim(n) + WINDOW_MAX + 1;
    var more := seq(count, _ => m);
    var longer := Wire(w.sent + more, w.rx);
    MoreToCome(w.sent, w.rx, more);
    var rest := AfterMisplaced(longer, n);
    assert Copy(longer.sent, n) == Copy(w.sent, n);
    var next := Step(w, Arrive(n));
    RunSends(next, count, m);
    assert Run(next, Sends(count, m)) == Step(longer, Arrive(n));
    RunAppend(next, Sends(count, m), rest);
    evs := Sends(count, m) + rest;
    First(w, n, evs);
    BreakShows(longer.sent, Run(next, evs).rx, n);
  }

  /** The first event of a timely run that is not admissible. */
  lemma {:induction false} FirstInadmissible(w: Wire, evs: seq<Event>) returns (i: nat)
    requires TimelyRun(w, evs) && !AdmissibleRun(w, evs)
    ensures i < |evs| && AdmissibleRun(w, evs[..i]) && TimelyRun(w, evs[..i])
    ensures var before := Run(w, evs[..i]);
      && before.sent <= Run(w, evs).sent && evs[i].Arrive? && evs[i].n < |before.sent|
      && |before.rx.handled| <= evs[i].n <= |before.rx.handled| + WINDOW_MAX
      && Misplaced(before.rx.ring, before.rx.next, Sequence(evs[i].n))
    decreases |evs|
  {
    if Admissible(w, evs[0]) {
      var j := FirstInadmissible(Step(w, evs[0]), evs[1..]);
      i := j + 1;
      assert evs[..i][0] == evs[0] && evs[..i][1..] == evs[1..][..j];
    } else {
      i := 0;
      assert evs[..0] == [];
      SentGrows(w, evs);
    }
  }

  lemma {:induction false} SentGrows(w: Wire, evs: seq<Event>)
    ensures w.sent <= Run(w, evs).sent
    decreases |evs|
  {
    if evs != [] { SentGrows(Step(w, evs[0]), evs[1..]); }
  }

  /** A timely run that is not admissible can go wrong: from the start up to some
      arrival it is a run that, continued otherwise, breaks the order; messages 65536
      apart being different. */
  lemma InadmissibleCanBreak(evs: seq<Event>) returns (i: nat, more: seq<Event>)
    requires TimelyRun(Wire([], Initial), evs) && !AdmissibleRun(Wire([], Initial), evs)
    requires var sent := Run(Wire([], Initial), evs).sent;
      forall n: nat :: Victim(n) < |sent| ==> sent[Victim(n)] != sent[n]
    ensures i < |evs| && TimelyRun(Wire([], Initial), evs[..i + 1] + more)
    ensures var end := Run(Wire([], Initial), evs[..i + 1] + more);
      !(end.rx.handled <= end.sent)
  {
    var start := Wire([], Initial);
    i := FirstInadmissible(start, evs);
    var before := Run(start, evs[..i]);
    RunInOrder(start, evs[..i]);
    more := MisplacedBreaks(before, evs[i].n);
    RunAppend(start, evs[..i], [evs[i]] + more);
    assert evs[..i + 1] + more == evs[..i] + ([evs[i]] + more);
  }
}
