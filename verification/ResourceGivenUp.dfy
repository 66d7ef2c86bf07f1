/** Once either end has given a transfer up, it is given up for good: the promise of a
    transfer can still be resolved if and only if it has not been. */
module ResourceGivenUp {
  import opened Bytes
  import opened ResourceIncoming
  import opened ResourceTransfer
  import opened ResourceDelivery
  import opened ResourceDeliveryProof
  import opened ResourceCompletion

  // ----- rows only come from advertisements -----

  predicate NoRow(table: seq<Incoming>, id: Hash) { forall k :: 0 <= k < |table| ==> table[k].header.id != id }

  lemma NoRowIs(table: seq<Incoming>, id: Hash)
    ensures NoRow(table, id) <==> Row(table, id) == |table|
  {
  }

  lemma RequestKeepsHeader(inc: Incoming)
    requires HeightOk(inc)
    ensures RequestNext(inc).incoming.header == inc.header
  {
  }

  lemma AfterStoreHeader(inc: Incoming, m: nat, p: Part, rate: Option<real>)
    requires HeightOk(inc)
    ensures Store(inc, m, p).header == inc.header
    ensures HeightOk(Store(inc, m, p)) ==> AfterStore(Store(inc, m, p), rate).incoming.header == inc.header
  {
    if HeightOk(Store(inc, m, p)) { RequestKeepsHeader(Grow(Store(inc, m, p), rate)); }
  }

  lemma RemovedRow(table: seq<Incoming>, i: nat, id: Hash)
    requires NoRow(table, id) && i < |table|
    ensures NoRow(table[..i] + table[i + 1..], id)
  {
  }

  lemma TakenKeepsRows(env: Env, rx: Receiver, i: nat, m: nat, p: Part, rate: Option<real>, id: Hash)
    requires HeightsOk(rx) && i < |rx.table| && NoRow(rx.table, id)
    ensures NoRow(TakePart(env, rx, i, m, p, rate).rx.table, id)
    ensures forall q | q in TakePart(env, rx, i, m, p, rate).sends :: !q.Advertise?
  {
    AfterStoreHeader(rx.table[i], m, p, rate);
    RemovedRow(rx.table, i, id);
  }

  lemma PartKeepsRows(env: Env, rx: Receiver, p: Part, rate: Option<real>, id: Hash)
    requires HeightsOk(rx) && NoRow(rx.table, id)
    ensures NoRow(OnPart(env, rx, p, rate).rx.table, id)
    ensures forall q | q in OnPart(env, rx, p, rate).sends :: !q.Advertise?
  {
    var i := Recognise(env, rx.table, p, 0);
    if i < |rx.table| {
      TakenKeepsRows(env, rx, i, Match(rx.table[i], env.mapHash(p, rx.table[i].header.random)).value, p, rate, id);
    }
  }

  lemma MoreHashesKeepsRows(rx: Receiver, id: Hash, segment: nat, chunk: seq<Hash>, other: Hash)
    requires HeightsOk(rx) && NoRow(rx.table, other)
    ensures NoRow(OnMoreHashes(rx, id, segment, chunk).rx.table, other)
    ensures forall q | q in OnMoreHashes(rx, id, segment, chunk).sends :: !q.Advertise?
  {
    var i := Row(rx.table, id);
    if i < |rx.table| { UpdateHeader(rx.table[i], segment, chunk); }
  }

  lemma ExpireKeepsRows(rx: Receiver, i: nat, id: Hash)
    requires HeightsOk(rx) && i < |rx.table| && NoRow(rx.table, id)
    ensures NoRow(OnExpire(rx, i).rx.table, id)
    ensures forall q | q in OnExpire(rx, i).sends :: !q.Advertise?
  {
    var inc := rx.table[i];
    if inc.retriesLeft > 0 {
      RequestKeepsHeader(Shrink(inc).(retriesLeft := inc.retriesLeft - 1, waitingForHmu := false, armed := false));
    }
  }

  lemma AdvertiseKeepsRows(rx: Receiver, h: Header, n: nat, entries: seq<Hash>, id: Hash)
    requires NoRow(rx.table, id) && h.id != id
    ensures NoRow(OnAdvertise(rx, h, n, entries).rx.table, id)
    ensures forall q | q in OnAdvertise(rx, h, n, entries).sends :: !q.Advertise?
  {
    if 0 < n <= MAX_PARTS {
      RequestKeepsHeader(New(h, n, if |entries| > n then entries[..n] else entries));
    }
  }

  // ----- given up for good -----

  /** The receiver no longer waits for this segment and will not hear of it again. */
  ghost predicate Gone(s: System, id: Hash) { NoRow(s.rx.table, id) && Unadvertised(s, id) }

  lemma DeliveryKeepsGone(env: Env, w: World, s: System, p: Packet, rate: Option<real>, id: Hash)
    requires Inv(env, w, s) && HeightsOk(s.rx) && p in s.net && Gone(s, id) && !p.Ask? && !p.Proof?
    ensures Gone(Step(env, w, s, Deliver(p, rate)), id)
  {
    match p
    case Advertise(h, n, entries) => AdvertiseKeepsRows(s.rx, h, n, entries, id);
    case MoreHashes(other, segment, chunk) => MoreHashesKeepsRows(s.rx, other, segment, chunk, id);
    case PartData(part) => PartKeepsRows(env, s.rx, part, rate, id);
  }

  // ----- the sender -----

  /** A step of the sender adds no advertisement of a segment already begun. */
  lemma AnswerKeepsGone(env: Env, w: World, s: System, q: Request, rate: Option<real>, id: Hash)
    requires Inv(env, w, s) && HeightsOk(s.rx) && Ask(q) in s.net && Gone(s, id)
    ensures var s' := Step(env, w, s, Deliver(Ask(q), rate)); Gone(s', id) && s'.status == s.status && s'.rx == s.rx
  {
    var r := Outgoing(w, s.status, q.id, 0);
    if r.Some? { NeverOutOfSequence(env, w, s, q, r.value); }
  }

  lemma OtherAdvertised(env: Env, w: World, s: System, q: Ref, r: Ref)
    requires DistinctIds(w) && IsRef(w, q) && IsRef(w, r) && q != r && q.t < |s.status| && Gone(s, At(w, r).header.id)
    ensures Gone(StartSegment(env, w, s, q), At(w, r).header.id)
  {
  }

  /** The segment `r` is under way but lost: nothing will complete it. */
  ghost predicate Lost(w: World, s: System, r: Ref) {
    && IsRef(w, r) && r.t < |s.status| && s.status[r.t] == Sending(r.k) && |w[r.t]| >= 1 && Done(w, s, r.t) == r.k
    && Gone(s, At(w, r).header.id)
  }

  ghost predicate Hopeless(w: World, s: System, t: nat) {
    t < |s.status| && (s.status[t] == Rejected || exists k :: Lost(w, s, Ref(t, k)))
  }

  lemma OtherStarts(w: World, env: Env, s: System, q: Ref, r: Ref)
    requires DistinctIds(w) && IsRef(w, q) && q.t < |s.status| && q.t != r.t && Lost(w, s, r)
    ensures Lost(w, StartSegment(env, w, s, q), r)
  {
    OtherAdvertised(env, w, s, q, r);
  }

  lemma OtherMoves(w: World, s: System, t: nat, st: Status, r: Ref)
    requires t < |s.status| && t != r.t && Lost(w, s, r)
    ensures Lost(w, s.(status := s.status[t := st]), r)
  {
  }

  /** Other transfers' proofs do not help. */
  lemma ProofKeepsLost(env: Env, w: World, s: System, id: Hash, value: Hash, rate: Option<real>, r: Ref)
    requires Inv(env, w, s) && HeightsOk(s.rx) && Proof(id, value) in s.net && Lost(w, s, r)
    ensures Lost(w, Step(env, w, s, Deliver(Proof(id, value), rate)), r)
  {
    var q := Outgoing(w, s.status, id, 0);
    if q.Some? {
      assert PacketOk(env, w, s, Proof(id, value));
      ProofFacts(env, w, s, id, value, q.value);
      ProofMoves(env, w, s, q.value, value);
      assert q.value.t != r.t;
      if q.value.k + 1 < |w[q.value.t]| {
        OtherStarts(w, env, s, Ref(q.value.t, q.value.k + 1), r);
      } else {
        OtherMoves(w, s, q.value.t, Resolved, r);
      }
    }
  }

  /** Every row is of another transfer than a lost segment. */
  lemma OtherRow(env: Env, w: World, s: System, r: Ref, i: nat) returns (q: Ref)
    requires Inv(env, w, s) && Lost(w, s, r) && i < |s.rx.table|
    ensures Current(w, s, q) && Receives(env, w, s.rx.table[i], q) && q.t != r.t && Original(w, q.t) != Original(w, r.t)
  {
    assert RowOk(env, w, s, s.rx.table[i]);
    q :| Current(w, s, q) && Receives(env, w, s.rx.table[i], q);
    OriginalsDifferIf(w, q.t, r.t);
  }

  lemma OriginalsDifferIf(w: World, t: nat, u: nat)
    requires DistinctIds(w) && t < |w| && u < |w| && |w[t]| >= 1 && |w[u]| >= 1
    ensures t != u ==> Original(w, t) != Original(w, u)
  {
    if t != u { OriginalsDiffer(w, t, u); }
  }

  lemma OtherAssembled(env: Env, w: World, s: System, q: Ref, i: nat, r: Ref)
    requires IsRef(w, q) && i < |s.rx.table| && IsRef(w, r) && |w[r.t]| >= 1 && At(w, q).header.original != Original(w, r.t)
    ensures AfterAssembly(w, s.rx, i, q).proved[Original(w, r.t)] == s.rx.proved[Original(w, r.t)]
  {
  }

  /** A segment that has no row is not counted. */
  lemma DoneStays(env: Env, w: World, s: System, p: Part, rate: Option<real>, r: Ref)
    requires Inv(env, w, s) && HeightsOk(s.rx) && PartData(p) in s.net && Lost(w, s, r)
    ensures OnPart(env, s.rx, p, rate).rx.proved[Original(w, r.t)] == s.rx.proved[Original(w, r.t)]
  {
    var i := Recognise(env, s.rx.table, p, 0);
    if i < |s.rx.table| {
      var inc := s.rx.table[i];
      var q := OtherRow(env, w, s, r, i);
      RecognisedPart(env, w, s, p, i, q);
      var m := Match(inc, env.mapHash(p, inc.header.random)).value;
      if inc.parts[m].None? && Complete(Store(inc, m, p)) {
        LastPartKept(env, w, s, q, i, m);
        OtherAssembled(env, w, s, q, i, r);
      }
    }
  }

  // ----- every event -----

  lemma DeliveryKeepsLost(env: Env, w: World, s: System, p: Packet, rate: Option<real>, r: Ref)
    requires Inv(env, w, s) && HeightsOk(s.rx) && p in s.net && Lost(w, s, r)
    ensures Lost(w, Step(env, w, s, Deliver(p, rate)), r)
  {
    match p
    case Ask(q) => AnswerKeepsGone(env, w, s, q, rate, At(w, r).header.id);
    case Proof(id, value) => ProofKeepsLost(env, w, s, id, value, rate, r);
    case PartData(part) =>
      DeliveryKeepsGone(env, w, s, p, rate, At(w, r).header.id);
      DoneStays(env, w, s, part, rate, r);
    case _ => DeliveryKeepsGone(env, w, s, p, rate, At(w, r).header.id);
  }

  lemma StepKeepsLost(env: Env, w: World, s: System, ev: Event, r: Ref)
    requires Inv(env, w, s) && HeightsOk(s.rx) && Lost(w, s, r)
    ensures Hopeless(w, Step(env, w, s, ev), r.t)
  {
    var s' := Step(env, w, s, ev);
    match ev
    case SendResource(t) =>
      if IsRef(w, Ref(t, 0)) && t < |s.status| && s.status[t].NotStarted? { OtherAdvertised(env, w, s, Ref(t, 0), r); }
      assert Lost(w, s', Ref(r.t, r.k));
    case SenderTimeout(t) =>
      if t != r.t { assert Lost(w, s', Ref(r.t, r.k)); }
    case Deliver(p, rate) =>
      if p in s.net { DeliveryKeepsLost(env, w, s, p, rate, r); }
      assert Lost(w, s', Ref(r.t, r.k));
    case Expired(row) =>
      if row < |s.rx.table| { ExpireKeepsRows(s.rx, row, At(w, r).header.id); }
      assert Lost(w, s', Ref(r.t, r.k));
  }

  /** A rejected promise stays rejected. */
  lemma StepKeepsRejected(env: Env, w: World, s: System, ev: Event, t: nat)
    requires Inv(env, w, s) && t < |s.status| && s.status[t] == Rejected
    ensures t < |Step(env, w, s, ev).status| && Step(env, w, s, ev).status[t] == Rejected
  {
  }

  lemma {:induction false} RunKeepsHopeless(env: Env, w: World, s: System, evs: seq<Event>, t: nat)
    requires Inv(env, w, s) && Hopeless(w, s, t)
    ensures Hopeless(w, Run(env, w, s, evs), t)
    decreases |evs|
  {
    if evs != [] {
      InvHeights(env, w, s);
      if s.status[t] == Rejected {
        StepKeepsRejected(env, w, s, evs[0], t);
      } else {
        var k :| Lost(w, s, Ref(t, k));
        StepKeepsLost(env, w, s, evs[0], Ref(t, k));
      }
      StepInv(env, w, s, evs[0]);
      RunKeepsHopeless(env, w, Step(env, w, s, evs[0]), evs[1..], t);
    }
  }

  lemma NotAliveIsHopeless(env: Env, w: World, s: System, t: nat)
    requires Inv(env, w, s) && t < |w| && |w[t]| >= 1
    ensures Alive(env, w, s, t) || Hopeless(w, s, t)
  {
    assert StatusOk(w, s, t);
    if s.status[t].Sending? && !Alive(env, w, s, t) {
      var r := Ref(t, s.status[t].k);
      NoRowIs(s.rx.table, At(w, r).header.id);
      forall p | p in s.net && p.Advertise? ensures p.header.id != At(w, r).header.id {
        assert PacketOk(env, w, s, p);
      }
      assert Lost(w, s, r);
    }
  }

  /** In every run the promise of a transfer can still be resolved, with exactly its data
      emitted, if and only if neither end has given it up: it has not been rejected, and
      the receiver has proved the segment under way, has a row for it, or has yet to
      take its advertisement. */
  lemma ResolvableIff(env: Env, w: World, evs: seq<Event>, t: nat)
    requires WorldOk(env, w) && t < |w|
    ensures var s := Run(env, w, Start(w), evs);
      t < |s.status| && |w[t]| >= 1
      && (Alive(env, w, s, t) <==> exists more :: var end := Run(env, w, s, more); t < |end.status| && end.status[t] == Resolved)
  {
    StartInv(env, w);
    RunInv(env, w, Start(w), evs);
    StartReady(env, w);
    RunReady(env, w, Start(w), evs);
    var s := Run(env, w, Start(w), evs);
    if Alive(env, w, s, t) {
      var more := Resolve(env, w, s, t);
    } else {
      NotAliveIsHopeless(env, w, s, t);
      forall more ensures var end := Run(env, w, s, more); !(t < |end.status| && end.status[t] == Resolved) {
        RunKeepsHopeless(env, w, s, more, t);
      }
    }
  }
}
