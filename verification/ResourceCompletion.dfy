/** No transfer is ever stuck: as long as neither end has given it up, delivering
    packets already under way and what they call for completes it. */
module ResourceCompletion {
  import opened Bytes
  import opened ResourceIncoming
  import opened ResourceTransfer
  import opened ResourceDelivery
  import opened ResourceDeliveryProof
  import Progress = ResourceProgress

  // ----- the latest request of every row is under way -----

  ghost predicate AskedKnown(inc: Incoming) { forall k :: 0 <= k < |inc.asked| ==> inc.asked[k] < |inc.entries| }

  /** The request a row last sent, from what it remembers of it. */
  function LatestRequest(inc: Incoming): Request
    requires AskedKnown(inc)
  {
    Request(inc.header.id, Pick(inc.entries, inc.asked),
            if inc.waitingForHmu && inc.entries != [] then Some(inc.entries[|inc.entries| - 1]) else None)
  }

  /** What is missing in front of a position asked for has been asked for too. */
  ghost predicate AskedFirst(inc: Incoming) {
    forall m, k :: 0 <= k < |inc.asked| && 0 <= m < inc.asked[k] && m < |inc.parts| && inc.parts[m].None? ==> m in inc.asked
  }

  ghost predicate Pending(net: set<Packet>, inc: Incoming) {
    AskedKnown(inc) && AskedFirst(inc) && Ask(LatestRequest(inc)) in net
  }

  lemma {:induction false} WantsAllBefore(entries: seq<Hash>, parts: seq<Option<Part>>, i: nat, room: nat, m: nat, k: nat)
    requires var w := WantFrom(entries, parts, i, room); k < |w.positions| && i <= m < w.positions[k]
    requires m < |parts| && parts[m].None?
    ensures m in WantFrom(entries, parts, i, room).positions
    decreases |parts| - i
  {
    if parts[i].None? {
      if m > i {
        assert k > 0;
        WantsAllBefore(entries, parts, i + 1, room - 1, m, k - 1);
      }
    } else {
      WantsAllBefore(entries, parts, i + 1, room, m, k);
    }
  }

  lemma RequestIsLatest(inc: Incoming)
    requires Progress.CountersOk(inc) && !inc.waitingForHmu && RequestNext(inc).request.Some?
    ensures var x := RequestNext(inc);
      AskedKnown(x.incoming) && AskedFirst(x.incoming) && x.request.value == LatestRequest(x.incoming)
  {
    var x := RequestNext(inc).incoming;
    forall m, k | 0 <= k < |x.asked| && 0 <= m < x.asked[k] && m < |x.parts| && x.parts[m].None? ensures m in x.asked {
      WantsAllBefore(inc.entries, inc.parts, inc.completed + 1, inc.window, m, k);
    }
  }

  /** A row that remembers the same request and has lost no part still has it under way. */
  lemma PendingStays(net: set<Packet>, net': set<Packet>, inc: Incoming, inc': Incoming)
    requires Pending(net, inc) && (forall q | Ask(q) in net :: Ask(q) in net')
    requires inc'.header == inc.header && inc'.entries == inc.entries && inc'.asked == inc.asked
    requires inc'.waitingForHmu == inc.waitingForHmu && |inc'.parts| == |inc.parts|
    requires forall m :: 0 <= m < |inc.parts| && inc.parts[m].Some? ==> inc'.parts[m].Some?
    ensures Pending(net', inc')
  {
    assert LatestRequest(inc') == LatestRequest(inc);
    forall m, k | 0 <= k < |inc'.asked| && 0 <= m < inc'.asked[k] && m < |inc'.parts| && inc'.parts[m].None?
      ensures m in inc'.asked
    {
      assert inc.parts[m].None? && m < inc.asked[k];
    }
  }

  ghost predicate AllPending(s: System) { forall i :: 0 <= i < |s.rx.table| ==> Pending(s.net, s.rx.table[i]) }

  /** The proof of a segment proved is under way, as long as its sender waits for it. */
  ghost predicate ProofsSent(env: Env, w: World, s: System) {
    forall r :: IsRef(w, r) && |w[r.t]| >= 1 && r.k < Done(w, s, r.t) ==> ProofOf(env, w, r) in s.net
  }

  function ProofOf(env: Env, w: World, r: Ref): Packet
    requires IsRef(w, r)
  {
    var seg := At(w, r);
    Proof(seg.header.id, env.proof(seg.plaintext, seg.header.id))
  }

  /** What a row last asked for and what was proved are under way. */
  ghost predicate InFlight(env: Env, w: World, s: System) { AllPending(s) && ProofsSent(env, w, s) }

  ghost predicate Ready(env: Env, w: World, s: System) { Inv(env, w, s) && InFlight(env, w, s) }

  // ----- every step keeps it -----

  /** Nothing but advertisements is ever taken off the net. */
  predicate Carries(net: set<Packet>, net': set<Packet>) { forall p | p in net && !p.Advertise? :: p in net' }

  lemma ProofsStay(env: Env, w: World, s: System, s': System)
    requires ProofsSent(env, w, s) && s'.rx.proved == s.rx.proved && Carries(s.net, s'.net)
    ensures ProofsSent(env, w, s')
  {
    forall r | IsRef(w, r) && |w[r.t]| >= 1 && r.k < Done(w, s', r.t) ensures ProofOf(env, w, r) in s'.net {
      assert r.k < Done(w, s, r.t);
      assert ProofOf(env, w, r) in s.net;
    }
  }

  lemma OldRowPending(s: System, s': System, inc: Incoming)
    requires AllPending(s) && Carries(s.net, s'.net) && inc in s.rx.table
    ensures Pending(s'.net, inc)
  {
    var k :| 0 <= k < |s.rx.table| && s.rx.table[k] == inc;
    PendingStays(s.net, s'.net, s.rx.table[k], inc);
  }

  /** No row changes, but some may go. */
  lemma RowsInFlight(env: Env, w: World, s: System, s': System)
    requires InFlight(env, w, s) && Carries(s.net, s'.net) && s'.rx.proved == s.rx.proved
    requires forall j :: 0 <= j < |s'.rx.table| ==> s'.rx.table[j] in s.rx.table
    ensures InFlight(env, w, s')
  {
    forall j | 0 <= j < |s'.rx.table| ensures Pending(s'.net, s'.rx.table[j]) { OldRowPending(s, s', s'.rx.table[j]); }
    ProofsStay(env, w, s, s');
  }

  /** One row changes, to one whose latest request is under way. */
  lemma RowInFlight(env: Env, w: World, s: System, s': System, i: nat)
    requires InFlight(env, w, s) && Carries(s.net, s'.net) && s'.rx.proved == s.rx.proved
    requires i < |s'.rx.table| && Pending(s'.net, s'.rx.table[i])
    requires forall j :: 0 <= j < |s'.rx.table| && j != i ==> s'.rx.table[j] in s.rx.table
    ensures InFlight(env, w, s')
  {
    forall j | 0 <= j < |s'.rx.table| ensures Pending(s'.net, s'.rx.table[j]) {
      if j != i { OldRowPending(s, s', s'.rx.table[j]); }
    }
    ProofsStay(env, w, s, s');
  }

  /** Row `i` becomes that of `x`, whose request is sent. */
  lemma RequestedInFlight(env: Env, w: World, s: System, i: nat, x: Requesting)
    requires InFlight(env, w, s) && i < |s.rx.table|
    requires Pending(s.net + (if x.request.Some? then {Ask(x.request.value)} else {}), x.incoming)
    ensures InFlight(env, w, Received(s, RxOutcome(s.rx.(table := s.rx.table[i := x.incoming]),
                                                   if x.request.Some? then [Ask(x.request.value)] else [])))
  {
    var s' := Received(s, RxOutcome(s.rx.(table := s.rx.table[i := x.incoming]), if x.request.Some? then [Ask(x.request.value)] else []));
    assert s'.net == s.net + (if x.request.Some? then {Ask(x.request.value)} else {});
    RowInFlight(env, w, s, s', i);
  }

  lemma HashmapUpdatePending(net: set<Packet>, inc: Incoming, segment: nat, chunk: seq<Hash>)
    requires Progress.Live(inc) && !Complete(inc)
    ensures var x := HashmapUpdate(inc, segment, chunk);
      x.request.Some? && Pending(net + {Ask(x.request.value)}, x.incoming)
  {
    Progress.HashmapUpdateLive(inc, segment, chunk);
    RequestIsLatest(inc.(entries := WriteEntries(inc.entries, segment * HASHMAP_MAX_LEN, chunk),
                         retriesLeft := MAX_RETRIES, waitingForHmu := false));
  }

  lemma ExpirePending(net: set<Packet>, inc: Incoming)
    requires Progress.Live(inc) && !Complete(inc) && Expire(inc).Some?
    ensures var x := Expire(inc).value;
      x.request.Some? && Pending(net + {Ask(x.request.value)}, x.incoming)
  {
    Progress.ExpireLive(inc);
    Progress.WindowsStayOk(inc, None);
    RequestIsLatest(Shrink(inc).(retriesLeft := inc.retriesLeft - 1, waitingForHmu := false, armed := false));
  }

  lemma NewPending(net: set<Packet>, h: Header, n: nat, entries: seq<Hash>)
    requires n > 0
    ensures var x := RequestNext(New(h, n, entries));
      x.request.Some? && Pending(net + {Ask(x.request.value)}, x.incoming)
  {
    Progress.NewLive(h, n, entries);
    Progress.NoneHeld(n);
    RequestIsLatest(New(h, n, entries));
  }

  lemma NextPending(net: set<Packet>, stored: Incoming, rate: Option<real>)
    requires Progress.CountersOk(stored) && Progress.WindowsOk(stored) && stored.retriesLeft <= MAX_RETRIES
    requires !stored.waitingForHmu && !Complete(stored)
    ensures var x := RequestNext(Grow(stored, rate));
      x.request.Some? && Pending(net + {Ask(x.request.value)}, x.incoming)
  {
    Progress.WindowsStayOk(stored, rate);
    Progress.RequestNextLive(Grow(stored, rate));
    RequestIsLatest(Grow(stored, rate));
  }

  lemma SamePending(net: set<Packet>, inc: Incoming, m: nat, p: Part, rate: Option<real>)
    requires Pending(net, inc) && HeightOk(inc) && m < |inc.parts| && inc.parts[m].None? && HeightOk(Store(inc, m, p))
    requires Store(inc, m, p).outstanding > 0 || inc.waitingForHmu
    ensures var x := AfterStore(Store(inc, m, p), rate);
      x.request.None? && Pending(net, x.incoming)
  {
    PendingStays(net, net, inc, AfterStore(Store(inc, m, p), rate).incoming);
  }

  /** A new part in the middle: the same request, or the next one. */
  lemma StoredPending(net: set<Packet>, inc: Incoming, m: nat, p: Part, rate: Option<real>)
    requires Progress.Live(inc) && Pending(net, inc) && m < |inc.parts| && inc.parts[m].None?
    requires HeightOk(Store(inc, m, p)) && !Complete(Store(inc, m, p))
    ensures var x := AfterStore(Store(inc, m, p), rate);
      Pending(net + (if x.request.Some? then {Ask(x.request.value)} else {}), x.incoming)
  {
    var stored := Store(inc, m, p);
    Progress.StoreCounters(inc, m, p);
    if stored.outstanding <= 0 && !stored.waitingForHmu {
      NextPending(net, stored, rate);
    } else {
      SamePending(net, inc, m, p, rate);
      assert net + {} == net;
    }
  }

  // ----- a part arrives -----

  /** Position `m` of the row is among those it now searches. */
  predicate Searched(inc: Incoming, m: nat) {
    var start := if inc.completed >= 0 then inc.completed else 0;
    start <= m < start + inc.window && m < |inc.entries|
  }

  lemma {:induction false} FindFinds(entries: seq<Hash>, h: Hash, i: nat, end: nat, m: nat)
    requires i <= m < end <= |entries| && entries[m] == h
    ensures Find(entries, h, i, end).Some?
    decreases end - i
  {
    if i < m { FindFinds(entries, h, i + 1, end, m); }
  }

  lemma SearchFinds(inc: Incoming, m: nat)
    requires HeightOk(inc) && Searched(inc, m)
    ensures Match(inc, inc.entries[m]).Some?
  {
    var start: nat := if inc.completed >= 0 then inc.completed else 0;
    var end := if start + inc.window < |inc.entries| then start + inc.window else |inc.entries|;
    FindFinds(inc.entries, inc.entries[m], start, end, m);
  }

  /** A row that recognises a part of a segment is that segment's. */
  lemma OwnRow(env: Env, w: World, s: System, r: Ref, m: nat, j: nat)
    requires Inv(env, w, s) && HeightsOk(s.rx) && IsRef(w, r) && m < |Parts(At(w, r))| && j < |s.rx.table|
    requires Match(s.rx.table[j], env.mapHash(Parts(At(w, r))[m], s.rx.table[j].header.random)).Some?
    ensures s.rx.table[j].header == At(w, r).header
    ensures Match(s.rx.table[j], env.mapHash(Parts(At(w, r))[m], s.rx.table[j].header.random)).value == m
  {
    var inc := s.rx.table[j];
    assert RowOk(env, w, s, inc);
    var q :| Current(w, s, q) && Receives(env, w, inc, q);
    var k := Match(inc, env.mapHash(Parts(At(w, r))[m], inc.header.random)).value;
    assert inc.entries[k] == Hashes(env, At(w, q))[k];
    assert q == r && k == m;
  }

  /** A part of the segment of row `i`, at a searched position, goes to row `i`. */
  lemma GoesToItsRow(env: Env, w: World, s: System, r: Ref, i: nat, m: nat)
    requires Inv(env, w, s) && HeightsOk(s.rx) && i < |s.rx.table| && Current(w, s, r) && Receives(env, w, s.rx.table[i], r)
    requires Searched(s.rx.table[i], m) && m < |Parts(At(w, r))|
    ensures var p := Parts(At(w, r))[m];
      && Recognise(env, s.rx.table, p, 0) == i
      && Match(s.rx.table[i], env.mapHash(p, s.rx.table[i].header.random)) == Some(m)
  {
    var p, inc := Parts(At(w, r))[m], s.rx.table[i];
    assert inc.entries[m] == Hashes(env, At(w, r))[m] == env.mapHash(p, inc.header.random);
    SearchFinds(inc, m);
    OwnRow(env, w, s, r, m, i);
    var j := Recognise(env, s.rx.table, p, 0);
    if j < |s.rx.table| { OwnRow(env, w, s, r, m, j); }
  }

  /** What an arriving part must do: it is held from then on and refills the retries; the last one completes
      the segment, which is proved and counted, and after the last segment the data
      of the transfer is emitted. */
  ghost predicate PartKept(env: Env, w: World, s: System, s': System, r: Ref, i: nat, m: nat)
    requires IsRef(w, r) && |w[r.t]| >= 1 && i < |s.rx.table| && m < |s.rx.table[i].parts| == |Parts(At(w, r))|
  {
    var inc := s.rx.table[i];
    && s'.status == s.status
    && (inc.receivedCount + 1 < |inc.parts| ==>
          && |s'.rx.table| == |s.rx.table| && (forall j :: 0 <= j < |s.rx.table| && j != i ==> s'.rx.table[j] == s.rx.table[j])
          && s'.rx.table[i].header == inc.header && s'.rx.table[i].entries == inc.entries
          && s'.rx.table[i].parts == inc.parts[m := Some(Parts(At(w, r))[m])]
          && s'.rx.table[i].receivedCount == inc.receivedCount + 1 && s'.rx.table[i].retriesLeft == MAX_RETRIES
          && s'.rx.proved == s.rx.proved)
    && (inc.receivedCount + 1 == |inc.parts| ==>
          && s'.rx.table == s.rx.table[..i] + s.rx.table[i + 1..]
          && ProofOf(env, w, r) in s'.net && Done(w, s', r.t) == r.k + 1
          && (r.k + 1 == |w[r.t]| ==> EmittedFor(s'.rx.emitted, Original(w, r.t)) == [Data(w, r.t)]))
  }

  lemma NewPartKept(env: Env, w: World, s: System, r: Ref, i: nat, m: nat, rate: Option<real>)
    requires Inv(env, w, s) && HeightsOk(s.rx) && i < |s.rx.table| && Current(w, s, r) && Receives(env, w, s.rx.table[i], r)
    requires m < |s.rx.table[i].parts| && s.rx.table[i].parts[m].None? && Searched(s.rx.table[i], m)
    requires PartData(Parts(At(w, r))[m]) in s.net
    ensures PartKept(env, w, s, Step(env, w, s, Deliver(PartData(Parts(At(w, r))[m]), rate)), r, i, m)
  {
    var p, inc := Parts(At(w, r))[m], s.rx.table[i];
    var s' := Step(env, w, s, Deliver(PartData(p), rate));
    GoesToItsRow(env, w, s, r, i, m);
    assert s' == Received(s, TakePart(env, s.rx, i, m, p, rate));
    Progress.StoreCounters(inc, m, p);
    if Complete(Store(inc, m, p)) {
      LastPartKept(env, w, s, r, i, m);
    } else {
      AfterStoreKeeps(Store(inc, m, p), rate);
    }
  }

  lemma LastPartKept(env: Env, w: World, s: System, r: Ref, i: nat, m: nat)
    requires Inv(env, w, s) && i < |s.rx.table| && Current(w, s, r) && Receives(env, w, s.rx.table[i], r)
    requires m < |s.rx.table[i].parts| && s.rx.table[i].parts[m].None?
    requires Complete(Store(s.rx.table[i], m, Parts(At(w, r))[m]))
    ensures var stored := Store(s.rx.table[i], m, Parts(At(w, r))[m]);
      && AllHeld(stored)
      && Assemble(env, s.rx, i, stored) == RxOutcome(AfterAssembly(w, s.rx, i, r), [ProofOf(env, w, r)])
      && PartKept(env, w, s, Received(s, Assemble(env, s.rx, i, stored)), r, i, m)
  {
    var inc, p := s.rx.table[i], Parts(At(w, r))[m];
    var stored := Store(inc, m, p);
    LastPart(env, w, s, i, r, m);
    forall k | 0 <= k < |stored.parts| ensures stored.parts[k] == Some(Parts(At(w, r))[k]) {
      assert stored.parts[k] == if k == m then Some(p) else inc.parts[k];
    }
    AssemblyResult(env, w, s.rx, i, r, stored);
    var s' := Received(s, Assemble(env, s.rx, i, stored));
    assert OutputOk(w, s', r.t);
    assert Done(w, s', r.t) == r.k + 1;
  }

  // ----- every event -----

  lemma AssemblyInFlight(env: Env, w: World, s: System, s': System, i: nat, r: Ref)
    requires InFlight(env, w, s) && i < |s.rx.table| && DistinctIds(w) && Numbered(w)
    requires IsRef(w, r) && |w[r.t]| >= 1 && Done(w, s, r.t) == r.k
    requires s' == Received(s, RxOutcome(AfterAssembly(w, s.rx, i, r), [ProofOf(env, w, r)]))
    ensures InFlight(env, w, s')
  {
    forall j | 0 <= j < |s'.rx.table| ensures Pending(s'.net, s'.rx.table[j]) {
      assert s'.rx.table[j] == s.rx.table[if j < i then j else j + 1];
      OldRowPending(s, s', s'.rx.table[j]);
    }
    forall q | IsRef(w, q) && |w[q.t]| >= 1 && q.k < Done(w, s', q.t) ensures ProofOf(env, w, q) in s'.net {
      if q.t != r.t { OriginalsDiffer(w, q.t, r.t); }
      if q != r { assert q.k < Done(w, s, q.t); }
    }
  }

  lemma PartInFlight(env: Env, w: World, s: System, p: Part, rate: Option<real>)
    requires Ready(env, w, s) && HeightsOk(s.rx) && PartData(p) in s.net
    ensures InFlight(env, w, Received(s, OnPart(env, s.rx, p, rate)))
  {
    var i := Recognise(env, s.rx.table, p, 0);
    if i < |s.rx.table| {
      assert RowOk(env, w, s, s.rx.table[i]);
      var r :| Current(w, s, r) && Receives(env, w, s.rx.table[i], r);
      RecognisedPart(env, w, s, p, i, r);
      TakenInFlight(env, w, s, i, r, Match(s.rx.table[i], env.mapHash(p, s.rx.table[i].header.random)).value, rate);
    } else {
      RowsInFlight(env, w, s, Received(s, RxOutcome(s.rx, [])));
    }
  }

  lemma TakenInFlight(env: Env, w: World, s: System, i: nat, r: Ref, m: nat, rate: Option<real>)
    requires Ready(env, w, s) && HeightsOk(s.rx) && i < |s.rx.table| && Current(w, s, r) && Receives(env, w, s.rx.table[i], r)
    requires m < |s.rx.table[i].parts|
    ensures InFlight(env, w, Received(s, TakePart(env, s.rx, i, m, Parts(At(w, r))[m], rate)))
  {
    var inc, p := s.rx.table[i], Parts(At(w, r))[m];
    if inc.parts[m].Some? {
      AgainInFlight(env, w, s, i, m, p);
    } else if Complete(Store(inc, m, p)) {
      LastPartKept(env, w, s, r, i, m);
      AssemblyInFlight(env, w, s, Received(s, Assemble(env, s.rx, i, Store(inc, m, p))), i, r);
    } else {
      StoredReceives(env, w, inc, r, m, p, rate);
      StoredPending(s.net, inc, m, p, rate);
      RequestedInFlight(env, w, s, i, AfterStore(Store(inc, m, p), rate));
    }
  }

  lemma AgainInFlight(env: Env, w: World, s: System, i: nat, m: nat, p: Part)
    requires InFlight(env, w, s) && i < |s.rx.table| && HeightOk(s.rx.table[i])
    requires m < |s.rx.table[i].parts| && s.rx.table[i].parts[m].Some?
    ensures InFlight(env, w, Received(s, RxOutcome(s.rx.(table := s.rx.table[i := Store(s.rx.table[i], m, p)]), [])))
  {
    PendingStays(s.net, s.net, s.rx.table[i], Store(s.rx.table[i], m, p));
    assert s.net + {} == s.net;
    RequestedInFlight(env, w, s, i, Requesting(Store(s.rx.table[i], m, p), None));
  }

  lemma MoreHashesInFlight(env: Env, w: World, s: System, id: Hash, segment: nat, chunk: seq<Hash>)
    requires Ready(env, w, s) && HeightsOk(s.rx)
    ensures InFlight(env, w, Received(s, OnMoreHashes(s.rx, id, segment, chunk)))
  {
    var i := Row(s.rx.table, id);
    if i < |s.rx.table| {
      var inc := s.rx.table[i];
      assert RowOk(env, w, s, inc);
      HashmapUpdatePending(s.net, inc, segment, chunk);
      UpdateHeader(inc, segment, chunk);
      PutAtRow(s.rx.table, i, HashmapUpdate(inc, segment, chunk).incoming);
      RequestedInFlight(env, w, s, i, HashmapUpdate(inc, segment, chunk));
    } else {
      RowsInFlight(env, w, s, Received(s, RxOutcome(s.rx, [])));
    }
  }

  lemma UpdateHeader(inc: Incoming, segment: nat, chunk: seq<Hash>)
    requires HeightOk(inc)
    ensures var u := HashmapUpdate(inc, segment, chunk).incoming;
      && u.header == inc.header && u.receivedCount == inc.receivedCount && u.retriesLeft == MAX_RETRIES
      && u.entries == WriteEntries(inc.entries, segment * HASHMAP_MAX_LEN, chunk)
  {
  }

  lemma ExpireInFlight(env: Env, w: World, s: System, i: nat)
    requires Ready(env, w, s) && HeightsOk(s.rx) && i < |s.rx.table|
    ensures InFlight(env, w, Received(s, OnExpire(s.rx, i)))
  {
    var inc := s.rx.table[i];
    assert RowOk(env, w, s, inc);
    if Expire(inc).Some? {
      ExpirePending(s.net, inc);
      RequestedInFlight(env, w, s, i, Expire(inc).value);
    } else {
      var s' := Received(s, OnExpire(s.rx, i));
      forall j | 0 <= j < |s'.rx.table| ensures s'.rx.table[j] in s.rx.table {
        assert s'.rx.table[j] == s.rx.table[if j < i then j else j + 1];
      }
      RowsInFlight(env, w, s, s');
    }
  }

  lemma AdvertiseInFlight(env: Env, w: World, s: System, p: Packet)
    requires Ready(env, w, s) && p in s.net && p.Advertise?
    ensures InFlight(env, w, Received(s.(net := s.net - {p}), OnAdvertise(s.rx, p.header, p.totalParts, p.entries)))
  {
    assert PacketOk(env, w, s, p);
    var r :| Current(w, s, r) && p == AdvertisementOf(env, At(w, r)) && Row(s.rx.table, p.header.id) == |s.rx.table|;
    var x := NewRow(env, w, s, p, r);
    NewPending(s.net - {p}, p.header, p.totalParts, p.entries);
    OpenedInFlight(env, w, s, p, x);
  }

  lemma OpenedInFlight(env: Env, w: World, s: System, p: Packet, x: Requesting)
    requires InFlight(env, w, s) && p.Advertise? && x.request.Some?
    requires Pending(s.net - {p} + {Ask(x.request.value)}, x.incoming)
    ensures InFlight(env, w, Received(s.(net := s.net - {p}),
                                      RxOutcome(s.rx.(table := s.rx.table + [x.incoming]), [Ask(x.request.value)])))
  {
    var s' := Received(s.(net := s.net - {p}), RxOutcome(s.rx.(table := s.rx.table + [x.incoming]), [Ask(x.request.value)]));
    assert s'.net == s.net - {p} + {Ask(x.request.value)};
    RowInFlight(env, w, s, s', |s.rx.table|);
  }

  /** Events of the sender leave the receiver alone and take nothing off the net. */
  lemma SenderInFlight(env: Env, w: World, s: System, ev: Event)
    requires InFlight(env, w, s) && HeightsOk(s.rx) && !ev.Expired?
    requires ev.Deliver? ==> ev.packet !in s.net || ev.packet.Ask? || ev.packet.Proof?
    ensures InFlight(env, w, Step(env, w, s, ev))
  {
    var s' := Step(env, w, s, ev);
    assert s'.rx == s.rx && Carries(s.net, s'.net);
    RowsInFlight(env, w, s, s');
  }

  lemma StepInFlight(env: Env, w: World, s: System, ev: Event)
    requires Ready(env, w, s) && HeightsOk(s.rx)
    ensures InFlight(env, w, Step(env, w, s, ev))
  {
    if ev.Expired? {
      if ev.row < |s.rx.table| { ExpireInFlight(env, w, s, ev.row); }
    } else if !ev.Deliver? || ev.packet !in s.net || ev.packet.Ask? || ev.packet.Proof? {
      SenderInFlight(env, w, s, ev);
    } else {
      match ev.packet
      case PartData(part) => PartInFlight(env, w, s, part, ev.rate);
      case MoreHashes(id, segment, chunk) => MoreHashesInFlight(env, w, s, id, segment, chunk);
      case Advertise(_, _, _) => AdvertiseInFlight(env, w, s, ev.packet);
    }
  }

  lemma StepReady(env: Env, w: World, s: System, ev: Event)
    requires Ready(env, w, s)
    ensures Ready(env, w, Step(env, w, s, ev))
  {
    InvHeights(env, w, s);
    StepInFlight(env, w, s, ev);
    StepInv(env, w, s, ev);
  }

  lemma {:induction false} RunReady(env: Env, w: World, s: System, evs: seq<Event>)
    requires Ready(env, w, s)
    ensures Ready(env, w, Run(env, w, s, evs))
    decreases |evs|
  {
    if evs != [] {
      StepReady(env, w, s, evs[0]);
      RunReady(env, w, Step(env, w, s, evs[0]), evs[1..]);
    }
  }

  lemma StartReady(env: Env, w: World)
    requires WorldOk(env, w)
    ensures Ready(env, w, Start(w))
  {
    StartInv(env, w);
  }

  // ----- the latest request is answered -----

  lemma {:induction false} OutgoingIs(w: World, status: seq<Status>, r: Ref, t: nat)
    requires DistinctIds(w) && IsRef(w, r) && t <= r.t < |status| && status[r.t] == Sending(r.k)
    ensures Outgoing(w, status, At(w, r).header.id, t) == Some(r)
    decreases r.t - t
  {
    if status[t].Sending? && IsRef(w, Ref(t, status[t].k)) && At(w, Ref(t, status[t].k)).header.id == At(w, r).header.id {
      assert Ref(t, status[t].k) == r;
    } else {
      OutgoingIs(w, status, r, t + 1);
    }
  }

  lemma {:induction false} AnswerHas(env: Env, w: World, r: Ref, wanted: seq<Hash>, m: nat)
    requires WorldOk(env, w) && IsRef(w, r) && m < |Parts(At(w, r))| && Hashes(env, At(w, r))[m] in wanted
    ensures PartData(Parts(At(w, r))[m]) in Answer(Hashes(env, At(w, r)), Parts(At(w, r)), wanted)
    decreases |wanted|
  {
    PositionOfHash(env, w, r, m);
    if wanted[0] != Hashes(env, At(w, r))[m] { AnswerHas(env, w, r, wanted[1..], m); }
  }

  /** Row `i` receives segment `r`, whose sender waits for its proof. */
  ghost predicate Receiving(env: Env, w: World, s: System, r: Ref, i: nat) {
    && Ready(env, w, s) && IsRef(w, r) && r.t < |s.status| && s.status[r.t] == Sending(r.k)
    && i < |s.rx.table| && Current(w, s, r) && Receives(env, w, s.rx.table[i], r)
  }

  lemma ReplyDelivered(env: Env, w: World, s: System, r: Ref, q: Request)
    requires Inv(env, w, s) && IsRef(w, r) && r.t < |s.status| && s.status[r.t] == Sending(r.k)
    requires Ask(q) in s.net && q.id == At(w, r).header.id
    ensures var s' := Step(env, w, s, Deliver(Ask(q), None));
      && OnRequest(env, At(w, r), q).Reply? && s'.rx == s.rx && s'.status == s.status
      && forall p | p in OnRequest(env, At(w, r), q).sends :: p in s'.net
  {
    InvHeights(env, w, s);
    OutgoingIs(w, s.status, r, 0);
    NeverOutOfSequence(env, w, s, q, r);
  }

  lemma PartsNamed(env: Env, w: World, r: Ref, inc: Incoming, m: nat)
    requires WorldOk(env, w) && IsRef(w, r) && Receives(env, w, inc, r) && AskedKnown(inc) && m in inc.asked
    ensures m < |Parts(At(w, r))| && PartData(Parts(At(w, r))[m]) in Answer(Hashes(env, At(w, r)), Parts(At(w, r)), LatestRequest(inc).wanted)
  {
    var k :| 0 <= k < |inc.asked| && inc.asked[k] == m;
    var hs := Hashes(env, At(w, r));
    assert LatestRequest(inc).wanted[k] == inc.entries[m] == hs[m];
    AnswerHas(env, w, r, LatestRequest(inc).wanted, m);
  }

  /** The answer to a row's latest request has every part it names. */
  lemma PartsAnswered(env: Env, w: World, s: System, r: Ref, i: nat)
    requires Receiving(env, w, s, r, i) && AskedKnown(s.rx.table[i])
    ensures var inc := s.rx.table[i];
      var s' := Step(env, w, s, Deliver(Ask(LatestRequest(inc)), None));
      && s'.rx == s.rx && s'.status == s.status
      && (forall m | m in inc.asked :: m < |Parts(At(w, r))| && PartData(Parts(At(w, r))[m]) in s'.net)
  {
    var inc := s.rx.table[i];
    var q := LatestRequest(inc);
    assert Pending(s.net, inc);
    ReplyDelivered(env, w, s, r, q);
    var answer := Answer(Hashes(env, At(w, r)), Parts(At(w, r)), q.wanted);
    assert forall p | p in answer :: p in OnRequest(env, At(w, r), q).sends;
    forall m | m in inc.asked
      ensures m < |Parts(At(w, r))| && PartData(Parts(At(w, r))[m]) in Step(env, w, s, Deliver(Ask(q), None)).net
    {
      PartsNamed(env, w, r, inc, m);
    }
  }

  lemma NextPieceSent(env: Env, w: World, s: System, r: Ref, q: Request, known: nat)
    requires Inv(env, w, s) && IsRef(w, r) && At(w, r).header.id == q.id && Ask(q) in s.net
    requires 0 < known <= |Hashes(env, At(w, r))| && q.last == Some(Hashes(env, At(w, r))[known - 1])
    ensures var hs := Hashes(env, At(w, r));
      && known < |hs| && known % HASHMAP_MAX_LEN == 0 && OnRequest(env, At(w, r), q).Reply?
      && MoreHashes(q.id, known / HASHMAP_MAX_LEN, PieceFrom(hs, known)) in OnRequest(env, At(w, r), q).sends
  {
    PositionOfHash(env, w, r, known - 1);
    NeverOutOfSequence(env, w, s, q, r);
    var sends := OnRequest(env, At(w, r), q).sends;
    assert sends[|sends| - 1] in sends;
  }

  /** And if the known hashes have run out, the next piece of the hashmap. */
  lemma HashesAnswered(env: Env, w: World, s: System, r: Ref, i: nat)
    requires Receiving(env, w, s, r, i) && AskedKnown(s.rx.table[i]) && s.rx.table[i].waitingForHmu
    ensures var inc, hs := s.rx.table[i], Hashes(env, At(w, r));
      var s' := Step(env, w, s, Deliver(Ask(LatestRequest(inc)), None));
      && s'.rx == s.rx && s'.status == s.status && |inc.entries| < |hs| && |inc.entries| % HASHMAP_MAX_LEN == 0
      && MoreHashes(inc.header.id, |inc.entries| / HASHMAP_MAX_LEN, PieceFrom(hs, |inc.entries|)) in s'.net
  {
    var inc := s.rx.table[i];
    assert Pending(s.net, inc);
    assert inc.entries[|inc.entries| - 1] == Hashes(env, At(w, r))[|inc.entries| - 1];
    NextPieceSent(env, w, s, r, LatestRequest(inc), |inc.entries|);
    ReplyDelivered(env, w, s, r, LatestRequest(inc));
  }

  /** With parts outstanding, the first one missing is asked for and searched. */
  lemma FirstMissingAsked(inc: Incoming)
    requires Progress.Live(inc) && !Complete(inc) && !inc.waitingForHmu && AskedKnown(inc) && AskedFirst(inc)
    ensures var m := inc.completed + 1;
      m in inc.asked && m < |inc.parts| && inc.parts[m].None? && Searched(inc, m)
  {
    Progress.NeverStalls(inc);
    var a :| a in inc.asked && a < |inc.parts| && inc.parts[a].None?;
    var k :| 0 <= k < |inc.asked| && inc.asked[k] == a;
    assert a > inc.completed;
    assert inc.parts[inc.completed + 1].None?;
    var m := inc.completed + 1;
    if m != a { assert m < inc.asked[k]; }
    var j :| 0 <= j < |inc.asked| && inc.asked[j] == m;
  }

  lemma RowOf(env: Env, w: World, s: System, r: Ref, i: nat)
    requires Inv(env, w, s) && IsRef(w, r) && i < |s.rx.table| && s.rx.table[i].header == At(w, r).header
    ensures Current(w, s, r) && Receives(env, w, s.rx.table[i], r)
  {
    assert RowOk(env, w, s, s.rx.table[i]);
    var q :| Current(w, s, q) && Receives(env, w, s.rx.table[i], q);
    assert q == r;
  }

  ghost predicate Finished(env: Env, w: World, s: System, r: Ref) {
    && Ready(env, w, s) && IsRef(w, r) && r.t < |s.status| && s.status[r.t] == Sending(r.k)
    && |w[r.t]| >= 1 && Done(w, s, r.t) == r.k + 1
  }

  lemma AfterTwo(env: Env, w: World, s: System, a: Event, b: Event)
    requires Ready(env, w, s)
    ensures Run(env, w, s, [a, b]) == Step(env, w, Step(env, w, s, a), b)
    ensures Ready(env, w, Step(env, w, s, a)) && Ready(env, w, Run(env, w, s, [a, b]))
  {
    assert [a, b][1..] == [b] && [b][1..] == [];
    var s1 := Step(env, w, s, a);
    assert Run(env, w, s1, [b]) == Run(env, w, Step(env, w, s1, b), []) == Step(env, w, s1, b);
    StepReady(env, w, s, a);
    StepReady(env, w, Step(env, w, s, a), b);
  }

  /** A kept part, as seen from the row. */
  lemma KeptMeans(env: Env, w: World, s: System, s': System, r: Ref, i: nat, m: nat)
    requires Receiving(env, w, s, r, i) && Ready(env, w, s') && m < |s.rx.table[i].parts|
    requires PartKept(env, w, s, s', r, i, m)
    ensures Finished(env, w, s', r)
      || (Receiving(env, w, s', r, i) && s'.rx.table[i].entries == s.rx.table[i].entries
          && s'.rx.table[i].receivedCount == s.rx.table[i].receivedCount + 1)
  {
    Progress.HeldAtMostAll(s.rx.table[i].parts);
    var inc := s.rx.table[i];
    if inc.receivedCount + 1 < |inc.parts| {
      assert s'.status == s.status && s'.rx.table[i].entries == inc.entries;
      assert s'.rx.table[i].receivedCount == inc.receivedCount + 1;
      RowOf(env, w, s', r, i);
      assert Receiving(env, w, s', r, i);
    } else {
      assert Finished(env, w, s', r);
    }
  }

  /** The latest request and the first part missing, delivered: one part more. */
  lemma FetchPart(env: Env, w: World, s: System, r: Ref, i: nat) returns (evs: seq<Event>)
    requires Receiving(env, w, s, r, i) && !s.rx.table[i].waitingForHmu
    ensures var s' := Run(env, w, s, evs);
      || Finished(env, w, s', r)
      || (Receiving(env, w, s', r, i) && s'.rx.table[i].entries == s.rx.table[i].entries
          && s'.rx.table[i].receivedCount == s.rx.table[i].receivedCount + 1)
  {
    var inc := s.rx.table[i];
    assert Pending(s.net, inc);
    var m := inc.completed + 1;
    FirstMissingAsked(inc);
    PartsAnswered(env, w, s, r, i);
    var a, b := Deliver(Ask(LatestRequest(inc)), None), Deliver(PartData(Parts(At(w, r))[m]), None);
    evs := [a, b];
    AfterTwo(env, w, s, a, b);
    var s1 := Step(env, w, s, a);
    InvHeights(env, w, s1);
    RowOf(env, w, s1, r, i);
    NewPartKept(env, w, s1, r, i, m, None);
    KeptMeans(env, w, s1, Run(env, w, s, evs), r, i, m);
  }

  /** The piece of a hashmap that begins where the known hashes end is appended. */
  lemma PieceAppended(inc: Incoming, hs: seq<Hash>)
    requires HeightOk(inc) && |inc.entries| < |hs| && |inc.entries| % HASHMAP_MAX_LEN == 0
    ensures var known, chunk := |inc.entries|, PieceFrom(hs, |inc.entries|);
      && known / HASHMAP_MAX_LEN * HASHMAP_MAX_LEN == known && |chunk| > 0
      && HashmapUpdate(inc, known / HASHMAP_MAX_LEN, chunk).incoming.entries == inc.entries + chunk
  {
    UpdateHeader(inc, |inc.entries| / HASHMAP_MAX_LEN, PieceFrom(hs, |inc.entries|));
  }

  /** The next piece of a hashmap makes a row know more. */
  lemma PieceTaken(env: Env, w: World, s: System, r: Ref, i: nat, p: Packet)
    requires Receiving(env, w, s, r, i) && p in s.net
    requires var inc, hs := s.rx.table[i], Hashes(env, At(w, r));
      && |inc.entries| < |hs| && |inc.entries| % HASHMAP_MAX_LEN == 0
      && p == MoreHashes(inc.header.id, |inc.entries| / HASHMAP_MAX_LEN, PieceFrom(hs, |inc.entries|))
    ensures var s' := Step(env, w, s, Deliver(p, None));
      && Receiving(env, w, s', r, i) && |s.rx.table[i].entries| < |s'.rx.table[i].entries|
      && s'.rx.table[i].receivedCount == s.rx.table[i].receivedCount && s'.rx.table[i].retriesLeft == MAX_RETRIES
  {
    var inc := s.rx.table[i];
    InvHeights(env, w, s);
    StepReady(env, w, s, Deliver(p, None));
    RowIsUnique(s.rx.table, i);
    PieceAppended(inc, Hashes(env, At(w, r)));
    UpdateHeader(inc, p.segment, p.chunk);
    PutAtRow(s.rx.table, i, HashmapUpdate(inc, p.segment, p.chunk).incoming);
    UpdatedRow(env, w, s, i, p);
    RowOf(env, w, Step(env, w, s, Deliver(p, None)), r, i);
  }

  lemma UpdatedRow(env: Env, w: World, s: System, i: nat, p: Packet)
    requires HeightsOk(s.rx) && p in s.net && p.MoreHashes? && i == Row(s.rx.table, p.id) < |s.rx.table|
    requires var u := HashmapUpdate(s.rx.table[i], p.segment, p.chunk).incoming; Put(s.rx.table, u) == s.rx.table[i := u]
    ensures var s' := Step(env, w, s, Deliver(p, None));
      s'.status == s.status && s'.rx.table == s.rx.table[i := HashmapUpdate(s.rx.table[i], p.segment, p.chunk).incoming]
  {
  }

  /** The latest request and the piece it calls for, delivered: more hashes known. */
  lemma FetchHashes(env: Env, w: World, s: System, r: Ref, i: nat) returns (evs: seq<Event>)
    requires Receiving(env, w, s, r, i) && s.rx.table[i].waitingForHmu
    ensures var s' := Run(env, w, s, evs);
      && Receiving(env, w, s', r, i) && |s.rx.table[i].entries| < |s'.rx.table[i].entries|
      && s'.rx.table[i].receivedCount == s.rx.table[i].receivedCount
  {
    var inc, known := s.rx.table[i], |s.rx.table[i].entries|;
    assert Pending(s.net, inc);
    HashesAnswered(env, w, s, r, i);
    var a := Deliver(Ask(LatestRequest(inc)), None);
    var b := Deliver(MoreHashes(inc.header.id, known / HASHMAP_MAX_LEN, PieceFrom(Hashes(env, At(w, r)), known)), None);
    evs := [a, b];
    AfterTwo(env, w, s, a, b);
    var s1 := Step(env, w, s, a);
    RowOf(env, w, s1, r, i);
    PieceTaken(env, w, s1, r, i, b.packet);
  }

  lemma {:induction false} RunAppend(env: Env, w: World, s: System, a: seq<Event>, b: seq<Event>)
    ensures Run(env, w, s, a + b) == Run(env, w, Run(env, w, s, a), b)
    decreases |a|
  {
    if a == [] {
      assert a + b == b;
    } else {
      assert (a + b)[0] == a[0] && (a + b)[1..] == a[1..] + b;
      RunAppend(env, w, Step(env, w, s, a[0]), a[1..], b);
    }
  }

  lemma RoomLeft(env: Env, w: World, s: System, r: Ref, i: nat)
    requires Receiving(env, w, s, r, i)
    ensures |s.rx.table[i].entries| <= |Parts(At(w, r))| && s.rx.table[i].receivedCount <= |Parts(At(w, r))|
  {
    Progress.HeldAtMostAll(s.rx.table[i].parts);
  }

  /** A segment being received can be completed. */
  lemma {:induction false} FinishSegment(env: Env, w: World, s: System, r: Ref, i: nat) returns (evs: seq<Event>)
    requires Receiving(env, w, s, r, i)
    ensures Finished(env, w, Run(env, w, s, evs), r)
    decreases |Parts(At(w, r))| - |s.rx.table[i].entries|, |Parts(At(w, r))| - s.rx.table[i].receivedCount
  {
    RoomLeft(env, w, s, r, i);
    if s.rx.table[i].waitingForHmu { evs := FetchHashes(env, w, s, r, i); } else { evs := FetchPart(env, w, s, r, i); }
    var s' := Run(env, w, s, evs);
    if !Finished(env, w, s', r) {
      RoomLeft(env, w, s', r, i);
      var more := FinishSegment(env, w, s', r, i);
      RunAppend(env, w, s, evs, more);
      evs := evs + more;
    }
  }

  // ----- whole transfers -----

  /** An advertisement under way opens a row. */
  lemma OpenRow(env: Env, w: World, s: System, r: Ref)
    requires Ready(env, w, s) && IsRef(w, r) && r.t < |s.status| && s.status[r.t] == Sending(r.k)
    requires AdvertisementOf(env, At(w, r)) in s.net
    ensures Receiving(env, w, Step(env, w, s, Deliver(AdvertisementOf(env, At(w, r)), None)), r, |s.rx.table|)
  {
    var p := AdvertisementOf(env, At(w, r));
    var s' := Step(env, w, s, Deliver(p, None));
    InvHeights(env, w, s);
    StepReady(env, w, s, Deliver(p, None));
    assert PacketOk(env, w, s, p);
    var q :| Current(w, s, q) && p == AdvertisementOf(env, At(w, q)) && Row(s.rx.table, p.header.id) == |s.rx.table|;
    assert q == r;
    var x := NewRow(env, w, s, p, r);
    assert s'.rx.table[|s.rx.table|] == x.incoming && s'.status == s.status;
    RowOf(env, w, s', r, |s.rx.table|);
  }

  /** The proof of a finished segment starts the next one or resolves the promise. */
  lemma ProofMovesOn(env: Env, w: World, s: System, r: Ref)
    requires Finished(env, w, s, r)
    ensures var s' := Step(env, w, s, Deliver(ProofOf(env, w, r), None));
      && Ready(env, w, s')
      && (r.k + 1 == |w[r.t]| ==> s'.status[r.t] == Resolved)
      && (r.k + 1 < |w[r.t]| ==> var next := Ref(r.t, r.k + 1);
            s'.status[r.t] == Sending(r.k + 1) && AdvertisementOf(env, At(w, next)) in s'.net)
  {
    var p := ProofOf(env, w, r);
    assert p in s.net;
    InvHeights(env, w, s);
    OutgoingIs(w, s.status, r, 0);
    ProofStep(env, w, s, p.id, p.value, r);
    StepReady(env, w, s, Deliver(p, None));
  }

  /** Neither end has given the transfer up: the receiver has proved the segment under
      way, or has a row for it, or its advertisement has yet to arrive. */
  ghost predicate Alive(env: Env, w: World, s: System, t: nat)
    requires t < |w| && |w[t]| >= 1 && t < |s.status|
  {
    match s.status[t]
    case NotStarted => true
    case Sending(k) =>
      k < |w[t]| && (Done(w, s, t) == k + 1 || Row(s.rx.table, At(w, Ref(t, k)).header.id) < |s.rx.table|
                     || AdvertisementOf(env, At(w, Ref(t, k))) in s.net)
    case Resolved => true
    case Rejected => false
  }

  lemma Then(env: Env, w: World, s: System, ev: Event, rest: seq<Event>)
    ensures Run(env, w, s, [ev] + rest) == Run(env, w, Step(env, w, s, ev), rest)
  {
    assert ([ev] + rest)[1..] == rest;
  }

  lemma {:induction false} FinishFromProof(env: Env, w: World, s: System, r: Ref) returns (evs: seq<Event>)
    requires Finished(env, w, s, r)
    ensures var s' := Run(env, w, s, evs); Ready(env, w, s') && r.t < |s'.status| && s'.status[r.t] == Resolved
    decreases |w[r.t]| - r.k, 0
  {
    ProofMovesOn(env, w, s, r);
    var ev := Deliver(ProofOf(env, w, r), None);
    var s' := Step(env, w, s, ev);
    evs := [];
    if r.k + 1 < |w[r.t]| { evs := FinishFromAdvertisement(env, w, s', Ref(r.t, r.k + 1)); }
    Then(env, w, s, ev, evs);
    evs := [ev] + evs;
  }

  lemma {:induction false} FinishFromAdvertisement(env: Env, w: World, s: System, r: Ref) returns (evs: seq<Event>)
    requires Ready(env, w, s) && IsRef(w, r) && r.t < |s.status| && s.status[r.t] == Sending(r.k)
    requires AdvertisementOf(env, At(w, r)) in s.net
    ensures var s' := Run(env, w, s, evs); Ready(env, w, s') && r.t < |s'.status| && s'.status[r.t] == Resolved
    decreases |w[r.t]| - r.k, 2
  {
    OpenRow(env, w, s, r);
    var ev := Deliver(AdvertisementOf(env, At(w, r)), None);
    var more := FinishFromRow(env, w, Step(env, w, s, ev), r, |s.rx.table|);
    Then(env, w, s, ev, more);
    evs := [ev] + more;
  }

  lemma {:induction false} FinishFromRow(env: Env, w: World, s: System, r: Ref, i: nat) returns (evs: seq<Event>)
    requires Receiving(env, w, s, r, i)
    ensures var s' := Run(env, w, s, evs); Ready(env, w, s') && r.t < |s'.status| && s'.status[r.t] == Resolved
    decreases |w[r.t]| - r.k, 1
  {
    evs := FinishSegment(env, w, s, r, i);
    var more := FinishFromProof(env, w, Run(env, w, s, evs), r);
    RunAppend(env, w, s, evs, more);
    evs := evs + more;
  }

  lemma Resolve(env: Env, w: World, s: System, t: nat) returns (evs: seq<Event>)
    requires Ready(env, w, s) && t < |w| && |w[t]| >= 1 && Alive(env, w, s, t)
    ensures var s' := Run(env, w, s, evs); Ready(env, w, s') && t < |s'.status| && s'.status[t] == Resolved
  {
    evs := [];
    match s.status[t]
    case Resolved =>
    case NotStarted =>
      var ev := SendResource(t);
      StepReady(env, w, s, ev);
      var more := FinishFromAdvertisement(env, w, Step(env, w, s, ev), Ref(t, 0));
      Then(env, w, s, ev, more);
      evs := [ev] + more;
    case Sending(k) =>
      var r := Ref(t, k);
      var i := Row(s.rx.table, At(w, r).header.id);
      if Done(w, s, t) == k + 1 {
        evs := FinishFromProof(env, w, s, r);
      } else if i < |s.rx.table| {
        HeaderById(env, w, s, r, i);
        evs := FinishFromRow(env, w, s, r, i);
      } else {
        evs := FinishFromAdvertisement(env, w, s, r);
      }
  }

  lemma HeaderById(env: Env, w: World, s: System, r: Ref, i: nat)
    requires Inv(env, w, s) && IsRef(w, r) && i < |s.rx.table| && s.rx.table[i].header.id == At(w, r).header.id
    ensures Current(w, s, r) && Receives(env, w, s.rx.table[i], r)
  {
    assert RowOk(env, w, s, s.rx.table[i]);
    var q :| Current(w, s, q) && Receives(env, w, s.rx.table[i], q);
    assert q == r;
  }

  /** In every run, whatever was lost, repeated or late so far: a transfer that
      neither end has given up can still be carried through, and then the receiver
      has emitted exactly its data, once, and the promise is resolved. */
  lemma NeverStuck(env: Env, w: World, evs: seq<Event>, t: nat) returns (more: seq<Event>)
    requires WorldOk(env, w) && t < |w|
    requires var s := Run(env, w, Start(w), evs); t < |s.status| && Alive(env, w, s, t)
    ensures var s := Run(env, w, Start(w), evs + more);
      && t < |s.status| && s.status[t] == Resolved
      && EmittedFor(s.rx.emitted, Original(w, t)) == [Data(w, t)]
  {
    StartReady(env, w);
    RunReady(env, w, Start(w), evs);
    more := Resolve(env, w, Run(env, w, Start(w), evs), t);
    RunAppend(env, w, Start(w), evs, more);
    DeliveredWhole(env, w, evs + more, t);
  }

  /** In every run a part that fills a searched missing position of a row is held
      from then on, and the last one completes the segment. */
  lemma ArrivingPartIsKept(env: Env, w: World, evs: seq<Event>, r: Ref, i: nat, m: nat, rate: Option<real>)
    requires WorldOk(env, w) && IsRef(w, r) && m < |Parts(At(w, r))|
    requires var s := Run(env, w, Start(w), evs);
      && i < |s.rx.table| && s.rx.table[i].header == At(w, r).header && m < |s.rx.table[i].parts|
      && s.rx.table[i].parts[m].None? && Searched(s.rx.table[i], m) && PartData(Parts(At(w, r))[m]) in s.net
    ensures var s := Run(env, w, Start(w), evs);
      && |w[r.t]| >= 1 && |s.rx.table[i].parts| == |Parts(At(w, r))|
      && PartKept(env, w, s, Step(env, w, s, Deliver(PartData(Parts(At(w, r))[m]), rate)), r, i, m)
  {
    StartInv(env, w);
    RunInv(env, w, Start(w), evs);
    var s := Run(env, w, Start(w), evs);
    InvHeights(env, w, s);
    RowOf(env, w, s, r, i);
    NewPartKept(env, w, s, r, i, m, rate);
  }
}
