/** Every run delivers resources whole, in order and once. */
module ResourceDeliveryProof {
  import opened Bytes
  import opened ResourceIncoming
  import opened ResourceTransfer
  import opened ResourceDelivery
  import Progress = ResourceProgress

  // ----- what changes and what stays -----

  /** What a step of the receiver never takes back. */
  ghost predicate Extends(w: World, s: System, s': System) {
    && |s'.status| == |s.status|
    && (forall t, k: nat :: 0 <= t < |s.status| && Begun(s.status[t], k) ==> Begun(s'.status[t], k))
    && (forall h :: s.rx.proved[h] <= s'.rx.proved[h])
    && forall r, known: nat | IsRef(w, r) && r.t < |s.status| && Begun(s.status[r.t], r.k) ::
      Knows(s, At(w, r).header.id, known) && Unadvertised(s, At(w, r).header.id)
      ==> Knows(s', At(w, r).header.id, known) && Unadvertised(s', At(w, r).header.id)
  }

  /** Everything under way but advertisements stays justified. */
  lemma PacketStays(env: Env, w: World, s: System, s': System, p: Packet)
    requires PacketOk(env, w, s, p) && Extends(w, s, s') && !p.Advertise? && |s.status| == |w|
    ensures PacketOk(env, w, s', p)
  {
    match p
    case Ask(q) =>
      if q.last.Some? {
        var r, known: nat :| LastKnown(env, w, s, q.id, q.last.value, r, known);
        assert LastKnown(env, w, s', q.id, q.last.value, r, known);
      }
    case PartData(part) =>
    case MoreHashes(id, segment, chunk) =>
      var r :| IsRef(w, r) && At(w, r).header.id == id && r.t < |s.status| && Begun(s.status[r.t], r.k)
        && IsPiece(Hashes(env, At(w, r)), segment, chunk) && Knows(s, id, segment * HASHMAP_MAX_LEN) && Unadvertised(s, id);
      assert Begun(s'.status[r.t], r.k);
    case Proof(id, value) =>
      var r :| IsRef(w, r) && |w[r.t]| >= 1 && At(w, r).header.id == id && r.k < Done(w, s, r.t)
        && value == env.proof(At(w, r).plaintext, id);
      assert r.k < Done(w, s', r.t);
  }

  /** The same number of proved segments and no less begun: rows and outputs stay. */
  lemma RowStays(env: Env, w: World, s: System, s': System, inc: Incoming)
    requires RowOk(env, w, s, inc) && |s'.status| == |s.status| && s'.rx.proved == s.rx.proved
    requires forall t, k: nat :: 0 <= t < |s.status| && Begun(s.status[t], k) ==> Begun(s'.status[t], k)
    ensures RowOk(env, w, s', inc)
  {
    var r :| Current(w, s, r) && Receives(env, w, inc, r);
    assert Current(w, s', r);
  }

  // ----- rows -----

  lemma RowIsUnique(table: seq<Incoming>, i: nat)
    requires RowsDistinct(table) && i < |table|
    ensures Row(table, table[i].header.id) == i
  {
  }

  /** A transfer being received is no longer advertised. */
  lemma ReceivedNotAdvertised(env: Env, w: World, s: System, i: nat)
    requires Inv(env, w, s) && i < |s.rx.table|
    ensures Unadvertised(s, s.rx.table[i].header.id)
  {
    RowIsUnique(s.rx.table, i);
    forall p | p in s.net && p.Advertise? ensures p.header.id != s.rx.table[i].header.id {
      assert PacketOk(env, w, s, p);
    }
  }

  lemma InvHeights(env: Env, w: World, s: System)
    requires Inv(env, w, s)
    ensures HeightsOk(s.rx)
  {
    forall i | 0 <= i < |s.rx.table| ensures HeightOk(s.rx.table[i]) {
      assert RowOk(env, w, s, s.rx.table[i]);
    }
  }

  /** Row `i` becomes `inc`, knowing no fewer hashes; at most a request is sent. */
  lemma RowUpdated(env: Env, w: World, s: System, i: nat, r: Ref, x: Requesting)
    requires Inv(env, w, s) && i < |s.rx.table|
    requires Current(w, s, r) && Receives(env, w, s.rx.table[i], r) && Receives(env, w, x.incoming, r)
    requires |s.rx.table[i].entries| <= |x.incoming.entries|
    requires x.request.Some? ==> RequestOk(x.incoming, x.request.value)
    ensures var o := RxOutcome(s.rx.(table := s.rx.table[i := x.incoming]), if x.request.Some? then [Ask(x.request.value)] else []);
      Inv(env, w, Received(s, o))
  {
    var sends := if x.request.Some? then [Ask(x.request.value)] else [];
    var s' := Received(s, RxOutcome(s.rx.(table := s.rx.table[i := x.incoming]), sends));
    UpdatedExtends(env, w, s, i, x.incoming, s');
    assert Current(w, s', r);
    forall j | 0 <= j < |s'.rx.table| ensures RowOk(env, w, s', s'.rx.table[j]) {
      if j != i { RowStays(env, w, s, s', s.rx.table[j]); }
    }
    forall p | p in s'.net ensures PacketOk(env, w, s', p) {
      if p in s.net {
        if p.Advertise? { AdvertisementStays(env, w, s, i, x.incoming, s', p); } else { PacketStays(env, w, s, s', p); }
      } else {
        RequestJustified(env, w, s, s', i, r, x);
      }
    }
    forall t | 0 <= t < |w| ensures StatusOk(w, s', t) && OutputOk(w, s', t) {
      assert StatusOk(w, s, t) && OutputOk(w, s, t);
    }
  }

  /** A request asks for at most 75 parts and repeats the last known hash only
      where more are to come. */
  predicate RequestOk(inc: Incoming, q: Request) {
    q.id == inc.header.id && |q.wanted| <= WINDOW_MAX_FAST
    && (q.last.Some? ==> inc.entries != [] && |inc.entries| < |inc.parts| && q.last.value == inc.entries[|inc.entries| - 1])
  }

  lemma RowAfterUpdate(table: seq<Incoming>, i: nat, inc: Incoming, id: Hash)
    requires i < |table| && inc.header.id == table[i].header.id
    ensures Row(table[i := inc], id) == Row(table, id)
  {
    var a, b := Row(table, id), Row(table[i := inc], id);
    if a < |table| { assert table[i := inc][a].header.id == id; }
    if b < |table| { assert table[b].header.id == id; }
  }

  lemma UpdatedExtends(env: Env, w: World, s: System, i: nat, inc: Incoming, s': System)
    requires Inv(env, w, s) && i < |s.rx.table| && inc.header == s.rx.table[i].header
    requires |s.rx.table[i].entries| <= |inc.entries|
    requires s'.status == s.status && s'.rx == s.rx.(table := s.rx.table[i := inc])
    requires forall p | p in s'.net && p.Advertise? :: p in s.net
    ensures Extends(w, s, s')
  {
    forall id, known: nat | Knows(s, id, known) && Unadvertised(s, id) ensures Knows(s', id, known) && Unadvertised(s', id) {
      RowAfterUpdate(s.rx.table, i, inc, id);
    }
  }

  lemma AdvertisementStays(env: Env, w: World, s: System, i: nat, inc: Incoming, s': System, p: Packet)
    requires p.Advertise? && PacketOk(env, w, s, p) && i < |s.rx.table| && inc.header == s.rx.table[i].header
    requires s'.status == s.status && s'.rx == s.rx.(table := s.rx.table[i := inc])
    ensures PacketOk(env, w, s', p)
  {
    RowAfterUpdate(s.rx.table, i, inc, p.header.id);
    var r :| Current(w, s, r) && p == AdvertisementOf(env, At(w, r));
    assert Current(w, s', r);
  }

  lemma LastOfReceived(env: Env, w: World, s: System, q: Request, r: Ref, inc: Incoming)
    requires IsRef(w, r) && r.t < |s.status| && Begun(s.status[r.t], r.k) && Receives(env, w, inc, r)
    requires RequestOk(inc, q) && q.last.Some? && Knows(s, q.id, |inc.entries|) && Unadvertised(s, q.id)
    ensures LastKnown(env, w, s, q.id, q.last.value, r, |inc.entries|)
  {
  }

  lemma RequestJustified(env: Env, w: World, s: System, s': System, i: nat, r: Ref, x: Requesting)
    requires Inv(env, w, s) && i < |s.rx.table| && x.request.Some?
    requires Current(w, s, r) && Receives(env, w, s.rx.table[i], r) && Receives(env, w, x.incoming, r)
    requires RequestOk(x.incoming, x.request.value)
    requires s'.status == s.status && s'.rx == s.rx.(table := s.rx.table[i := x.incoming])
    requires s'.net == s.net + {Ask(x.request.value)}
    ensures PacketOk(env, w, s', Ask(x.request.value))
  {
    var q := x.request.value;
    if q.last.Some? {
      RowIsUnique(s.rx.table, i);
      RowAfterUpdate(s.rx.table, i, x.incoming, q.id);
      ReceivedNotAdvertised(env, w, s, i);
      LastOfReceived(env, w, s', q, r, x.incoming);
    }
  }

  // ----- requests, hashmap updates and deadlines -----

  lemma RequestNextOk(inc: Incoming)
    requires HeightOk(inc) && inc.window <= WINDOW_MAX_FAST
    ensures var x := RequestNext(inc);
      && x.incoming.header == inc.header && x.incoming.entries == inc.entries && x.incoming.parts == inc.parts
      && x.incoming.receivedCount == inc.receivedCount && (x.request.Some? ==> RequestOk(x.incoming, x.request.value))
  {
  }

  /** Writing a piece over a known prefix gives a known prefix; one that is not
      the next piece changes nothing. */
  lemma WritePiece(hs: seq<Hash>, known: nat, segment: nat, chunk: seq<Hash>)
    requires Whole(hs, known) && IsPiece(hs, segment, chunk) && segment * HASHMAP_MAX_LEN <= known
    ensures var e := WriteEntries(hs[..known], segment * HASHMAP_MAX_LEN, chunk);
      && known <= |e| && Whole(hs, |e|) && e == hs[..|e|]
      && (segment * HASHMAP_MAX_LEN < known ==> e == hs[..known])
  {
    WriteAt(hs, known, segment * HASHMAP_MAX_LEN, chunk);
  }

  lemma WriteAt(hs: seq<Hash>, known: nat, base: nat, chunk: seq<Hash>)
    requires Whole(hs, known) && base <= known && base % HASHMAP_MAX_LEN == 0 && base < |hs|
    requires chunk == hs[base..if base + HASHMAP_MAX_LEN < |hs| then base + HASHMAP_MAX_LEN else |hs|]
    ensures var e := WriteEntries(hs[..known], base, chunk);
      && known <= |e| && Whole(hs, |e|) && e == hs[..|e|]
      && (base < known ==> e == hs[..known])
  {
    var e := WriteEntries(hs[..known], base, chunk);
    if base < known {
      assert base + |chunk| <= known;
      assert e == hs[..known];
    } else {
      assert e == hs[..base + |chunk|];
    }
  }

  lemma HashmapUpdateReceives(env: Env, w: World, inc: Incoming, r: Ref, segment: nat, chunk: seq<Hash>)
    requires IsRef(w, r) && Receives(env, w, inc, r)
    requires IsPiece(Hashes(env, At(w, r)), segment, chunk) && segment * HASHMAP_MAX_LEN <= |inc.entries|
    ensures var x := HashmapUpdate(inc, segment, chunk);
      && Receives(env, w, x.incoming, r) && |inc.entries| <= |x.incoming.entries|
      && (x.request.Some? ==> RequestOk(x.incoming, x.request.value))
  {
    var entries := WriteEntries(inc.entries, segment * HASHMAP_MAX_LEN, chunk);
    WritePiece(Hashes(env, At(w, r)), |inc.entries|, segment, chunk);
    Progress.HashmapUpdateLive(inc, segment, chunk);
    RequestNextOk(inc.(entries := entries, retriesLeft := MAX_RETRIES, waitingForHmu := false));
  }

  lemma ExpireReceives(env: Env, w: World, inc: Incoming, r: Ref)
    requires IsRef(w, r) && Receives(env, w, inc, r) && Expire(inc).Some?
    ensures var x := Expire(inc).value;
      && Receives(env, w, x.incoming, r) && x.incoming.entries == inc.entries
      && (x.request.Some? ==> RequestOk(x.incoming, x.request.value))
  {
    Progress.ExpireLive(inc);
    Progress.WindowsStayOk(inc, None);
    RequestNextOk(Shrink(inc).(retriesLeft := inc.retriesLeft - 1, waitingForHmu := false, armed := false));
  }

  lemma PutAtRow(table: seq<Incoming>, i: nat, inc: Incoming)
    requires RowsDistinct(table) && i < |table| && inc.header == table[i].header
    ensures Put(table, inc) == table[i := inc]
  {
    RowIsUnique(table, i);
  }

  lemma MoreHashesStep(env: Env, w: World, s: System, id: Hash, segment: nat, chunk: seq<Hash>)
    requires Inv(env, w, s) && HeightsOk(s.rx) && MoreHashes(id, segment, chunk) in s.net
    ensures Inv(env, w, Received(s, OnMoreHashes(s.rx, id, segment, chunk)))
  {
    var i := Row(s.rx.table, id);
    if i < |s.rx.table| {
      var inc := s.rx.table[i];
      assert RowOk(env, w, s, inc) && PacketOk(env, w, s, MoreHashes(id, segment, chunk));
      var r :| Current(w, s, r) && Receives(env, w, inc, r);
      PieceOfRow(env, w, s, i, r, id, segment, chunk);
      HashmapUpdateReceives(env, w, inc, r, segment, chunk);
      PutAtRow(s.rx.table, i, HashmapUpdate(inc, segment, chunk).incoming);
      RowUpdated(env, w, s, i, r, HashmapUpdate(inc, segment, chunk));
    } else {
      Unchanged(env, w, s);
    }
  }

  /** A hashmap update for a row is a piece of the row's own hashmap, no further
      on than what the row knows. */
  lemma PieceOfRow(env: Env, w: World, s: System, i: nat, r: Ref, id: Hash, segment: nat, chunk: seq<Hash>)
    requires WorldOk(env, w) && PacketOk(env, w, s, MoreHashes(id, segment, chunk))
    requires i == Row(s.rx.table, id) < |s.rx.table| && Current(w, s, r) && Receives(env, w, s.rx.table[i], r)
    ensures IsPiece(Hashes(env, At(w, r)), segment, chunk) && segment * HASHMAP_MAX_LEN <= |s.rx.table[i].entries|
  {
    var q :| IsRef(w, q) && At(w, q).header.id == id && IsPiece(Hashes(env, At(w, q)), segment, chunk)
      && Knows(s, id, segment * HASHMAP_MAX_LEN);
    assert q == r;
  }

  lemma Unchanged(env: Env, w: World, s: System)
    requires Inv(env, w, s)
    ensures Inv(env, w, Received(s, RxOutcome(s.rx, [])))
  {
    assert Received(s, RxOutcome(s.rx, [])) == s;
  }

  // ----- rows that go away -----

  lemma RowAfterRemoval(table: seq<Incoming>, i: nat, id: Hash)
    requires RowsDistinct(table) && i < |table|
    ensures var rest := table[..i] + table[i + 1..];
      && RowsDistinct(rest)
      && (Row(rest, id) < |rest| ==> Row(table, id) < |table| && rest[Row(rest, id)] == table[Row(table, id)])
      && (Row(table, id) == |table| || id == table[i].header.id ==> Row(rest, id) == |rest|)
  {
    var rest := table[..i] + table[i + 1..];
    assert forall k :: 0 <= k < |rest| ==> rest[k] == table[if k < i then k else k + 1];
    var b := Row(rest, id);
    if b < |rest| { RowIsUnique(table, if b < i then b else b + 1); }
  }

  /** Row `i` goes away; `sends` holds no advertisement. */
  lemma RemovedExtends(env: Env, w: World, s: System, i: nat, s': System)
    requires Inv(env, w, s) && i < |s.rx.table|
    requires s'.status == s.status && s'.rx.table == s.rx.table[..i] + s.rx.table[i + 1..]
    requires forall h :: s.rx.proved[h] <= s'.rx.proved[h]
    requires forall p | p in s'.net && p.Advertise? :: p in s.net
    ensures Extends(w, s, s')
  {
    forall id, known: nat | Knows(s, id, known) && Unadvertised(s, id) ensures Knows(s', id, known) && Unadvertised(s', id) {
      RowAfterRemoval(s.rx.table, i, id);
    }
  }

  lemma AdvertisementAfterGivingUp(env: Env, w: World, s: System, i: nat, s': System, p: Packet)
    requires PacketOk(env, w, s, p) && p.Advertise? && RowsDistinct(s.rx.table) && i < |s.rx.table|
    requires s'.status == s.status && s'.rx == s.rx.(table := s.rx.table[..i] + s.rx.table[i + 1..])
    ensures PacketOk(env, w, s', p)
  {
    RowAfterRemoval(s.rx.table, i, p.header.id);
    var r :| Current(w, s, r) && p == AdvertisementOf(env, At(w, r)) && Row(s.rx.table, p.header.id) == |s.rx.table|;
    assert Current(w, s', r);
  }

  /** Only the rows differ: every transfer's status and output are as they were. */
  lemma OutputsStay(w: World, s: System, s': System)
    requires |s.status| == |w| && s'.status == s.status && s'.rx == s.rx.(table := s'.rx.table)
    requires forall t :: 0 <= t < |w| ==> |w[t]| >= 1 && StatusOk(w, s, t) && OutputOk(w, s, t)
    ensures forall t :: 0 <= t < |w| ==> StatusOk(w, s', t) && OutputOk(w, s', t)
  {
    forall t | 0 <= t < |w| ensures StatusOk(w, s', t) && OutputOk(w, s', t) {
      assert StatusOk(w, s, t) && OutputOk(w, s, t);
    }
  }

  lemma RowsAfterGivingUp(env: Env, w: World, s: System, i: nat, s': System)
    requires RowsDistinct(s.rx.table) && i < |s.rx.table| && |s'.status| == |s.status|
    requires forall j :: 0 <= j < |s.rx.table| ==> RowOk(env, w, s, s.rx.table[j])
    requires s'.status == s.status && s'.rx == s.rx.(table := s.rx.table[..i] + s.rx.table[i + 1..])
    ensures RowsDistinct(s'.rx.table)
    ensures forall j :: 0 <= j < |s'.rx.table| ==> RowOk(env, w, s', s'.rx.table[j])
  {
    RowAfterRemoval(s.rx.table, i, 0);
    var rest := s'.rx.table;
    forall j | 0 <= j < |rest| ensures RowOk(env, w, s', rest[j]) {
      assert rest[j] == s.rx.table[if j < i then j else j + 1];
      RowStays(env, w, s, s', rest[j]);
    }
  }

  lemma RowGivenUp(env: Env, w: World, s: System, i: nat)
    requires Inv(env, w, s) && i < |s.rx.table|
    ensures Inv(env, w, Received(s, RxOutcome(s.rx.(table := s.rx.table[..i] + s.rx.table[i + 1..]), [])))
  {
    var rest := s.rx.table[..i] + s.rx.table[i + 1..];
    var s' := Received(s, RxOutcome(s.rx.(table := rest), []));
    assert s'.net == s.net;
    RemovedExtends(env, w, s, i, s');
    RowsAfterGivingUp(env, w, s, i, s');
    forall p | p in s'.net ensures PacketOk(env, w, s', p) {
      assert PacketOk(env, w, s, p);
      if p.Advertise? { AdvertisementAfterGivingUp(env, w, s, i, s', p); } else { PacketStays(env, w, s, s', p); }
    }
    OutputsStay(w, s, s');
  }

  lemma ExpireStep(env: Env, w: World, s: System, i: nat)
    requires Inv(env, w, s) && HeightsOk(s.rx) && i < |s.rx.table|
    ensures Inv(env, w, Received(s, OnExpire(s.rx, i)))
  {
    var inc := s.rx.table[i];
    assert RowOk(env, w, s, inc);
    var r :| Current(w, s, r) && Receives(env, w, inc, r);
    if Expire(inc).Some? {
      ExpireReceives(env, w, inc, r);
      RowUpdated(env, w, s, i, r, Expire(inc).value);
    } else {
      RowGivenUp(env, w, s, i);
    }
  }

  // ----- parts -----

  /** A part recognised by a row is the row's own, at the matched position. */
  lemma RecognisedPart(env: Env, w: World, s: System, p: Part, i: nat, r: Ref)
    requires Inv(env, w, s) && HeightsOk(s.rx) && PartData(p) in s.net && i < |s.rx.table|
    requires Current(w, s, r) && Receives(env, w, s.rx.table[i], r)
    requires Match(s.rx.table[i], env.mapHash(p, s.rx.table[i].header.random)).Some?
    ensures var m := Match(s.rx.table[i], env.mapHash(p, s.rx.table[i].header.random)).value;
      m < |s.rx.table[i].parts| && p == Parts(At(w, r))[m]
  {
    assert PacketOk(env, w, s, PartData(p));
    var q, j: nat :| IsRef(w, q) && j < |Parts(At(w, q))| && p == Parts(At(w, q))[j];
    var inc := s.rx.table[i];
    var m := Match(inc, env.mapHash(p, inc.header.random)).value;
    assert inc.entries[m] == Hashes(env, At(w, r))[m];
    assert q == r && j == m;
  }

  lemma StoreAgain(env: Env, w: World, inc: Incoming, r: Ref, m: nat, p: Part)
    requires IsRef(w, r) && Receives(env, w, inc, r) && m < |inc.parts| && inc.parts[m].Some?
    ensures Receives(env, w, Store(inc, m, p), r)
  {
  }

  lemma AfterStoreKeeps(s: Incoming, rate: Option<real>)
    requires HeightOk(s) && Progress.WindowsOk(s)
    ensures var x := AfterStore(s, rate);
      && x.incoming.header == s.header && x.incoming.entries == s.entries && x.incoming.parts == s.parts
      && x.incoming.receivedCount == s.receivedCount && (x.request.Some? ==> RequestOk(x.incoming, x.request.value))
  {
    Progress.WindowsStayOk(s, rate);
    if s.outstanding <= 0 { RequestNextOk(Grow(s, rate)); }
  }

  /** Storing the right part and asking for more keeps the row right. */
  lemma StoredReceives(env: Env, w: World, inc: Incoming, r: Ref, m: nat, p: Part, rate: Option<real>)
    requires IsRef(w, r) && Receives(env, w, inc, r) && m < |inc.parts| && p == Parts(At(w, r))[m]
    requires inc.parts[m].None? && !Complete(Store(inc, m, p))
    ensures HeightOk(Store(inc, m, p))
    ensures var x := AfterStore(Store(inc, m, p), rate);
      && Receives(env, w, x.incoming, r) && x.incoming.entries == inc.entries
      && (x.request.Some? ==> RequestOk(x.incoming, x.request.value))
  {
    Progress.PartLive(inc, m, p, rate);
    AfterStoreKeeps(Store(inc, m, p), rate);
    var after := AfterStore(Store(inc, m, p), rate).incoming;
    assert forall i :: 0 <= i < |after.parts| ==> after.parts[i] == if i == m then Some(p) else inc.parts[i];
  }

  // ----- the last part -----

  /** All parts in place are the ciphertext, and it opens to the plaintext. */
  lemma OpensWhole(env: Env, s: Segment, parts: seq<Option<Part>>)
    requires Sealed(env, s) && |parts| == |Parts(s)|
    requires forall i :: 0 <= i < |parts| ==> parts[i] == Some(Parts(s)[i])
    ensures Unseal(env, s.header, Join(Bodies(parts))) == Opened(s.plaintext)
  {
    assert Bodies(parts) == Parts(s);
    JoinCut(s.cipher, SDU);
  }

  lemma OriginalsDiffer(w: World, t: nat, u: nat)
    requires DistinctIds(w) && t < |w| && u < |w| && t != u && |w[t]| >= 1 && |w[u]| >= 1
    ensures Original(w, t) != Original(w, u)
  {
    assert IsRef(w, Ref(t, 0)) && IsRef(w, Ref(u, 0));
  }

  lemma {:induction false} EmittedAppend(emitted: seq<Emission>, e: Emission, original: Hash)
    ensures EmittedFor(emitted + [e], original) == EmittedFor(emitted, original) + if e.original == original then [e.data] else []
  {
    if emitted != [] {
      assert (emitted + [e])[1..] == emitted[1..] + [e];
      EmittedAppend(emitted[1..], e, original);
    }
  }

  /** The receiver after segment `r` has been opened and proved. */
  function AfterAssembly(w: World, rx: Receiver, i: nat, r: Ref): Receiver
    requires IsRef(w, r) && i < |rx.table|
  {
    var h := At(w, r).header;
    var chunks := (if h.original in rx.segmented then rx.segmented[h.original] else []) + [At(w, r).plaintext];
    Receiver(rx.table[..i] + rx.table[i + 1..],
             if h.index >= h.total then rx.segmented - {h.original} else rx.segmented[h.original := chunks],
             if h.index >= h.total then rx.emitted + [Emission(h.original, Join(chunks))] else rx.emitted,
             rx.proved + multiset{h.original})
  }

  lemma AssemblyResult(env: Env, w: World, rx: Receiver, i: nat, r: Ref, stored: Incoming)
    requires WorldOk(env, w) && IsRef(w, r) && i < |rx.table| && stored.header == At(w, r).header
    requires |stored.parts| == |Parts(At(w, r))|
    requires forall k :: 0 <= k < |stored.parts| ==> stored.parts[k] == Some(Parts(At(w, r))[k])
    ensures var seg := At(w, r);
      Assemble(env, rx, i, stored) == RxOutcome(AfterAssembly(w, rx, i, r), [Proof(seg.header.id, env.proof(seg.plaintext, seg.header.id))])
  {
    OpensWhole(env, At(w, r), stored.parts);
  }

  /** Other transfers' outputs are untouched. */
  lemma OtherUntouched(w: World, s: System, i: nat, r: Ref, s': System, original: Hash)
    requires IsRef(w, r) && i < |s.rx.table| && s'.rx == AfterAssembly(w, s.rx, i, r) && original != At(w, r).header.original
    ensures s'.rx.proved[original] == s.rx.proved[original]
    ensures original in s'.rx.segmented <==> original in s.rx.segmented
    ensures original in s.rx.segmented ==> s'.rx.segmented[original] == s.rx.segmented[original]
    ensures EmittedFor(s'.rx.emitted, original) == EmittedFor(s.rx.emitted, original)
  {
    var h := At(w, r).header;
    if h.index >= h.total { EmittedAppend(s.rx.emitted, s'.rx.emitted[|s.rx.emitted|], original); }
  }

  lemma OtherOutput(w: World, s: System, i: nat, r: Ref, s': System, t: nat)
    requires Numbered(w) && DistinctIds(w) && (forall u :: 0 <= u < |w| ==> |w[u]| >= 1)
    requires i < |s.rx.table| && IsRef(w, r) && t < |w| && t != r.t && OutputOk(w, s, t)
    requires s'.rx == AfterAssembly(w, s.rx, i, r)
    ensures OutputOk(w, s', t)
  {
    OriginalsDiffer(w, t, r.t);
    OtherUntouched(w, s, i, r, s', Original(w, t));
  }

  /** The finished segment is appended to its transfer's, or completes it. */
  lemma OwnOutput(w: World, s: System, i: nat, r: Ref, s': System)
    requires Numbered(w) && i < |s.rx.table| && IsRef(w, r) && |w[r.t]| >= 1 && Done(w, s, r.t) == r.k && OutputOk(w, s, r.t)
    requires s'.rx == AfterAssembly(w, s.rx, i, r)
    ensures OutputOk(w, s', r.t)
  {
    var original := Original(w, r.t);
    assert At(w, r).header.original == original;
    var plain := Plaintexts(w[r.t]);
    assert plain[..r.k] + [At(w, r).plaintext] == plain[..r.k + 1];
    if r.k + 1 == |w[r.t]| {
      assert plain[..r.k + 1] == plain;
      EmittedAppend(s.rx.emitted, s'.rx.emitted[|s.rx.emitted|], original);
    }
  }

  lemma StatusAfterAssembly(env: Env, w: World, s: System, i: nat, r: Ref, s': System, t: nat)
    requires Inv(env, w, s) && i < |s.rx.table| && Current(w, s, r) && t < |w|
    requires s'.rx == AfterAssembly(w, s.rx, i, r) && s'.status == s.status
    ensures StatusOk(w, s', t)
  {
    assert StatusOk(w, s, t);
    if t != r.t { OriginalsDiffer(w, t, r.t); }
  }

  /** Another segment the receiver waits for is still the one it waits for. */
  lemma OtherCurrentStays(env: Env, w: World, s: System, i: nat, r: Ref, s': System, q: Ref)
    requires Inv(env, w, s) && i < |s.rx.table| && Current(w, s, r) && Current(w, s, q) && q != r
    requires s'.rx == AfterAssembly(w, s.rx, i, r) && s'.status == s.status
    ensures Current(w, s', q)
  {
    if q.t != r.t { OriginalsDiffer(w, q.t, r.t); }
  }

  lemma AssemblyStep(env: Env, w: World, s: System, i: nat, r: Ref)
    requires Inv(env, w, s) && i < |s.rx.table| && Current(w, s, r) && Receives(env, w, s.rx.table[i], r)
    ensures var seg := At(w, r);
      Inv(env, w, Received(s, RxOutcome(AfterAssembly(w, s.rx, i, r), [Proof(seg.header.id, env.proof(seg.plaintext, seg.header.id))])))
  {
    var seg := At(w, r);
    var proof := Proof(seg.header.id, env.proof(seg.plaintext, seg.header.id));
    var s' := Received(s, RxOutcome(AfterAssembly(w, s.rx, i, r), [proof]));
    RemovedExtends(env, w, s, i, s');
    RowAfterRemoval(s.rx.table, i, 0);
    forall j | 0 <= j < |s'.rx.table| ensures RowOk(env, w, s', s'.rx.table[j]) {
      RemainingRow(env, w, s, i, r, s', j);
    }
    forall p | p in s'.net ensures PacketOk(env, w, s', p) {
      if p in s.net {
        if p.Advertise? { AdvertisementAfterAssembly(env, w, s, i, r, s', p); } else { PacketStays(env, w, s, s', p); }
      } else {
        assert p == proof && r.k < Done(w, s', r.t);
      }
    }
    forall t | 0 <= t < |w| ensures StatusOk(w, s', t) && OutputOk(w, s', t) {
      if t == r.t { OwnOutput(w, s, i, r, s'); } else { OtherOutput(w, s, i, r, s', t); }
      StatusAfterAssembly(env, w, s, i, r, s', t);
    }
  }

  lemma RemainingRow(env: Env, w: World, s: System, i: nat, r: Ref, s': System, j: nat)
    requires Inv(env, w, s) && i < |s.rx.table| && Current(w, s, r) && Receives(env, w, s.rx.table[i], r)
    requires s'.rx == AfterAssembly(w, s.rx, i, r) && s'.status == s.status && j < |s'.rx.table|
    ensures RowOk(env, w, s', s'.rx.table[j])
  {
    var k := if j < i then j else j + 1;
    assert s'.rx.table[j] == s.rx.table[k] && RowOk(env, w, s, s.rx.table[k]);
    var q :| Current(w, s, q) && Receives(env, w, s.rx.table[k], q);
    OtherCurrentStays(env, w, s, i, r, s', q);
  }

  lemma AdvertisementAfterAssembly(env: Env, w: World, s: System, i: nat, r: Ref, s': System, p: Packet)
    requires Inv(env, w, s) && i < |s.rx.table| && Current(w, s, r) && Receives(env, w, s.rx.table[i], r)
    requires s'.rx == AfterAssembly(w, s.rx, i, r) && s'.status == s.status && p.Advertise? && PacketOk(env, w, s, p)
    ensures PacketOk(env, w, s', p)
  {
    var q :| Current(w, s, q) && p == AdvertisementOf(env, At(w, q)) && Row(s.rx.table, p.header.id) == |s.rx.table|;
    RowIsUnique(s.rx.table, i);
    OtherCurrentStays(env, w, s, i, r, s', q);
    RowAfterRemoval(s.rx.table, i, p.header.id);
  }

  /** The last part completes the segment. */
  lemma LastPart(env: Env, w: World, s: System, i: nat, r: Ref, m: nat)
    requires Inv(env, w, s) && i < |s.rx.table| && Current(w, s, r) && Receives(env, w, s.rx.table[i], r)
    requires m < |s.rx.table[i].parts| && s.rx.table[i].parts[m].None?
    requires Complete(Store(s.rx.table[i], m, Parts(At(w, r))[m]))
    ensures var stored := Store(s.rx.table[i], m, Parts(At(w, r))[m]);
      AllHeld(stored) && Inv(env, w, Received(s, Assemble(env, s.rx, i, stored)))
  {
    var inc := s.rx.table[i];
    var p := Parts(At(w, r))[m];
    var stored := Store(inc, m, p);
    Progress.StoreCounters(inc, m, p);
    Progress.HeldAtMostAll(stored.parts);
    forall k | 0 <= k < |stored.parts| ensures stored.parts[k] == Some(Parts(At(w, r))[k]) {
      assert stored.parts[k] == if k == m then Some(p) else inc.parts[k];
    }
    AssemblyResult(env, w, s.rx, i, r, stored);
    AssemblyStep(env, w, s, i, r);
  }

  /** Any other new part leaves the transfer asking for the rest. */
  lemma MiddlePart(env: Env, w: World, s: System, i: nat, r: Ref, m: nat, rate: Option<real>)
    requires Inv(env, w, s) && i < |s.rx.table| && Current(w, s, r) && Receives(env, w, s.rx.table[i], r)
    requires m < |s.rx.table[i].parts| && s.rx.table[i].parts[m].None?
    requires !Complete(Store(s.rx.table[i], m, Parts(At(w, r))[m]))
    ensures HeightOk(Store(s.rx.table[i], m, Parts(At(w, r))[m]))
    ensures var x := AfterStore(Store(s.rx.table[i], m, Parts(At(w, r))[m]), rate);
      Inv(env, w, Received(s, RxOutcome(s.rx.(table := s.rx.table[i := x.incoming]), if x.request.Some? then [Ask(x.request.value)] else [])))
  {
    StoredReceives(env, w, s.rx.table[i], r, m, Parts(At(w, r))[m], rate);
    RowUpdated(env, w, s, i, r, AfterStore(Store(s.rx.table[i], m, Parts(At(w, r))[m]), rate));
  }

  lemma PartStep(env: Env, w: World, s: System, p: Part, rate: Option<real>)
    requires Inv(env, w, s) && HeightsOk(s.rx) && PartData(p) in s.net
    ensures Inv(env, w, Received(s, OnPart(env, s.rx, p, rate)))
  {
    var i := Recognise(env, s.rx.table, p, 0);
    if i == |s.rx.table| {
      Unchanged(env, w, s);
    } else {
      var inc := s.rx.table[i];
      assert RowOk(env, w, s, inc);
      var r :| Current(w, s, r) && Receives(env, w, inc, r);
      RecognisedPart(env, w, s, p, i, r);
      var m := Match(inc, env.mapHash(p, inc.header.random)).value;
      if inc.parts[m].None? {
        if Complete(Store(inc, m, p)) { LastPart(env, w, s, i, r, m); } else { MiddlePart(env, w, s, i, r, m, rate); }
      } else {
        StoreAgain(env, w, inc, r, m, p);
        RowUpdated(env, w, s, i, r, Requesting(Store(inc, m, p), None));
      }
    }
  }

  // ----- advertisements -----

  lemma {:induction false} RowAppended(table: seq<Incoming>, inc: Incoming, id: Hash)
    ensures Row(table + [inc], id)
         == if Row(table, id) < |table| then Row(table, id) else if inc.header.id == id then |table| else |table| + 1
  {
    if table != [] && table[0].header.id != id {
      assert (table + [inc])[1..] == table[1..] + [inc];
      RowAppended(table[1..], inc, id);
    } else if table == [] {
      assert (table + [inc])[1..] == [];
    }
  }

  /** The row an advertisement opens. */
  lemma NewRow(env: Env, w: World, s: System, p: Packet, r: Ref) returns (x: Requesting)
    requires WorldOk(env, w) && Current(w, s, r) && p == AdvertisementOf(env, At(w, r))
    requires Row(s.rx.table, p.header.id) == |s.rx.table|
    ensures x == RequestNext(New(p.header, p.totalParts, p.entries))
    ensures Receives(env, w, x.incoming, r) && x.request.Some? && RequestOk(x.incoming, x.request.value)
    ensures OnAdvertise(s.rx, p.header, p.totalParts, p.entries)
         == RxOutcome(s.rx.(table := s.rx.table + [x.incoming]), [Ask(x.request.value)])
  {
    var inc := New(p.header, p.totalParts, p.entries);
    x := RequestNext(inc);
    Progress.NewLive(p.header, p.totalParts, p.entries);
    RequestNextOk(inc);
    assert x.incoming.parts == NoParts(p.totalParts);
  }

  lemma AdvertiseStep(env: Env, w: World, s: System, p: Packet)
    requires Inv(env, w, s) && p in s.net && p.Advertise?
    ensures Inv(env, w, Received(s.(net := s.net - {p}), OnAdvertise(s.rx, p.header, p.totalParts, p.entries)))
  {
    assert PacketOk(env, w, s, p);
    var r :| Current(w, s, r) && p == AdvertisementOf(env, At(w, r)) && Row(s.rx.table, p.header.id) == |s.rx.table|;
    var x := NewRow(env, w, s, p, r);
    var s' := Received(s.(net := s.net - {p}), RxOutcome(s.rx.(table := s.rx.table + [x.incoming]), [Ask(x.request.value)]));
    AppendedRows(env, w, s, r, x.incoming, s');
    OpenedPackets(env, w, s, p, r, x, s');
    OutputsStay(w, s, s');
  }

  /** What is under way once an advertisement has opened a row. */
  lemma OpenedPackets(env: Env, w: World, s: System, p: Packet, r: Ref, x: Requesting, s': System)
    requires Inv(env, w, s) && p in s.net && Current(w, s, r) && p == AdvertisementOf(env, At(w, r))
    requires Row(s.rx.table, p.header.id) == |s.rx.table|
    requires Receives(env, w, x.incoming, r) && x.request.Some? && RequestOk(x.incoming, x.request.value)
    requires s' == Received(s.(net := s.net - {p}), RxOutcome(s.rx.(table := s.rx.table + [x.incoming]), [Ask(x.request.value)]))
    ensures forall q | q in s'.net :: PacketOk(env, w, s', q)
  {
    AppendedExtends(env, w, s, p, r, x.incoming, s');
    NoOtherAdvertisement(env, w, s, p, r);
    assert s' == System(s.status, s.rx.(table := s.rx.table + [x.incoming]), s.net - {p} + {Ask(x.request.value)});
    FirstRequestJustified(env, w, s, p, r, x, s');
    forall q | q in s'.net ensures PacketOk(env, w, s', q) {
      if q in s.net && q.Advertise? {
        OtherAdvertisement(env, w, s, p, r, x.incoming, s', q);
      } else if q in s.net {
        PacketStays(env, w, s, s', q);
      }
    }
  }

  lemma AppendedRows(env: Env, w: World, s: System, r: Ref, inc: Incoming, s': System)
    requires Inv(env, w, s) && Current(w, s, r) && Receives(env, w, inc, r)
    requires Row(s.rx.table, inc.header.id) == |s.rx.table|
    requires s'.status == s.status && s'.rx == s.rx.(table := s.rx.table + [inc])
    ensures RowsDistinct(s'.rx.table)
    ensures forall j :: 0 <= j < |s'.rx.table| ==> RowOk(env, w, s', s'.rx.table[j])
  {
    assert Current(w, s', r);
    forall j | 0 <= j < |s'.rx.table| ensures RowOk(env, w, s', s'.rx.table[j]) {
      if j < |s.rx.table| { RowStays(env, w, s, s', s.rx.table[j]); }
    }
  }

  /** A second advertisement of the same segment would be the same packet. */
  lemma OneAdvertisement(env: Env, w: World, s: System, p: Packet, r: Ref, q: Packet)
    requires Inv(env, w, s) && IsRef(w, r) && p == AdvertisementOf(env, At(w, r))
    requires q in s.net && q.Advertise? && q.header.id == p.header.id
    ensures q == p
  {
    assert PacketOk(env, w, s, q);
  }

  lemma AppendedExtends(env: Env, w: World, s: System, p: Packet, r: Ref, inc: Incoming, s': System)
    requires Inv(env, w, s) && p in s.net && p.Advertise? && inc.header == p.header
    requires s'.status == s.status && s'.rx == s.rx.(table := s.rx.table + [inc])
    requires forall q | q in s'.net && q.Advertise? :: q in s.net
    ensures Extends(w, s, s')
  {
    forall u, known: nat | IsRef(w, u) && u.t < |s.status| && Begun(s.status[u.t], u.k)
        && Knows(s, At(w, u).header.id, known) && Unadvertised(s, At(w, u).header.id)
      ensures Knows(s', At(w, u).header.id, known) && Unadvertised(s', At(w, u).header.id)
    {
      RowAppended(s.rx.table, inc, At(w, u).header.id);
    }
  }

  lemma OtherAdvertisement(env: Env, w: World, s: System, p: Packet, r: Ref, inc: Incoming, s': System, q: Packet)
    requires Inv(env, w, s) && p in s.net && Current(w, s, r) && p == AdvertisementOf(env, At(w, r)) && inc.header == p.header
    requires s'.status == s.status && s'.rx == s.rx.(table := s.rx.table + [inc])
    requires q in s.net && q != p && q.Advertise?
    ensures PacketOk(env, w, s', q)
  {
    assert PacketOk(env, w, s, q);
    var u :| Current(w, s, u) && q == AdvertisementOf(env, At(w, u)) && Row(s.rx.table, q.header.id) == |s.rx.table|;
    if q.header.id == p.header.id { OneAdvertisement(env, w, s, p, r, q); }
    RowAppended(s.rx.table, inc, q.header.id);
    assert Current(w, s', u);
  }

  lemma NoOtherAdvertisement(env: Env, w: World, s: System, p: Packet, r: Ref)
    requires Inv(env, w, s) && p in s.net && Current(w, s, r) && p == AdvertisementOf(env, At(w, r))
    requires Row(s.rx.table, p.header.id) == |s.rx.table|
    ensures forall a | a in s.net && a.Advertise? && a != p :: a.header.id != p.header.id
  {
    forall a | a in s.net && a.Advertise? && a != p ensures a.header.id != p.header.id {
      if a.header.id == p.header.id { OneAdvertisement(env, w, s, p, r, a); }
    }
  }

  lemma FirstRequestJustified(env: Env, w: World, s: System, p: Packet, r: Ref, x: Requesting, s': System)
    requires Current(w, s, r) && p == AdvertisementOf(env, At(w, r)) && Row(s.rx.table, p.header.id) == |s.rx.table|
    requires forall a | a in s.net && a.Advertise? && a != p :: a.header.id != p.header.id
    requires Receives(env, w, x.incoming, r) && x.request.Some? && RequestOk(x.incoming, x.request.value)
    requires s' == System(s.status, s.rx.(table := s.rx.table + [x.incoming]), s.net - {p} + {Ask(x.request.value)})
    ensures PacketOk(env, w, s', Ask(x.request.value))
  {
    var q := x.request.value;
    if q.last.Some? {
      RowAppended(s.rx.table, x.incoming, q.id);
      LastOfReceived(env, w, s', q, r, x.incoming);
    }
  }

  // ----- the sender -----

  /** Packets that are not advertisements join those under way. */
  lemma MoreSent(env: Env, w: World, s: System, sends: seq<Packet>)
    requires Inv(env, w, s)
    requires forall p | p in sends :: !p.Advertise? && PacketOk(env, w, s, p)
    ensures Inv(env, w, s.(net := s.net + SetOf(sends)))
  {
    var s' := s.(net := s.net + SetOf(sends));
    assert Extends(w, s, s');
    forall p | p in s'.net ensures PacketOk(env, w, s', p) {
      if p.Advertise? {
        var r :| Current(w, s, r) && p == AdvertisementOf(env, At(w, r));
        assert Current(w, s', r);
      } else {
        PacketStays(env, w, s, s', p);
      }
    }
    forall j | 0 <= j < |s'.rx.table| ensures RowOk(env, w, s', s'.rx.table[j]) {
      RowStays(env, w, s, s', s.rx.table[j]);
    }
    forall t | 0 <= t < |w| ensures StatusOk(w, s', t) && OutputOk(w, s', t) {
      assert StatusOk(w, s, t) && OutputOk(w, s, t);
    }
  }

  lemma PositionOfHash(env: Env, w: World, r: Ref, i: nat)
    requires WorldOk(env, w) && IsRef(w, r) && i < |Hashes(env, At(w, r))|
    ensures IndexIn(Hashes(env, At(w, r)), Hashes(env, At(w, r))[i]) == i
  {
    var hs := Hashes(env, At(w, r));
    var j := IndexIn(hs, hs[i]);
    assert env.mapHash(Parts(At(w, r))[i], At(w, r).header.random) == hs[j];
  }

  lemma AnswersOk(env: Env, w: World, s: System, r: Ref, wanted: seq<Hash>)
    requires IsRef(w, r)
    ensures forall p | p in Answer(Hashes(env, At(w, r)), Parts(At(w, r)), wanted) :: !p.Advertise? && PacketOk(env, w, s, p)
  {
    var seg := At(w, r);
    forall p | p in Answer(Hashes(env, seg), Parts(seg), wanted) ensures !p.Advertise? && PacketOk(env, w, s, p) {
      var i :| 0 <= i < |Parts(seg)| && Parts(seg)[i] == p.part;
    }
  }

  /** A last known hash under way is where the sender finds a whole number of pieces. */
  lemma LastIsFound(env: Env, w: World, s: System, q: Request, r: Ref) returns (known: nat)
    requires WorldOk(env, w) && IsRef(w, r) && At(w, r).header.id == q.id && q.last.Some?
    requires PacketOk(env, w, s, Ask(q))
    ensures LastKnown(env, w, s, q.id, q.last.value, r, known)
    ensures IndexIn(Hashes(env, At(w, r)), q.last.value) + 1 == known
  {
    var u: Ref;
    u, known :| LastKnown(env, w, s, q.id, q.last.value, u, known);
    assert u == r;
    PositionOfHash(env, w, r, known - 1);
  }

  lemma NextPieceOk(env: Env, w: World, s: System, id: Hash, last: Hash, r: Ref, known: nat)
    requires LastKnown(env, w, s, id, last, r, known)
    ensures var hs := Hashes(env, At(w, r));
      PacketOk(env, w, s, MoreHashes(id, known / HASHMAP_MAX_LEN, PieceFrom(hs, known)))
  {
    var hs := Hashes(env, At(w, r));
    assert known / HASHMAP_MAX_LEN * HASHMAP_MAX_LEN == known;
    assert IsPiece(hs, known / HASHMAP_MAX_LEN, PieceFrom(hs, known));
  }

  /** The piece of a hashmap that begins at `known`. */
  function PieceFrom(hs: seq<Hash>, known: nat): seq<Hash>
    requires known <= |hs|
  {
    hs[known..if known + HASHMAP_MAX_LEN < |hs| then known + HASHMAP_MAX_LEN else |hs|]
  }

  lemma ReplyHasNextPiece(env: Env, seg: Segment, q: Request, known: nat)
    requires q.last.Some? && known % HASHMAP_MAX_LEN == 0 && IndexIn(Hashes(env, seg), q.last.value) + 1 == known < |Hashes(env, seg)|
    ensures var hs := Hashes(env, seg);
      OnRequest(env, seg, q) ==
        Reply(Answer(hs, Parts(seg), q.wanted) + [MoreHashes(q.id, known / HASHMAP_MAX_LEN, PieceFrom(hs, known))])
  {
  }

  /** HMU agreement: a request under way that says its hashes have run out names
      the last hash of a whole number of pieces, so the sender never finds it out
      of sequence and answers with the very next piece. */
  lemma NeverOutOfSequence(env: Env, w: World, s: System, q: Request, r: Ref)
    requires Inv(env, w, s) && Ask(q) in s.net && IsRef(w, r) && At(w, r).header.id == q.id
    ensures OnRequest(env, At(w, r), q).Reply?
    ensures q.last.Some? ==>
              var hs, parts := Hashes(env, At(w, r)), Parts(At(w, r));
              var known := IndexIn(hs, q.last.value) + 1;
              && known < |hs| && known % HASHMAP_MAX_LEN == 0
              && OnRequest(env, At(w, r), q).sends
                 == Answer(hs, parts, q.wanted) + [MoreHashes(q.id, known / HASHMAP_MAX_LEN, PieceFrom(hs, known))]
    ensures forall p | p in OnRequest(env, At(w, r), q).sends :: !p.Advertise? && PacketOk(env, w, s, p)
  {
    AnswersOk(env, w, s, r, q.wanted);
    if q.last.Some? {
      var known := LastIsFound(env, w, s, q, r);
      NextPieceOk(env, w, s, q.id, q.last.value, r, known);
      ReplyHasNextPiece(env, At(w, r), q, known);
    }
  }

  /** The status of one transfer moves on without a new advertisement. */
  lemma StatusMoves(env: Env, w: World, s: System, t: nat, st: Status)
    requires Inv(env, w, s) && t < |w|
    requires forall k: nat :: Begun(s.status[t], k) ==> Begun(st, k)
    requires var done := Done(w, s, t); st == Rejected || (st == Resolved && done == |w[t]|)
    ensures Inv(env, w, s.(status := s.status[t := st]))
  {
    var s' := s.(status := s.status[t := st]);
    assert Extends(w, s, s');
    forall p | p in s'.net ensures PacketOk(env, w, s', p) {
      if p.Advertise? {
        var r :| Current(w, s, r) && p == AdvertisementOf(env, At(w, r));
        assert Current(w, s', r);
      } else {
        PacketStays(env, w, s, s', p);
      }
    }
    forall j | 0 <= j < |s'.rx.table| ensures RowOk(env, w, s', s'.rx.table[j]) {
      RowStays(env, w, s, s', s.rx.table[j]);
    }
    forall u | 0 <= u < |w| ensures StatusOk(w, s', u) && OutputOk(w, s', u) {
      assert StatusOk(w, s, u) && OutputOk(w, s, u);
    }
  }

  /** A segment that had not begun and is next for the receiver is advertised. */
  lemma SegmentStarts(env: Env, w: World, s: System, r: Ref)
    requires Inv(env, w, s) && IsRef(w, r) && Done(w, s, r.t) == r.k && !Begun(s.status[r.t], r.k)
    requires forall k: nat :: Begun(s.status[r.t], k) ==> k <= r.k
    ensures Inv(env, w, StartSegment(env, w, s, r))
  {
    var s' := StartSegment(env, w, s, r);
    var advertisement := AdvertisementOf(env, At(w, r));
    StartExtends(env, w, s, r, s');
    assert Current(w, s', r);
    forall p | p in s'.net ensures PacketOk(env, w, s', p) {
      if p == advertisement {
        NoRowYet(env, w, s, r);
      } else if p.Advertise? {
        assert PacketOk(env, w, s, p);
        var u :| Current(w, s, u) && p == AdvertisementOf(env, At(w, u));
        assert Current(w, s', u);
      } else {
        PacketStays(env, w, s, s', p);
      }
    }
    forall j | 0 <= j < |s'.rx.table| ensures RowOk(env, w, s', s'.rx.table[j]) {
      RowStays(env, w, s, s', s.rx.table[j]);
    }
    forall u | 0 <= u < |w| ensures StatusOk(w, s', u) && OutputOk(w, s', u) {
      assert StatusOk(w, s, u) && OutputOk(w, s, u);
    }
  }

  lemma NoRowYet(env: Env, w: World, s: System, r: Ref)
    requires Inv(env, w, s) && IsRef(w, r) && !Begun(s.status[r.t], r.k)
    ensures Row(s.rx.table, At(w, r).header.id) == |s.rx.table|
  {
    var i := Row(s.rx.table, At(w, r).header.id);
    assert i < |s.rx.table| ==> RowOk(env, w, s, s.rx.table[i]);
  }

  lemma StartExtends(env: Env, w: World, s: System, r: Ref, s': System)
    requires Inv(env, w, s) && IsRef(w, r) && !Begun(s.status[r.t], r.k)
    requires forall k: nat :: Begun(s.status[r.t], k) ==> k <= r.k
    requires s' == StartSegment(env, w, s, r)
    ensures Extends(w, s, s')
  {
    forall u, known: nat | IsRef(w, u) && u.t < |s.status| && Begun(s.status[u.t], u.k)
        && Knows(s, At(w, u).header.id, known) && Unadvertised(s, At(w, u).header.id)
      ensures Knows(s', At(w, u).header.id, known) && Unadvertised(s', At(w, u).header.id)
    {
      assert At(w, u).header.id == At(w, r).header.id ==> u == r;
    }
  }

  lemma ProofFacts(env: Env, w: World, s: System, id: Hash, value: Hash, r: Ref)
    requires DistinctIds(w) && PacketOk(env, w, s, Proof(id, value)) && IsRef(w, r) && At(w, r).header.id == id
    ensures |w[r.t]| >= 1 && r.k < Done(w, s, r.t) && value == env.proof(At(w, r).plaintext, id)
  {
    var q :| IsRef(w, q) && |w[q.t]| >= 1 && At(w, q).header.id == id && q.k < Done(w, s, q.t)
      && value == env.proof(At(w, q).plaintext, id);
    assert q == r;
  }

  lemma ProofMoves(env: Env, w: World, s: System, r: Ref, value: Hash)
    requires IsRef(w, r) && r.t < |s.status| && value == env.proof(At(w, r).plaintext, At(w, r).header.id)
    ensures r.k + 1 < |w[r.t]| ==> OnProof(env, w, s, r, value) == StartSegment(env, w, s, Ref(r.t, r.k + 1))
    ensures r.k + 1 == |w[r.t]| ==> OnProof(env, w, s, r, value) == s.(status := s.status[r.t := Resolved])
  {
  }

  lemma ProofStep(env: Env, w: World, s: System, id: Hash, value: Hash, r: Ref)
    requires Inv(env, w, s) && Proof(id, value) in s.net
    requires IsRef(w, r) && s.status[r.t] == Sending(r.k) && At(w, r).header.id == id
    ensures Inv(env, w, OnProof(env, w, s, r, value))
    ensures r.k + 1 < |w[r.t]| ==> OnProof(env, w, s, r, value) == StartSegment(env, w, s, Ref(r.t, r.k + 1))
    ensures r.k + 1 == |w[r.t]| ==> OnProof(env, w, s, r, value) == s.(status := s.status[r.t := Resolved])
  {
    ProofFacts(env, w, s, id, value, r);
    ProofMoves(env, w, s, r, value);
    assert StatusOk(w, s, r.t);
    if r.k + 1 < |w[r.t]| { SegmentStarts(env, w, s, Ref(r.t, r.k + 1)); } else { StatusMoves(env, w, s, r.t, Resolved); }
  }

  // ----- runs -----

  lemma DeliveryStep(env: Env, w: World, s: System, p: Packet, rate: Option<real>)
    requires Inv(env, w, s) && p in s.net && HeightsOk(s.rx)
    ensures Inv(env, w, OnDelivery(env, w, s, p, rate))
  {
    match p
    case Advertise(h, n, entries) => AdvertiseStep(env, w, s, p);
    case MoreHashes(id, segment, chunk) => MoreHashesStep(env, w, s, id, segment, chunk);
    case PartData(part) => PartStep(env, w, s, part, rate);
    case Ask(q) =>
      var r := Outgoing(w, s.status, q.id, 0);
      if r.Some? {
        NeverOutOfSequence(env, w, s, q, r.value);
        MoreSent(env, w, s, OnRequest(env, At(w, r.value), q).sends);
      }
    case Proof(id, value) =>
      var r := Outgoing(w, s.status, id, 0);
      if r.Some? { ProofStep(env, w, s, id, value, r.value); }
  }

  lemma StepInv(env: Env, w: World, s: System, ev: Event)
    requires Inv(env, w, s)
    ensures Inv(env, w, Step(env, w, s, ev))
  {
    match ev
    case SendResource(t) =>
      if IsRef(w, Ref(t, 0)) && s.status[t].NotStarted? {
        assert StatusOk(w, s, t);
        SegmentStarts(env, w, s, Ref(t, 0));
      }
    case SenderTimeout(t) =>
      if t < |s.status| && s.status[t].Sending? {
        assert StatusOk(w, s, t);
        StatusMoves(env, w, s, t, Rejected);
      }
    case Deliver(p, rate) =>
      if p in s.net && HeightsOk(s.rx) { DeliveryStep(env, w, s, p, rate); }
    case Expired(row) =>
      if row < |s.rx.table| && HeightsOk(s.rx) { ExpireStep(env, w, s, row); }
  }

  lemma {:induction false} RunInv(env: Env, w: World, s: System, evs: seq<Event>)
    requires Inv(env, w, s)
    ensures Inv(env, w, Run(env, w, s, evs))
    decreases |evs|
  {
    if evs != [] {
      StepInv(env, w, s, evs[0]);
      RunInv(env, w, Step(env, w, s, evs[0]), evs[1..]);
    }
  }

  lemma StartInv(env: Env, w: World)
    requires WorldOk(env, w)
    ensures Inv(env, w, Start(w))
  {
    forall t | 0 <= t < |w| ensures StatusOk(w, Start(w), t) && OutputOk(w, Start(w), t) {}
  }

  /** End to end: in every run, for every transfer, what the receiver emits is
      nothing or exactly the data given to sendResource(), once; and the promise
      resolves only after it has been emitted. */
  lemma DeliveredWhole(env: Env, w: World, evs: seq<Event>, t: nat)
    requires WorldOk(env, w) && t < |w|
    ensures var s := Run(env, w, Start(w), evs);
      && |s.status| == |w|
      && (EmittedFor(s.rx.emitted, Original(w, t)) == [] || EmittedFor(s.rx.emitted, Original(w, t)) == [Data(w, t)])
      && (s.status[t] == Resolved ==> EmittedFor(s.rx.emitted, Original(w, t)) == [Data(w, t)])
  {
    StartInv(env, w);
    RunInv(env, w, Start(w), evs);
    var s := Run(env, w, Start(w), evs);
    assert StatusOk(w, s, t) && OutputOk(w, s, t);
  }

  /** In every run each incoming transfer knows a prefix of its sender's hashmap,
      whole or a multiple of 74 long, holds only its sender's parts, and does not
      stall. */
  lemma RowsAgree(env: Env, w: World, evs: seq<Event>, i: nat)
    requires WorldOk(env, w) && i < |Run(env, w, Start(w), evs).rx.table|
    ensures var inc := Run(env, w, Start(w), evs).rx.table[i];
      HeightOk(inc) && exists r :: IsRef(w, r) && Receives(env, w, inc, r)
  {
    StartInv(env, w);
    RunInv(env, w, Start(w), evs);
    InvHeights(env, w, Run(env, w, Start(w), evs));
    assert RowOk(env, w, Run(env, w, Start(w), evs), Run(env, w, Start(w), evs).rx.table[i]);
  }

  /** The same in terms of the data given to sendResource(), which cuts it into
      segments. */
  lemma DeliveredAsGiven(env: Env, w: World, evs: seq<Event>, t: nat, data: seq<byte>)
    requires WorldOk(env, w) && t < |w| && Plaintexts(w[t]) == Cut(data, SEGMENT_MAX_SIZE)
    ensures var s := Run(env, w, Start(w), evs);
      && |s.status| == |w|
      && (forall d | d in EmittedFor(s.rx.emitted, Original(w, t)) :: d == data)
      && |EmittedFor(s.rx.emitted, Original(w, t))| <= 1
      && (s.status[t] == Resolved ==> EmittedFor(s.rx.emitted, Original(w, t)) == [data])
  {
    JoinCut(data, SEGMENT_MAX_SIZE);
    DeliveredWhole(env, w, evs, t);
  }
}
