/** Whole runs of any number of transfers over one link, whose packets may be
    lost, repeated and reordered; only advertisements arrive at most once. */
module ResourceDelivery {
  import opened Bytes
  import opened ResourceIncoming
  import opened ResourceTransfer
  import Progress = ResourceProgress

  /** Segment `k` of transfer `t`. */
  datatype Ref = Ref(t: nat, k: nat)

  type World = seq<seq<Segment>>

  datatype Status = NotStarted | Sending(k: nat) | Resolved | Rejected

  /** `status` is the promise of each transfer. */
  datatype System = System(status: seq<Status>, rx: Receiver, net: set<Packet>)

  datatype Event =
    | SendResource(t: nat)
    | SenderTimeout(t: nat)
    | Deliver(packet: Packet, rate: Option<real>)
    | Expired(row: nat)

  // ----- what the two ends are given -----

  predicate IsRef(w: World, r: Ref) { r.t < |w| && r.k < |w[r.t]| }

  function At(w: World, r: Ref): Segment
    requires IsRef(w, r)
  {
    w[r.t][r.k]
  }

  function Plaintexts(segments: seq<Segment>): seq<seq<byte>> {
    seq(|segments|, k requires 0 <= k < |segments| => segments[k].plaintext)
  }

  /** The data of transfer `t`. */
  function Data(w: World, t: nat): seq<byte>
    requires t < |w|
  {
    Join(Plaintexts(w[t]))
  }

  /** A segment as it is prepared: opening the ciphertext gives the salt and the
      possibly compressed plaintext, and the resource hash is the plaintext's. */
  ghost predicate Sealed(env: Env, s: Segment) {
    && env.open(s.cipher).Some? && |env.open(s.cipher).value| >= RANDOM_HASH_LEN
    && (var body := env.open(s.cipher).value[RANDOM_HASH_LEN..];
        if s.header.compressed then env.inflate(body) == Some(s.plaintext) else body == s.plaintext)
    && s.header.id == env.resourceHash(s.plaintext, s.header.random)
    && |Parts(s)| <= MAX_PARTS
  }

  ghost predicate Numbered(w: World) {
    forall r | IsRef(w, r) :: var h := At(w, r).header;
      h.index == r.k + 1 && h.total == |w[r.t]| && h.original == w[r.t][0].header.id
  }

  ghost predicate DistinctIds(w: World) {
    forall r, q | IsRef(w, r) && IsRef(w, q) && At(w, r).header.id == At(w, q).header.id :: r == q
  }

  /** Map hashes are pairwise distinct within and across the transfers. */
  ghost predicate DistinctMapHashes(env: Env, w: World) {
    forall r, q, i: nat, j: nat | IsRef(w, r) && IsRef(w, q) && i < |Parts(At(w, r))| && j < |Parts(At(w, q))|
      && env.mapHash(Parts(At(w, r))[i], At(w, q).header.random) == Hashes(env, At(w, q))[j] :: r == q && i == j
  }

  ghost predicate WorldOk(env: Env, w: World) {
    && (forall t :: 0 <= t < |w| ==> |w[t]| >= 1)
    && (forall r | IsRef(w, r) :: Sealed(env, At(w, r)))
    && Numbered(w) && DistinctIds(w) && DistinctMapHashes(env, w)
  }

  // ----- steps -----

  function SetOf(ps: seq<Packet>): set<Packet> { set p | p in ps }

  /** The first transfer, from `t` on, whose segment under way has this hash. */
  function Outgoing(w: World, status: seq<Status>, id: Hash, t: nat): (r: Option<Ref>)
    ensures r.Some? ==>
      IsRef(w, r.value) && r.value.t < |status| && status[r.value.t] == Sending(r.value.k) && At(w, r.value).header.id == id
    decreases |status| - t
  {
    if t >= |status| then None
    else if status[t].Sending? && IsRef(w, Ref(t, status[t].k)) && At(w, Ref(t, status[t].k)).header.id == id
    then Some(Ref(t, status[t].k))
    else Outgoing(w, status, id, t + 1)
  }

  function StartSegment(env: Env, w: World, s: System, r: Ref): System
    requires IsRef(w, r) && r.t < |s.status|
  {
    s.(status := s.status[r.t := Sending(r.k)], net := s.net + {AdvertisementOf(env, At(w, r))})
  }

  /** The proof of the segment under way: start the next one, or resolve. */
  function OnProof(env: Env, w: World, s: System, r: Ref, value: Hash): System
    requires IsRef(w, r) && r.t < |s.status|
  {
    var seg := At(w, r);
    if value != env.proof(seg.plaintext, seg.header.id) then s.(status := s.status[r.t := Rejected])
    else if r.k + 1 < |w[r.t]| then StartSegment(env, w, s, Ref(r.t, r.k + 1))
    else s.(status := s.status[r.t := Resolved])
  }

  function OnAsk(env: Env, w: World, s: System, r: Ref, q: Request): System
    requires IsRef(w, r) && r.t < |s.status|
  {
    match OnRequest(env, At(w, r), q)
    case Reply(sends) => s.(net := s.net + SetOf(sends))
    case OutOfSequence(sent) => s.(net := s.net + SetOf(sent), status := s.status[r.t := Rejected])
  }

  function Received(s: System, o: RxOutcome): System {
    s.(rx := o.rx, net := s.net + SetOf(o.sends))
  }

  function OnDelivery(env: Env, w: World, s: System, p: Packet, rate: Option<real>): System
    requires HeightsOk(s.rx)
  {
    match p
    case Advertise(h, n, entries) => Received(s.(net := s.net - {p}), OnAdvertise(s.rx, h, n, entries))
    case MoreHashes(id, segment, chunk) => Received(s, OnMoreHashes(s.rx, id, segment, chunk))
    case PartData(part) => Received(s, OnPart(env, s.rx, part, rate))
    case Ask(q) =>
      var r := Outgoing(w, s.status, q.id, 0);
      if r.Some? then OnAsk(env, w, s, r.value, q) else s
    case Proof(id, value) =>
      var r := Outgoing(w, s.status, id, 0);
      if r.Some? then OnProof(env, w, s, r.value, value) else s
  }

  /** Events that cannot happen in the current state change nothing. */
  function Step(env: Env, w: World, s: System, ev: Event): System {
    match ev
    case SendResource(t) =>
      if IsRef(w, Ref(t, 0)) && t < |s.status| && s.status[t].NotStarted? then StartSegment(env, w, s, Ref(t, 0)) else s
    case SenderTimeout(t) =>
      if t < |s.status| && s.status[t].Sending? then s.(status := s.status[t := Rejected]) else s
    case Deliver(p, rate) =>
      if p in s.net && HeightsOk(s.rx) then OnDelivery(env, w, s, p, rate) else s
    case Expired(row) =>
      if row < |s.rx.table| && HeightsOk(s.rx) then Received(s, OnExpire(s.rx, row)) else s
  }

  function Run(env: Env, w: World, s: System, evs: seq<Event>): System
    decreases |evs|
  {
    if evs == [] then s else Run(env, w, Step(env, w, s, evs[0]), evs[1..])
  }

  function Start(w: World): System {
    System(seq(|w|, _ => NotStarted), Receiver([], map[], [], multiset{}), {})
  }

  // ----- the invariant -----

  function Original(w: World, t: nat): Hash
    requires t < |w| && |w[t]| >= 1
  {
    w[t][0].header.id
  }

  /** How many segments of transfer `t` the receiver has proved. */
  function Done(w: World, s: System, t: nat): nat
    requires t < |w| && |w[t]| >= 1
  {
    s.rx.proved[Original(w, t)]
  }

  /** Segment `k` has been started, given the status of its transfer. */
  predicate Begun(st: Status, k: nat) {
    match st
    case NotStarted => false
    case Sending(j) => k <= j
    case Resolved => true
    case Rejected => true
  }

  /** A known hashmap: a prefix, whole or cut at a multiple of HASHMAP_MAX_LEN. */
  ghost predicate Whole(hs: seq<Hash>, known: nat) {
    0 < known <= |hs| && (known == |hs| || known % HASHMAP_MAX_LEN == 0)
  }

  /** `inc` receives segment `r`: its hashes are a prefix of the sender's and its
      parts are the sender's. */
  ghost predicate Receives(env: Env, w: World, inc: Incoming, r: Ref)
    requires IsRef(w, r)
  {
    var seg := At(w, r);
    var hs := Hashes(env, seg);
    && inc.header == seg.header && |inc.parts| == |Parts(seg)|
    && Whole(hs, |inc.entries|) && inc.entries == hs[..|inc.entries|]
    && (forall i :: 0 <= i < |inc.parts| && inc.parts[i].Some? ==> inc.parts[i].value == Parts(seg)[i])
    && Progress.Live(inc) && !Complete(inc)
  }

  /** Segment `r` is the one the receiver waits for next. */
  ghost predicate Current(w: World, s: System, r: Ref) {
    IsRef(w, r) && r.t < |s.status| && Begun(s.status[r.t], r.k) && |w[r.t]| >= 1 && Done(w, s, r.t) == r.k
  }

  ghost predicate RowOk(env: Env, w: World, s: System, inc: Incoming) {
    exists r :: Current(w, s, r) && Receives(env, w, inc, r)
  }

  /** How many hashes the receiver knows of a segment, while it receives it. */
  ghost predicate Knows(s: System, id: Hash, known: nat) {
    (Row(s.rx.table, id) < |s.rx.table| ==> known <= |s.rx.table[Row(s.rx.table, id)].entries|)
  }

  ghost predicate Unadvertised(s: System, id: Hash) {
    forall p | p in s.net && p.Advertise? :: p.header.id != id
  }

  /** A hash the receiver has had as its last one: the `known`-th. */
  ghost predicate LastKnown(env: Env, w: World, s: System, id: Hash, last: Hash, r: Ref, known: nat) {
    && IsRef(w, r) && At(w, r).header.id == id && r.t < |s.status| && Begun(s.status[r.t], r.k)
    && 0 < known < |Hashes(env, At(w, r))| && known % HASHMAP_MAX_LEN == 0
    && last == Hashes(env, At(w, r))[known - 1] && Knows(s, id, known) && Unadvertised(s, id)
  }

  ghost predicate PacketOk(env: Env, w: World, s: System, p: Packet) {
    match p
    case Advertise(h, n, entries) =>
      exists r :: Current(w, s, r) && p == AdvertisementOf(env, At(w, r)) && Row(s.rx.table, h.id) == |s.rx.table|
    case Ask(q) =>
      && |q.wanted| <= WINDOW_MAX_FAST
      && (q.last.Some? ==> exists r, known: nat :: LastKnown(env, w, s, q.id, q.last.value, r, known))
    case PartData(part) => exists r, i: nat :: IsRef(w, r) && i < |Parts(At(w, r))| && part == Parts(At(w, r))[i]
    case MoreHashes(id, segment, chunk) =>
      exists r :: IsRef(w, r) && At(w, r).header.id == id && r.t < |s.status| && Begun(s.status[r.t], r.k)
        && IsPiece(Hashes(env, At(w, r)), segment, chunk) && Knows(s, id, segment * HASHMAP_MAX_LEN) && Unadvertised(s, id)
    case Proof(id, value) =>
      exists r :: IsRef(w, r) && |w[r.t]| >= 1 && At(w, r).header.id == id && r.k < Done(w, s, r.t)
        && value == env.proof(At(w, r).plaintext, id)
  }

  /** Piece number `segment` of a hashmap. */
  ghost predicate IsPiece(hs: seq<Hash>, segment: nat, chunk: seq<Hash>) {
    var base := segment * HASHMAP_MAX_LEN;
    base < |hs| && chunk == hs[base..if base + HASHMAP_MAX_LEN < |hs| then base + HASHMAP_MAX_LEN else |hs|]
  }

  /** The data emitted for the transfer with this first hash, in order. */
  function EmittedFor(emitted: seq<Emission>, original: Hash): seq<seq<byte>> {
    if emitted == [] then []
    else (if emitted[0].original == original then [emitted[0].data] else []) + EmittedFor(emitted[1..], original)
  }

  ghost predicate StatusOk(w: World, s: System, t: nat)
    requires t < |w| && |w[t]| >= 1 && t < |s.status|
  {
    var done := Done(w, s, t);
    match s.status[t]
    case NotStarted => done == 0
    case Sending(k) => k < |w[t]| && k <= done <= k + 1
    case Resolved => done == |w[t]|
    case Rejected => done <= |w[t]|
  }

  /** The assembled segments of an unfinished transfer are kept in order; a
      finished one has been emitted, once. */
  ghost predicate OutputOk(w: World, s: System, t: nat)
    requires t < |w| && |w[t]| >= 1
  {
    var done, original := Done(w, s, t), Original(w, t);
    && done <= |w[t]|
    && (0 < done < |w[t]| ==> original in s.rx.segmented && s.rx.segmented[original] == Plaintexts(w[t])[..done])
    && (done == 0 || done == |w[t]| ==> original !in s.rx.segmented)
    && EmittedFor(s.rx.emitted, original) == if done == |w[t]| then [Data(w, t)] else []
  }

  ghost predicate RowsDistinct(table: seq<Incoming>) {
    forall i, j :: 0 <= i < j < |table| ==> table[i].header.id != table[j].header.id
  }

  ghost predicate Inv(env: Env, w: World, s: System) {
    && WorldOk(env, w) && |s.status| == |w|
    && RowsDistinct(s.rx.table)
    && (forall i :: 0 <= i < |s.rx.table| ==> RowOk(env, w, s, s.rx.table[i]))
    && (forall p | p in s.net :: PacketOk(env, w, s, p))
    && (forall t :: 0 <= t < |w| ==> StatusOk(w, s, t) && OutputOk(w, s, t))
  }
}
