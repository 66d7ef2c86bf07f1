/** An incoming resource transfer: which parts to request next, what an arriving
    part, hashmap update or expired deadline does to it. */
module ResourceIncoming {
  import opened Bytes

  /** Map hashes and resource hashes are only compared. */
  type Hash = nat
  type Part = seq<byte>

  const HASHMAP_MAX_LEN := 74
  const WINDOW := 4
  const WINDOW_MIN := 2
  const WINDOW_MAX_SLOW := 10
  const WINDOW_MAX_VERY_SLOW := 4
  const WINDOW_MAX_FAST := 75
  const WINDOW_FLEXIBILITY := 4
  const RATE_FAST := 6250.0
  const RATE_VERY_SLOW := 250.0
  const FAST_RATE_THRESHOLD := 4
  const VERY_SLOW_RATE_THRESHOLD := 2
  const MAX_RETRIES := 16

  /** What the advertisement says about the transfer. */
  datatype Header = Header(id: Hash, random: Hash, compressed: bool, index: nat, total: nat, original: Hash)

  /** `completed` is the height of the longest full prefix, -1 when there is none;
      `asked` lists the positions in the latest request. */
  datatype Incoming = Incoming(
    header: Header, entries: seq<Hash>, parts: seq<Option<Part>>,
    receivedCount: nat, completed: int, outstanding: int, waitingForHmu: bool,
    window: nat, windowMax: nat, windowMin: nat, fastRounds: nat, verySlowRounds: nat,
    retriesLeft: nat, armed: bool, asked: seq<nat>)

  /** `last` is the last known map hash when the known entries have run out. */
  datatype Request = Request(id: Hash, wanted: seq<Hash>, last: Option<Hash>)

  function NoParts(n: nat): seq<Option<Part>> { seq(n, _ => None) }

  function New(header: Header, totalParts: nat, entries: seq<Hash>): Incoming {
    Incoming(header, entries, NoParts(totalParts), 0, -1, 0, false,
             WINDOW, WINDOW_MAX_SLOW, WINDOW_MIN, 0, 0, MAX_RETRIES, false, [])
  }

  // ----- requesting -----

  datatype Want = Want(positions: seq<nat>, exhausted: bool)

  /** The first `room` missing positions from `i` on, up to the known entries. */
  function WantFrom(entries: seq<Hash>, parts: seq<Option<Part>>, i: nat, room: nat): (w: Want)
    ensures forall k :: 0 <= k < |w.positions| ==>
      i <= w.positions[k] < |parts| && w.positions[k] < |entries| && parts[w.positions[k]].None?
    ensures forall j, k :: 0 <= j < k < |w.positions| ==> w.positions[j] < w.positions[k]
    ensures |w.positions| <= room
    ensures w.exhausted ==> |entries| < |parts| && i <= |parts|
    decreases |parts| - i
  {
    if room == 0 || i >= |parts| then Want([], false)
    else if i >= |entries| then Want([], true)
    else if parts[i].None? then
      var w := WantFrom(entries, parts, i + 1, room - 1);
      w.(positions := [i] + w.positions)
    else WantFrom(entries, parts, i + 1, room)
  }

  function Pick(entries: seq<Hash>, positions: seq<nat>): seq<Hash>
    requires forall k :: 0 <= k < |positions| ==> positions[k] < |entries|
  {
    seq(|positions|, k requires 0 <= k < |positions| => entries[positions[k]])
  }

  datatype Requesting = Requesting(incoming: Incoming, request: Option<Request>)

  predicate HeightOk(inc: Incoming) { -1 <= inc.completed < |inc.parts| }

  function RequestNext(inc: Incoming): Requesting
    requires HeightOk(inc)
  {
    if inc.waitingForHmu then Requesting(inc, None)
    else
      var w := WantFrom(inc.entries, inc.parts, inc.completed + 1, inc.window);
      if w.positions == [] && !w.exhausted then Requesting(inc.(outstanding := 0), None)
      else
        Requesting(
          inc.(outstanding := |w.positions|, waitingForHmu := w.exhausted, armed := true, asked := w.positions),
          Some(Request(inc.header.id, Pick(inc.entries, w.positions),
                       if w.exhausted && inc.entries != [] then Some(inc.entries[|inc.entries| - 1]) else None)))
  }

  // ----- the window -----

  /** A round was answered in full; `rate` is its measured rate, if any. */
  function Grow(inc: Incoming, rate: Option<real>): Incoming {
    var g := if inc.window < inc.windowMax then
               inc.(window := inc.window + 1,
                    windowMin := if inc.window + 1 - inc.windowMin > WINDOW_FLEXIBILITY - 1 then inc.windowMin + 1 else inc.windowMin)
             else inc;
    if rate.None? then g
    else
      var f := if rate.value > RATE_FAST && g.fastRounds < FAST_RATE_THRESHOLD then
                 g.(fastRounds := g.fastRounds + 1,
                    windowMax := if g.fastRounds + 1 == FAST_RATE_THRESHOLD then WINDOW_MAX_FAST else g.windowMax)
               else g;
      if f.fastRounds == 0 && rate.value < RATE_VERY_SLOW && f.verySlowRounds < VERY_SLOW_RATE_THRESHOLD then
        f.(verySlowRounds := f.verySlowRounds + 1,
           windowMax := if f.verySlowRounds + 1 == VERY_SLOW_RATE_THRESHOLD then WINDOW_MAX_VERY_SLOW else f.windowMax)
      else f
  }

  function Shrink(inc: Incoming): Incoming {
    if inc.window > inc.windowMin then
      var s := inc.(window := inc.window - 1);
      if s.windowMax > s.windowMin then
        s.(windowMax := if s.windowMax - 1 - s.window > WINDOW_FLEXIBILITY - 1 then s.windowMax - 2 else s.windowMax - 1)
      else s
    else inc
  }

  /** The deadline has passed and its timer is spent: give up, or shrink, spend a
      retry and ask again. */
  function Expire(inc: Incoming): Option<Requesting>
    requires HeightOk(inc)
  {
    if inc.retriesLeft == 0 then None
    else Some(RequestNext(Shrink(inc).(retriesLeft := inc.retriesLeft - 1, waitingForHmu := false, armed := false)))
  }

  // ----- arrivals -----

  /** Entries `chunk` written at `base`; one past the known entries is not written. */
  function WriteEntries(entries: seq<Hash>, base: nat, chunk: seq<Hash>): seq<Hash> {
    if base > |entries| then entries
    else entries[..base] + chunk + (if base + |chunk| <= |entries| then entries[base + |chunk|..] else [])
  }

  /** Hashmap piece number `segment`. */
  function HashmapUpdate(inc: Incoming, segment: nat, chunk: seq<Hash>): Requesting
    requires HeightOk(inc)
  {
    RequestNext(inc.(entries := WriteEntries(inc.entries, segment * HASHMAP_MAX_LEN, chunk),
                     retriesLeft := MAX_RETRIES, waitingForHmu := false))
  }

  function Find(entries: seq<Hash>, h: Hash, i: nat, end: nat): (r: Option<nat>)
    requires i <= end <= |entries|
    ensures r.Some? ==> i <= r.value < end && entries[r.value] == h
    ensures r.None? ==> forall k :: i <= k < end ==> entries[k] != h
    decreases end - i
  {
    if i == end then None else if entries[i] == h then Some(i) else Find(entries, h, i + 1, end)
  }

  /** The position of a part among those now searched: `window` entries from the
      last one of the full prefix. */
  function Match(inc: Incoming, h: Hash): (r: Option<nat>)
    requires HeightOk(inc)
    ensures r.Some? ==> r.value < |inc.entries| && inc.entries[r.value] == h
  {
    var start: nat := if inc.completed >= 0 then inc.completed else 0;
    var end := if start + inc.window < |inc.entries| then start + inc.window else |inc.entries|;
    if start <= end then Find(inc.entries, h, start, end) else None
  }

  function FullPrefix(parts: seq<Option<Part>>, i: nat): (height: int)
    requires i <= |parts|
    ensures i - 1 <= height < |parts|
    ensures forall k :: i <= k <= height ==> parts[k].Some?
    ensures height + 1 < |parts| ==> parts[height + 1].None?
    decreases |parts| - i
  {
    if i < |parts| && parts[i].Some? then FullPrefix(parts, i + 1) else i - 1
  }

  /** Any recognised part refills the retries. */
  function Touch(inc: Incoming): Incoming { inc.(retriesLeft := MAX_RETRIES) }

  /** Part `p` is kept at position `m`, unless it is already there. */
  function Store(inc: Incoming, m: nat, p: Part): Incoming
    requires HeightOk(inc)
  {
    if m >= |inc.parts| || inc.parts[m].Some? then Touch(inc)
    else
      var parts := inc.parts[m := Some(p)];
      Touch(inc).(parts := parts, receivedCount := inc.receivedCount + 1, outstanding := inc.outstanding - 1,
                  completed := FullPrefix(parts, inc.completed + 1))
  }

  predicate Complete(inc: Incoming) { inc.receivedCount == |inc.parts| }

  /** After storing a new part: once the request is answered in full, grow and ask again. */
  function AfterStore(inc: Incoming, rate: Option<real>): Requesting
    requires HeightOk(inc)
  {
    if inc.outstanding <= 0 then RequestNext(Grow(inc, rate)) else Requesting(inc, None)
  }
}
