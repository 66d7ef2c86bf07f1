/** The life of a link: establishment, keepalive, staleness, timeout and teardown,
    and the promises teardown settles. Times are in milliseconds, round-trip times
    in seconds. */
module LinkState {
  import opened Bytes

  const KEEPALIVE_MAX := 360.0
  const KEEPALIVE_MIN := 5.0
  const KEEPALIVE_MAX_RTT := 1.75
  const STALE_FACTOR := 2.0
  const STALE_GRACE := 5.0
  const KEEPALIVE_TIMEOUT_FACTOR := 4.0

  datatype Status = Pending | Handshake | Active | Stale | Closed
  datatype Reason = NoReason | Timeout | LocallyClosed
  datatype Packet = Keepalive | CloseNotice

  function Max(a: real, b: real): real { if a >= b then a else b }
  function Min(a: real, b: real): real { if a <= b then a else b }

  /** `timer` is when the watchdog is due. `requests` and `resources` are the
      promises waiting for a response or a proof, oldest first, and `settled` those
      no longer waiting. `out` is what the watchdog and close() have sent. */
  datatype Link = Link(
    status: Status, initiator: bool, requestTime: real, establishmentMs: real,
    rtt: real, activatedAt: real, lastInbound: real, lastKeepaliveSent: real, keepaliveMs: real, staleTimeMs: real,
    timer: Option<real>, reason: Reason, requests: seq<nat>, resources: seq<nat>, settled: seq<nat>, out: seq<Packet>)

  function New(initiator: bool, now: real, establishmentMs: real): Link {
    Link(if initiator then Pending else Handshake, initiator, now, establishmentMs, 0.0, 0.0, 0.0, 0.0,
         KEEPALIVE_MAX * 1000.0, KEEPALIVE_MAX * 1000.0 * STALE_FACTOR, Some(now + Max(establishmentMs, 0.0)), NoReason,
         [], [], [], [])
  }

  /** The keepalive interval is proportional to the round-trip time, 360 seconds at 1.75,
      between 5 and 360 seconds. */
  function KeepaliveMs(rtt: real): (ms: real)
    ensures 5000.0 <= ms <= 360000.0
    ensures rtt >= 1.75 ==> ms == 360000.0
    ensures rtt * 360.0 <= 5.0 * 1.75 ==> ms == 5000.0
    ensures rtt <= 1.75 && rtt * 360.0 >= 5.0 * 1.75 ==> ms * 1.75 == rtt * 360000.0
  {
    Max(Min(rtt * (KEEPALIVE_MAX / KEEPALIVE_MAX_RTT), KEEPALIVE_MAX), KEEPALIVE_MIN) * 1000.0
  }

  /** How long a stale link may stay silent. */
  function GraceMs(rtt: real): real { rtt * KEEPALIVE_TIMEOUT_FACTOR * 1000.0 + STALE_GRACE * 1000.0 }

  function Schedule(l: Link, now: real, delay: real): Link { l.(timer := Some(now + Max(delay, 0.0))) }

  /** Everything waiting is settled, the outgoing resources first. */
  function Teardown(l: Link): Link {
    l.(status := Closed, timer := None, requests := [], resources := [], settled := l.settled + l.resources + l.requests)
  }

  /** An active link: ping when quiet, and go stale after two intervals. */
  function ActiveTick(l: Link, now: real): Link {
    var last := Max(l.lastInbound, l.activatedAt);
    if now < last + l.keepaliveMs then Schedule(l, now, last + l.keepaliveMs - now)
    else
      var p := if l.initiator && now >= l.lastKeepaliveSent + l.keepaliveMs
               then l.(lastKeepaliveSent := now, out := l.out + [Keepalive]) else l;
      if now >= last + l.staleTimeMs then Schedule(p.(status := Stale), now, GraceMs(l.rtt))
      else Schedule(p, now, l.keepaliveMs)
  }

  function Tick(l: Link, now: real): Link {
    match l.status
    case Closed => l
    case Active => ActiveTick(l, now)
    case Stale => Teardown(l.(reason := Timeout, out := l.out + [CloseNotice]))
    case _ =>
      var deadline := l.requestTime + l.establishmentMs;
      if now >= deadline then Teardown(l.(reason := Timeout)) else Schedule(l, now, deadline - now)
  }

  /** Any packet for an active or stale link. */
  function NoteInbound(l: Link, now: real): Link {
    if l.status == Active || l.status == Stale then Tick(l.(lastInbound := now, status := Active), now) else l
  }

  function Activate(l: Link, now: real, rtt: real): Link {
    Tick(l.(rtt := rtt, status := Active, activatedAt := now, lastInbound := now,
            keepaliveMs := KeepaliveMs(rtt), staleTimeMs := KeepaliveMs(rtt) * STALE_FACTOR), now)
  }

  function Elapsed(l: Link, now: real): real { (now - l.requestTime) / 1000.0 }

  /** The owner's valid link proof. */
  function OnLinkProof(l: Link, now: real): Link {
    var n := NoteInbound(l, now);
    if n.status == Pending && n.initiator then Activate(n, now, Elapsed(n, now)) else n
  }

  /** The initiator's round-trip report. */
  function OnRttReport(l: Link, now: real, reported: real): Link {
    var n := NoteInbound(l, now);
    if n.status != Closed && !n.initiator then Activate(n, now, Max(Elapsed(n, now), reported)) else n
  }

  /** A close notice; a pending link has no key to read it. */
  function OnCloseNotice(l: Link, now: real): Link {
    if l.status == Closed || l.status == Pending then l else Teardown(NoteInbound(l, now))
  }

  function Close(l: Link): Link {
    if l.status == Closed then l
    else Teardown(l.(reason := LocallyClosed, out := if l.status != Pending then l.out + [CloseNotice] else l.out))
  }

  /** request(): refused at once unless the link is active. */
  function StartRequest(l: Link, id: nat): Link {
    if l.status == Active then l.(requests := l.requests + [id]) else l.(settled := l.settled + [id])
  }

  /** A segment is registered once it is compressed, whatever has happened to the
      link since its transfer was accepted. */
  function StartSegment(l: Link, id: nat): Link { l.(resources := l.resources + [id]) }

  function Without(ids: seq<nat>, id: nat): (r: seq<nat>)
    ensures multiset(r) == multiset(ids) - multiset{id}
    ensures forall x | x in r :: x in ids
  {
    if ids == [] then []
    else if ids[0] == id then
      assert ids == [ids[0]] + ids[1..];
      ids[1..]
    else
      assert ids == [ids[0]] + ids[1..];
      [ids[0]] + Without(ids[1..], id)
  }

  /** A response, a proof or the promise's own timer. */
  function Settle(l: Link, id: nat): Link {
    if id in l.requests then l.(requests := Without(l.requests, id), settled := l.settled + [id])
    else if id in l.resources then l.(resources := Without(l.resources, id), settled := l.settled + [id])
    else l
  }
}

/** Runs of a link, with timers that may fire late. */
module LinkRuns {
  import opened Bytes
  import opened LinkState

  datatype Event =
    | Inbound
    | LinkProof
    | RttReport(reported: real)
    | CloseNoticed
    | LocalClose
    | Timer
    | Request(id: nat)
    | Segment(id: nat)
    | Answer(id: nat)

  datatype Timed = Timed(now: real, event: Event)

  /** `issued` are the promises handed out so far, `late` the segments registered
      after the close. */
  datatype System = System(link: Link, clock: real, issued: set<nat>, late: set<nat>)

  /** Time does not run backwards, the watchdog fires only when due, and promises
      are distinct. */
  predicate Enabled(s: System, e: Timed) {
    && e.now >= s.clock
    && (e.event.Timer? ==> s.link.timer.Some? && e.now >= s.link.timer.value)
    && (e.event.Request? ==> e.event.id !in s.issued) && (e.event.Segment? ==> e.event.id !in s.issued)
  }

  function Moved(l: Link, e: Timed): Link {
    match e.event
    case Inbound => NoteInbound(l, e.now)
    case LinkProof => OnLinkProof(l, e.now)
    case RttReport(reported) => OnRttReport(l, e.now, reported)
    case CloseNoticed => OnCloseNotice(l, e.now)
    case LocalClose => Close(l)
    case Timer => Tick(l, e.now)
    case Request(id) => StartRequest(l, id)
    case Segment(id) => StartSegment(l, id)
    case Answer(id) => Settle(l, id)
  }

  function Step(s: System, e: Timed): System {
    System(Moved(s.link, e), e.now,
           s.issued + (if e.event.Request? || e.event.Segment? then {e.event.id} else {}),
           s.late + (if e.event.Segment? && s.link.status == Closed then {e.event.id} else {}))
  }

  predicate Runs(s: System, es: seq<Timed>)
    decreases |es|
  {
    es == [] || (Enabled(s, es[0]) && Runs(Step(s, es[0]), es[1..]))
  }

  function Run(s: System, es: seq<Timed>): System
    decreases |es|
  {
    if es == [] then s else Run(Step(s, es[0]), es[1..])
  }

  function Start(initiator: bool, now: real, establishmentMs: real): System {
    System(New(initiator, now, establishmentMs), now, {}, {})
  }

  // ----- the invariant -----

  predicate ClockOk(l: Link, clock: real) {
    && l.requestTime <= clock && l.establishmentMs >= 0.0
    && 5000.0 <= l.keepaliveMs <= 360000.0 && l.staleTimeMs == l.keepaliveMs * STALE_FACTOR
    && match l.status
       case Pending => l.timer == Some(l.requestTime + l.establishmentMs)
       case Handshake => l.timer == Some(l.requestTime + l.establishmentMs)
       case Active => Established(l, clock) && l.timer.Some?
       case Stale => Established(l, clock) && l.timer.Some? && l.timer.value >= l.lastInbound + l.staleTimeMs + GraceMs(l.rtt)
       case Closed => l.timer == None
  }

  predicate Established(l: Link, clock: real) {
    l.activatedAt <= l.lastInbound <= clock && l.rtt >= 0.0 && l.keepaliveMs == KeepaliveMs(l.rtt)
  }

  /** Each promise is waiting or settled, once. */
  predicate LedgerOk(s: System) {
    && multiset(s.link.requests) + multiset(s.link.resources) + multiset(s.link.settled) == multiset(s.issued)
    && (s.link.status == Closed ==> s.link.requests == [] && forall id | id in s.link.resources :: id in s.late)
    && (s.link.status != Closed ==> s.late == {})
    && s.late <= s.issued
  }

  predicate Inv(s: System) { ClockOk(s.link, s.clock) && LedgerOk(s) }

  lemma TickKeepsClock(l: Link, clock: real, now: real)
    requires ClockOk(l, clock) && now >= clock
    requires l.status == Stale ==> l.timer.Some? && now >= l.timer.value
    requires (l.status == Pending || l.status == Handshake) ==> l.timer.Some? && now >= l.timer.value
    ensures ClockOk(Tick(l, now), now)
  {
  }

  lemma NoteKeepsClock(l: Link, clock: real, now: real)
    requires ClockOk(l, clock) && now >= clock
    ensures ClockOk(NoteInbound(l, now), now)
    ensures NoteInbound(l, now).requestTime == l.requestTime
  {
    if l.status == Active || l.status == Stale {
      assert ClockOk(l.(lastInbound := now, status := Active), now);
    }
  }

  lemma ActivateKeepsClock(l: Link, now: real, rtt: real)
    requires ClockOk(l, now) && rtt >= 0.0
    ensures ClockOk(Activate(l, now, rtt), now)
  {
  }

  lemma QuietKeepsClock(l: Link, clock: real, e: Timed)
    requires ClockOk(l, clock) && e.now >= clock
    requires !e.event.LinkProof? && !e.event.RttReport? && !e.event.Timer? && !e.event.Inbound?
    ensures ClockOk(Moved(l, e), e.now)
  {
  }

  lemma StepKeepsClock(s: System, e: Timed)
    requires ClockOk(s.link, s.clock) && Enabled(s, e)
    ensures ClockOk(Step(s, e).link, e.now)
  {
    var l := s.link;
    NoteKeepsClock(l, s.clock, e.now);
    var n := NoteInbound(l, e.now);
    match e.event
    case LinkProof => if n.status == Pending && n.initiator { ActivateKeepsClock(n, e.now, Elapsed(n, e.now)); }
    case RttReport(reported) =>
      if n.status != Closed && !n.initiator { ActivateKeepsClock(n, e.now, Max(Elapsed(n, e.now), reported)); }
    case Timer => TickKeepsClock(l, s.clock, e.now);
    case Inbound =>
    case _ => QuietKeepsClock(l, s.clock, e);
  }

  lemma SettleMoves(l: Link, id: nat)
    ensures var n := Settle(l, id);
      && multiset(n.requests) + multiset(n.resources) + multiset(n.settled)
         == multiset(l.requests) + multiset(l.resources) + multiset(l.settled)
      && n.status == l.status && (forall x | x in n.resources :: x in l.resources) && (l.requests == [] ==> n.requests == [])
  {
    if id in l.requests {
      assert multiset(l.requests)[id] > 0;
    } else if id in l.resources {
      assert multiset(l.resources)[id] > 0;
    }
  }

  /** The promises are untouched, or all settled by a teardown. */
  predicate TornOrSame(l: Link, n: Link) {
    || (n.requests == l.requests && n.resources == l.resources && n.settled == l.settled
        && (n.status == Closed <==> l.status == Closed))
    || (l.status != Closed && n.status == Closed && n.requests == [] && n.resources == []
        && n.settled == l.settled + l.resources + l.requests)
  }

  lemma TickTears(l: Link, now: real)
    ensures TornOrSame(l, Tick(l, now))
    ensures l.status == Active ==> Tick(l, now).status != Closed
  {
  }

  lemma NoteTears(l: Link, now: real)
    ensures TornOrSame(l, NoteInbound(l, now)) && (NoteInbound(l, now).status == Closed <==> l.status == Closed)
  {
    if l.status == Active || l.status == Stale { TickTears(l.(lastInbound := now, status := Active), now); }
  }

  lemma ActivateTears(l: Link, now: real, rtt: real)
    requires l.status != Closed
    ensures TornOrSame(l, Activate(l, now, rtt)) && Activate(l, now, rtt).status != Closed
  {
  }

  /** Watchdog, arrivals and closing move promises only by teardown. */
  lemma MovedTears(l: Link, e: Timed)
    requires !e.event.Request? && !e.event.Segment? && !e.event.Answer?
    ensures TornOrSame(l, Moved(l, e))
  {
    NoteTears(l, e.now);
    var n := NoteInbound(l, e.now);
    match e.event
    case LinkProof => if n.status == Pending && n.initiator { ActivateTears(n, e.now, Elapsed(n, e.now)); }
    case RttReport(reported) =>
      if n.status != Closed && !n.initiator { ActivateTears(n, e.now, Max(Elapsed(n, e.now), reported)); }
    case Timer => TickTears(l, e.now);
    case _ =>
  }

  lemma IssueKeepsLedger(s: System, e: Timed)
    requires LedgerOk(s) && Enabled(s, e) && (e.event.Request? || e.event.Segment?)
    ensures LedgerOk(Step(s, e))
  {
    assert multiset(s.issued + {e.event.id}) == multiset(s.issued) + multiset{e.event.id};
  }

  lemma AnswerKeepsLedger(s: System, e: Timed)
    requires LedgerOk(s) && e.event.Answer?
    ensures LedgerOk(Step(s, e))
  {
    SettleMoves(s.link, e.event.id);
    assert Step(s, e) == System(Settle(s.link, e.event.id), e.now, s.issued, s.late);
  }

  lemma TornKeepsLedger(s: System, e: Timed, n: Link)
    requires LedgerOk(s) && n == Moved(s.link, e) && TornOrSame(s.link, n)
    requires !e.event.Request? && !e.event.Segment?
    ensures LedgerOk(Step(s, e))
  {
    assert Step(s, e) == System(n, e.now, s.issued, s.late);
  }

  lemma StepKeepsLedger(s: System, e: Timed)
    requires LedgerOk(s) && Enabled(s, e)
    ensures LedgerOk(Step(s, e))
  {
    if e.event.Request? || e.event.Segment? {
      IssueKeepsLedger(s, e);
    } else if e.event.Answer? {
      AnswerKeepsLedger(s, e);
    } else {
      MovedTears(s.link, e);
      TornKeepsLedger(s, e, Moved(s.link, e));
    }
  }

  lemma {:induction false} RunInv(s: System, es: seq<Timed>)
    requires Inv(s) && Runs(s, es)
    ensures Inv(Run(s, es))
    decreases |es|
  {
    if es != [] {
      StepKeepsClock(s, es[0]);
      StepKeepsLedger(s, es[0]);
      RunInv(Step(s, es[0]), es[1..]);
    }
  }

  lemma StartInv(initiator: bool, now: real, establishmentMs: real)
    requires establishmentMs >= 0.0
    ensures Inv(Start(initiator, now, establishmentMs))
  {
  }

  // ----- what follows -----

  /** A closed link stays closed. */
  lemma {:induction false} ClosedForever(s: System, es: seq<Timed>)
    requires s.link.status == Closed
    ensures Run(s, es).link.status == Closed
    decreases |es|
  {
    if es != [] { ClosedForever(Step(s, es[0]), es[1..]); }
  }

  /** In every run each promise is settled at most once, and is waiting exactly as
      long as it is not settled. On a closed link only segments registered after
      the close can still be waiting. */
  lemma PromisesAreSettled(initiator: bool, now: real, establishmentMs: real, es: seq<Timed>, id: nat)
    requires establishmentMs >= 0.0 && Runs(Start(initiator, now, establishmentMs), es)
    requires id in Run(Start(initiator, now, establishmentMs), es).issued
    ensures var s := Run(Start(initiator, now, establishmentMs), es);
      && multiset(s.link.settled)[id] <= 1
      && (id in s.link.settled <==> !(id in s.link.requests || id in s.link.resources))
      && (s.link.status == Closed && id !in s.link.settled ==> id in s.late && id in s.link.resources)
  {
    StartInv(initiator, now, establishmentMs);
    RunInv(Start(initiator, now, establishmentMs), es);
    var s := Run(Start(initiator, now, establishmentMs), es);
    var l := s.link;
    assert multiset(s.issued)[id] == 1;
    assert (multiset(l.requests) + multiset(l.resources) + multiset(l.settled))[id] == 1;
    assert multiset(l.requests)[id] + multiset(l.resources)[id] + multiset(l.settled)[id] == 1;
  }

  predicate Answered(es: seq<Timed>, id: nat) { exists j :: 0 <= j < |es| && es[j].event == Answer(id) }

  /** Every segment registered while the link was closed has been answered since. */
  predicate LateAnswered(s: System, es: seq<Timed>)
    decreases |es|
  {
    es == [] || ((es[0].event.Segment? && s.link.status == Closed ==> Answered(es[1..], es[0].event.id))
                 && LateAnswered(Step(s, es[0]), es[1..]))
  }

  lemma {:induction false} SettledForever(s: System, es: seq<Timed>)
    ensures s.link.settled <= Run(s, es).link.settled
    decreases |es|
  {
    if es != [] {
      var e := es[0];
      if !e.event.Request? && !e.event.Segment? && !e.event.Answer? { MovedTears(s.link, e); }
      SettledForever(Step(s, e), es[1..]);
    }
  }

  /** A closed link only changes by requests, segments and answers. */
  lemma ClosedMoves(l: Link, e: Timed)
    requires l.status == Closed && !e.event.Request? && !e.event.Segment? && !e.event.Answer?
    ensures Moved(l, e) == l
  {
  }

  lemma WaitingIsIssued(s: System, id: nat)
    requires LedgerOk(s) && id in s.link.resources
    ensures id in s.issued
  {
    assert multiset(s.link.resources)[id] > 0;
    assert id in multiset(s.issued);
  }

  lemma OtherAnswered(l: Link, other: nat, id: nat)
    requires l.requests == [] && id in l.resources && id !in l.settled && other != id
    ensures id in Settle(l, other).resources && id !in Settle(l, other).settled
  {
    assert id in multiset(Without(l.resources, other));
  }

  /** On a closed link an event other than its answer leaves a segment waiting. */
  lemma StillWaits(s: System, e: Timed, id: nat)
    requires LedgerOk(s) && Enabled(s, e) && s.link.status == Closed && id in s.link.resources && id !in s.link.settled
    ensures id in s.issued
    ensures e.event != Answer(id) ==> id in Step(s, e).link.resources && id !in Step(s, e).link.settled
    ensures e.event == Answer(id) ==> id in Step(s, e).link.settled
  {
    WaitingIsIssued(s, id);
    match e.event
    case Request(_) =>
    case Segment(_) =>
    case Answer(other) => if other != id { OtherAnswered(s.link, other, id); }
    case _ => ClosedMoves(s.link, e);
  }

  /** It is settled exactly when its answer comes. */
  lemma {:induction false} WaitsForAnswer(s: System, es: seq<Timed>, id: nat)
    requires LedgerOk(s) && Runs(s, es) && s.link.status == Closed && id in s.link.resources && id !in s.link.settled
    ensures id in Run(s, es).link.settled <==> Answered(es, id)
    decreases |es|
  {
    if es != [] {
      var e, rest := es[0], es[1..];
      StillWaits(s, e, id);
      if e.event == Answer(id) {
        SettledForever(Step(s, e), rest);
      } else {
        StepKeepsLedger(s, e);
        ClosedForever(s, [e]);
        WaitsForAnswer(Step(s, e), rest, id);
        assert forall j :: 0 <= j < |rest| ==> rest[j] == es[j + 1];
      }
    }
  }

  lemma LateSegmentIsNew(s: System, e: Timed)
    requires LedgerOk(s) && Enabled(s, e) && e.event.Segment?
    ensures e.event.id in Step(s, e).link.resources && e.event.id !in Step(s, e).link.settled
  {
    assert e.event.id !in multiset(s.issued);
    assert multiset(s.link.settled)[e.event.id] == 0;
  }

  predicate AllIn(ids: set<nat>, settled: seq<nat>) { forall id | id in ids :: id in settled }

  lemma LateHead(s: System, e: Timed, rest: seq<Timed>)
    requires LedgerOk(s) && Enabled(s, e) && Runs(Step(s, e), rest)
    ensures var settled, next := Run(Step(s, e), rest).link.settled, Step(s, e);
      AllIn(next.late, settled)
      <==> AllIn(s.late, settled) && (e.event.Segment? && s.link.status == Closed ==> Answered(rest, e.event.id))
  {
    var next, settled := Step(s, e), Run(Step(s, e), rest).link.settled;
    if e.event.Segment? && s.link.status == Closed {
      StepKeepsLedger(s, e);
      LateSegmentIsNew(s, e);
      WaitsForAnswer(next, rest, e.event.id);
      assert next.late == s.late + {e.event.id};
      assert AllIn(next.late, settled) <==> AllIn(s.late, settled) && e.event.id in settled;
    } else {
      assert next.late == s.late;
    }
  }

  lemma {:induction false} LateSettledIff(s: System, es: seq<Timed>)
    requires LedgerOk(s) && Runs(s, es)
    ensures AllIn(Run(s, es).late, Run(s, es).link.settled)
      <==> AllIn(s.late, Run(s, es).link.settled) && LateAnswered(s, es)
    decreases |es|
  {
    if es != [] {
      StepKeepsLedger(s, es[0]);
      LateSettledIff(Step(s, es[0]), es[1..]);
      LateHead(s, es[0], es[1..]);
    }
  }

  /** On a closed link every promise handed out is settled exactly when each segment
      registered after the close has been answered since. */
  lemma AllSettledIff(initiator: bool, now: real, establishmentMs: real, es: seq<Timed>)
    requires establishmentMs >= 0.0 && Runs(Start(initiator, now, establishmentMs), es)
    requires Run(Start(initiator, now, establishmentMs), es).link.status == Closed
    ensures var s := Run(Start(initiator, now, establishmentMs), es);
      (forall id | id in s.issued :: id in s.link.settled) <==> LateAnswered(Start(initiator, now, establishmentMs), es)
  {
    var s := Run(Start(initiator, now, establishmentMs), es);
    StartInv(initiator, now, establishmentMs);
    RunInv(Start(initiator, now, establishmentMs), es);
    LateSettledIff(Start(initiator, now, establishmentMs), es);
    forall id | id in s.issued && id !in s.link.settled ensures id in s.late {
      PromisesAreSettled(initiator, now, establishmentMs, es, id);
    }
  }

  /** The step that closes the link, whatever it is, leaves no promise waiting. */
  lemma CloseSettlesAll(initiator: bool, now: real, establishmentMs: real, es: seq<Timed>, e: Timed)
    requires establishmentMs >= 0.0 && Runs(Start(initiator, now, establishmentMs), es)
    requires var s := Run(Start(initiator, now, establishmentMs), es);
      Enabled(s, e) && s.link.status != Closed && Step(s, e).link.status == Closed
    ensures var s := Step(Run(Start(initiator, now, establishmentMs), es), e);
      s.link.requests == [] && s.link.resources == [] && multiset(s.link.settled) == multiset(s.issued)
  {
    StartInv(initiator, now, establishmentMs);
    RunInv(Start(initiator, now, establishmentMs), es);
    var s := Run(Start(initiator, now, establishmentMs), es);
    StepKeepsLedger(s, e);
    assert forall id | id in Step(s, e).link.resources :: id in s.late;
  }

  /** A segment can indeed be registered on a closed link, and then waits there. */
  lemma LateSegmentWaits(initiator: bool, now: real, establishmentMs: real, id: nat)
    requires establishmentMs >= 0.0
    ensures var es := [Timed(now, LocalClose), Timed(now, Segment(id))];
      var s := Run(Start(initiator, now, establishmentMs), es);
      && Runs(Start(initiator, now, establishmentMs), es)
      && s.link.status == Closed && s.link.resources == [id] && s.link.settled == []
  {
    var s := Start(initiator, now, establishmentMs);
    var e, f := Timed(now, LocalClose), Timed(now, Segment(id));
    assert [e, f][1..] == [f] && [f][1..] == [];
    assert Step(s, e).link.status == Closed;
    assert Run(Step(s, e), [f]) == Run(Step(Step(s, e), f), []);
  }

  /** An established link is timed out only after inbound silence of two keepalive
      intervals, four round trips and five seconds; one not established, only after
      its establishment timeout. */
  lemma TimeoutNeedsSilence(initiator: bool, now: real, establishmentMs: real, es: seq<Timed>, e: Timed)
    requires establishmentMs >= 0.0 && Runs(Start(initiator, now, establishmentMs), es)
    requires Enabled(Run(Start(initiator, now, establishmentMs), es), e) && e.event.Timer?
    ensures var s := Run(Start(initiator, now, establishmentMs), es);
      var l := s.link;
      && (Step(s, e).link.status == Closed && (l.status == Active || l.status == Stale) ==>
            && l.status == Stale && Step(s, e).link.reason == Timeout && l.rtt >= 0.0
            && e.now - l.lastInbound >= 2.0 * KeepaliveMs(l.rtt) + 4000.0 * l.rtt + 5000.0)
      && (l.status == Pending || l.status == Handshake ==>
            Step(s, e).link.status == Closed && e.now - now >= establishmentMs)
  {
    StartInv(initiator, now, establishmentMs);
    RunInv(Start(initiator, now, establishmentMs), es);
    SameRequest(Start(initiator, now, establishmentMs), es);
  }

  lemma MovedKeepsRequest(l: Link, e: Timed)
    ensures Moved(l, e).requestTime == l.requestTime && Moved(l, e).establishmentMs == l.establishmentMs
  {
    var n := NoteInbound(l, e.now);
    assert n.requestTime == l.requestTime && n.establishmentMs == l.establishmentMs;
  }

  lemma {:induction false} SameRequest(s: System, es: seq<Timed>)
    ensures Run(s, es).link.requestTime == s.link.requestTime && Run(s, es).link.establishmentMs == s.link.establishmentMs
    decreases |es|
  {
    if es != [] {
      MovedKeepsRequest(s.link, es[0]);
      SameRequest(Step(s, es[0]), es[1..]);
    }
  }

  /** With exact timers a link that falls silent pings, goes stale and is closed at
      exactly those moments. */
  lemma SilentLinkTimesOut(l: Link, clock: real, t: real)
    requires ClockOk(l, clock) && t >= clock && (l.status == Active || l.status == Stale)
    ensures var k, g := KeepaliveMs(l.rtt), 4000.0 * l.rtt + 5000.0;
      var heard := NoteInbound(l, t);
      var quiet := Tick(heard, t + k);
      var stale := Tick(quiet, t + 2.0 * k);
      var gone := Tick(stale, t + 2.0 * k + g);
      && heard.status == Active && heard.timer == Some(t + k)
      && quiet.status == Active && quiet.timer == Some(t + 2.0 * k)
      && stale.status == Stale && stale.timer == Some(t + 2.0 * k + g)
      && gone.status == Closed && gone.reason == Timeout
  {
    var k := KeepaliveMs(l.rtt);
    var heard := NoteInbound(l, t);
    assert heard.lastInbound == t && heard.keepaliveMs == k && heard.staleTimeMs == k * 2.0 && heard.rtt == l.rtt;
    var quiet := Tick(heard, t + k);
    assert quiet.lastInbound == t && quiet.keepaliveMs == k && quiet.staleTimeMs == k * 2.0 && quiet.rtt == l.rtt;
  }

  /** Any packet brings a stale link back and restarts its silence. */
  lemma InboundRevives(l: Link, clock: real, now: real)
    requires ClockOk(l, clock) && now >= clock && l.status == Stale
    ensures NoteInbound(l, now).status == Active && NoteInbound(l, now).lastInbound == now
    ensures NoteInbound(l, now).timer == Some(now + KeepaliveMs(l.rtt))
  {
  }
}
