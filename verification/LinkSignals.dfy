/** What a link sends and when it becomes active: keepalives, close notices,
    activation, and the promises of requests. */
module LinkSignals {
  import opened Bytes
  import opened LinkState
  import opened LinkRuns

  // ----- close notices -----

  /** Until the link is closed it has sent no close notice, and never more than one. */
  predicate NoticeOk(l: Link) {
    multiset(l.out)[CloseNotice] <= (if l.status == Closed then 1 else 0)
  }

  predicate Pings(out: seq<Packet>, out': seq<Packet>) { out' == out || out' == out + [Keepalive] }

  lemma TickOut(l: Link, now: real)
    ensures var n := Tick(l, now);
      if l.status == Stale then n.out == l.out + [CloseNotice] else Pings(l.out, n.out)
  {
  }

  lemma NoteOut(l: Link, now: real)
    ensures Pings(l.out, NoteInbound(l, now).out)
    ensures NoteInbound(l, now).status == Closed <==> l.status == Closed
    ensures l.status == Pending || l.status == Handshake || l.status == Closed ==> NoteInbound(l, now) == l
  {
    if l.status == Active || l.status == Stale { TickOut(l.(lastInbound := now, status := Active), now); }
  }

  lemma ActivateOut(l: Link, now: real, rtt: real)
    ensures Pings(l.out, Activate(l, now, rtt).out) && Activate(l, now, rtt).status != Closed
  {
  }

  /** The events that send a close notice, exactly: closing a link that is past its
      request, and the timer of a stale one. Both close it; a closed link sends nothing. */
  predicate Notifies(l: Link, e: Timed) {
    (e.event.LocalClose? && l.status != Closed && l.status != Pending) || (e.event.Timer? && l.status == Stale)
  }

  /** `a` and then possibly pings. */
  predicate OnlyPings(out: seq<Packet>, out': seq<Packet>) {
    out <= out' && forall k :: |out| <= k < |out'| ==> out'[k] == Keepalive
  }

  lemma NoticeExactly(l: Link, e: Timed)
    ensures var n := Moved(l, e);
      && (Notifies(l, e) ==> n.status == Closed && n.out == l.out + [CloseNotice])
      && (!Notifies(l, e) ==> OnlyPings(l.out, n.out))
      && (l.status == Closed ==> n.out == l.out)
  {
    NoteOut(l, e.now);
    var n := NoteInbound(l, e.now);
    match e.event
    case LinkProof => if n.status == Pending && n.initiator { ActivateOut(n, e.now, Elapsed(n, e.now)); }
    case RttReport(reported) =>
      if n.status != Closed && !n.initiator { ActivateOut(n, e.now, Max(Elapsed(n, e.now), reported)); }
    case Timer => TickOut(l, e.now);
    case _ =>
  }

  lemma PingsAreNoNotice(out: seq<Packet>, out': seq<Packet>)
    requires OnlyPings(out, out')
    ensures multiset(out')[CloseNotice] == multiset(out)[CloseNotice]
  {
    var more := out'[|out|..];
    assert out' == out + more;
    assert CloseNotice !in more;
  }

  lemma StepNotice(l: Link, e: Timed)
    requires NoticeOk(l)
    ensures NoticeOk(Moved(l, e))
  {
    NoticeExactly(l, e);
    if !Notifies(l, e) {
      PingsAreNoNotice(l.out, Moved(l, e).out);
      if l.status == Closed { StaysClosed(l, e); }
    }
  }

  lemma StaysClosed(l: Link, e: Timed)
    requires l.status == Closed
    ensures Moved(l, e).status == Closed
  {
  }

  /** In every run at most one close notice is sent, none before the link is closed,
      and from a closed link nothing at all. */
  lemma {:induction false} NoticeOnce(s: System, es: seq<Timed>)
    requires NoticeOk(s.link)
    ensures NoticeOk(Run(s, es).link) && (s.link.status == Closed ==> Run(s, es).link.out == s.link.out)
    decreases |es|
  {
    if es != [] {
      StepNotice(s.link, es[0]);
      NoticeExactly(s.link, es[0]);
      if s.link.status == Closed { StaysClosed(s.link, es[0]); }
      NoticeOnce(Step(s, es[0]), es[1..]);
    }
  }

  // ----- keepalives -----

  /** With exact timers the initiator of a link that falls silent pings after one
      keepalive interval and after two; then it goes stale, and sends a close notice
      when it gives up. The other end sends only the notice. */
  lemma SilentLinkPings(l: Link, clock: real, t: real)
    requires ClockOk(l, clock) && t >= clock && (l.status == Active || l.status == Stale) && l.lastKeepaliveSent <= t
    ensures var k, g := KeepaliveMs(l.rtt), 4000.0 * l.rtt + 5000.0;
      var heard := NoteInbound(l, t);
      var quiet := Tick(heard, t + k);
      var stale := Tick(quiet, t + 2.0 * k);
      var gone := Tick(stale, t + 2.0 * k + g);
      var ping := if l.initiator then [Keepalive] else [];
      && heard.out == l.out && quiet.out == heard.out + ping && stale.out == quiet.out + ping
      && gone.out == stale.out + [CloseNotice]
  {
    var k := KeepaliveMs(l.rtt);
    SilentLinkTimesOut(l, clock, t);
    var heard := NoteInbound(l, t);
    assert heard.lastInbound == t && heard.keepaliveMs == k && heard.staleTimeMs == k * 2.0 && heard.out == l.out;
    assert heard.initiator == l.initiator && heard.lastKeepaliveSent == l.lastKeepaliveSent;
    var quiet := Tick(heard, t + k);
    assert quiet.lastInbound == t && quiet.keepaliveMs == k && quiet.staleTimeMs == k * 2.0;
    assert quiet.initiator == l.initiator && (l.initiator ==> quiet.lastKeepaliveSent == t + k);
  }

  // ----- activation -----

  /** An active link as it is when it has just become so. */
  ghost predicate JustActive(l: Link, now: real, rtt: real) {
    && l.status == Active && l.rtt == rtt && l.activatedAt == now && l.lastInbound == now
    && l.keepaliveMs == KeepaliveMs(rtt) && l.timer == Some(now + KeepaliveMs(rtt))
  }

  lemma ActivateIs(l: Link, now: real, rtt: real)
    ensures JustActive(Activate(l, now, rtt), now, rtt)
  {
    assert 5000.0 <= KeepaliveMs(rtt);
  }

  /** In every run the owner's proof activates an initiator's pending link, with the
      time since its request as round-trip time. */
  lemma ProofActivates(now: real, establishmentMs: real, es: seq<Timed>, t: real)
    requires establishmentMs >= 0.0 && Runs(Start(true, now, establishmentMs), es)
    requires Run(Start(true, now, establishmentMs), es).link.status == Pending
    ensures var s := Step(Run(Start(true, now, establishmentMs), es), Timed(t, LinkProof));
      JustActive(s.link, t, (t - now) / 1000.0)
  {
    var l := Run(Start(true, now, establishmentMs), es).link;
    SameRequest(Start(true, now, establishmentMs), es);
    SameSide(Start(true, now, establishmentMs), es);
    NoteOut(l, t);
    ActivateIs(l, t, Elapsed(l, t));
  }

  /** In every run the initiator's report activates the owner's link unless it is
      closed, with the larger of its own measurement and the reported time. */
  lemma ReportActivates(now: real, establishmentMs: real, es: seq<Timed>, t: real, reported: real)
    requires establishmentMs >= 0.0 && Runs(Start(false, now, establishmentMs), es)
    requires Run(Start(false, now, establishmentMs), es).link.status != Closed
    ensures var s := Step(Run(Start(false, now, establishmentMs), es), Timed(t, RttReport(reported)));
      JustActive(s.link, t, Max((t - now) / 1000.0, reported))
  {
    var l := Run(Start(false, now, establishmentMs), es).link;
    SameRequest(Start(false, now, establishmentMs), es);
    SameSide(Start(false, now, establishmentMs), es);
    NoteOut(l, t);
    NoteKeepsRequest(l, t);
    ActivateIs(NoteInbound(l, t), t, Max(Elapsed(NoteInbound(l, t), t), reported));
  }

  lemma NoteKeepsRequest(l: Link, t: real)
    ensures NoteInbound(l, t).requestTime == l.requestTime && NoteInbound(l, t).initiator == l.initiator
  {
  }

  lemma {:induction false} SameSide(s: System, es: seq<Timed>)
    ensures Run(s, es).link.initiator == s.link.initiator
    decreases |es|
  {
    if es != [] { SameSide(Step(s, es[0]), es[1..]); }
  }

  // ----- requests -----

  /** In every run a request waits on an active link and is settled at once on any
      other; and the answer to what waits settles it. */
  lemma PromiseKept(initiator: bool, now: real, establishmentMs: real, es: seq<Timed>, t: real, id: nat)
    requires establishmentMs >= 0.0 && Runs(Start(initiator, now, establishmentMs), es)
    ensures var s := Run(Start(initiator, now, establishmentMs), es);
      && (Enabled(s, Timed(t, Request(id))) ==> var l := Step(s, Timed(t, Request(id))).link;
            if s.link.status == Active then id in l.requests && id !in l.settled else id in l.settled && id !in l.requests)
      && (id in s.issued ==> id in Step(s, Timed(t, Answer(id))).link.settled)
  {
    var s := Run(Start(initiator, now, establishmentMs), es);
    StartInv(initiator, now, establishmentMs);
    RunInv(Start(initiator, now, establishmentMs), es);
    if id in s.issued { PromisesAreSettled(initiator, now, establishmentMs, es, id); } else { NotIssued(s, id); }
  }

  lemma NotIssued(s: System, id: nat)
    requires LedgerOk(s) && id !in s.issued
    ensures id !in s.link.requests && id !in s.link.resources && id !in s.link.settled
  {
    assert multiset(s.issued)[id] == 0;
    assert (multiset(s.link.requests) + multiset(s.link.resources) + multiset(s.link.settled))[id] == 0;
  }

  // ----- closing -----

  /** close() closes any link, for that reason, and the peer's notice closes any link that
      has a key to read it. */
  lemma ClosesAll(l: Link, now: real)
    ensures Moved(l, Timed(now, LocalClose)).status == Closed
    ensures l.status != Closed ==> Moved(l, Timed(now, LocalClose)).reason == LocallyClosed
    ensures l.status != Pending ==> Moved(l, Timed(now, CloseNoticed)).status == Closed
    ensures l.status == Pending || l.status == Closed ==> Moved(l, Timed(now, CloseNoticed)) == l
  {
  }
}
