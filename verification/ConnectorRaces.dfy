/** Whole runs of `ConnectingTcp`: what every poll keeps, and what every ending means. */
module ConnectorRaces {
  import opened Wrappers
  import opened Dns
  import opened Connector
  import opened ConnectorLanes

  /** The two address lists of a run, as `ConnectingTcp::new` forms them. */
  datatype Race = Race(one: Lane, two: Lane, first: IpAddrs, second: IpAddrs)

  function RaceOf(answer: IpAddrs, timeout: Option<Delay>): Race {
    if timeout.None? then Race(All, Nobody, answer, [])
    else
      var v6 := PrefersIpv6(answer);
      Race(Family(v6), Family(!v6), OfFamily(answer, v6), OfFamily(answer, !v6))
  }

  /** The second list is out of the race: its remote failed, or the timer broke before any of
      it was tried. */
  predicate Closed(race: Race, log: Log) {
    || Lost(race.second, Lens(log, race.two))
    || (TimerBroken in log && Attempted(Lens(log, race.two)) == [])
  }

  predicate SecondUntried(race: Race, log: Log) {
    race.second != [] && Attempted(Lens(log, race.two)) == [] == RefusedBy(Lens(log, race.two))
  }

  /** A fallback attempt exists only once the delay has elapsed. */
  predicate Gated(f: Fallback, race: Race, log: Log) {
    if f.remote.current.Some? then f.delay.stalls == 0 && !f.delay.breaks
    else Attempted(Lens(log, race.two)) == []
  }

  /** The invariant of every state in which the caller may poll again. */
  predicate Racing(net: Network, c: Tcp, race: Race, w: World) {
    && Disjoint(race.one, race.two) && Within(race.first, race.one) && Within(race.second, race.two)
    && (TimerBroken in w.log ==> c.fallback.None? && SecondUntried(race, w.log)
                                 && Running(net, c.preferred, race.first, w.calls, Lens(w.log, race.one)))
    && match c.fallback
       case Some(f) =>
         && Running(net, c.preferred, race.first, w.calls, Lens(w.log, race.one))
         && Running(net, f.remote, race.second, w.calls, Lens(w.log, race.two))
         && Gated(f, race, w.log)
       case None =>
         || (Closed(race, w.log) && Running(net, c.preferred, race.first, w.calls, Lens(w.log, race.one)))
         || (Lost(race.first, Lens(w.log, race.one)) && Running(net, c.preferred, race.second, w.calls, Lens(w.log, race.two)))
  }

  /** Each list is tried from its front, each position at most once. */
  predicate InOrder(race: Race, log: Log) {
    Attempted(Lens(log, race.one)) <= race.first && Attempted(Lens(log, race.two)) <= race.second
  }

  /** What one poll leaves behind.  `Failed` says that both lists are spent. */
  predicate TcpAfter(net: Network, p: TcpPolled, race: Race) {
    var log := p.world.log;
    InOrder(race, log) &&
    match p.result
    case NotReady => Racing(net, p.tcp, race, p.world)
    case Ready(s) => Won(race.first, s, Lens(log, race.one)) || Won(race.second, s, Lens(log, race.two))
    case Failed(_) =>
      && Lost(race.first, Lens(log, race.one)) && Closed(race, log)
      && (TimerBroken in log ==> SecondUntried(race, log))
    case Panicked => false
  }

  // --------------------------------------------------------------------- one remote's poll

  lemma AddressesInLane(net: Network, r: Remote, plan: IpAddrs, calls: nat, log: Log, lane: Lane)
    requires Running(net, r, plan, calls, log) && Within(plan, lane)
    ensures Within(r.addrs, lane) && (r.current.Some? ==> lane.Has(r.current.value.addr))
  {
    forall a | a in r.addrs ensures a in plan {
      assert a in Attempted(log) + r.addrs;
    }
    if r.current.Some? { Answers(net, r.current.value, r.addrs, plan, calls, log); }
  }

  /** All that a poll of one list establishes, for that list and for the other. */
  lemma PollOne(net: Network, r: Remote, w: World, plan: IpAddrs, lane: Lane, other: Lane)
    requires Running(net, r, plan, w.calls, Lens(w.log, lane)) && Within(plan, lane) && Disjoint(lane, other)
    ensures var p := PollRemote(net, r, w);
            && LaneAfter(net, p, plan, Lens(p.world.log, lane))
            && Extends(w.log, p.world.log, lane)
            && w.calls <= p.world.calls
            && p.world.calls + |p.remote.addrs| == w.calls + |r.addrs|
            && Lens(p.world.log, other) == Lens(w.log, other)
  {
    AddressesInLane(net, r, plan, w.calls, Lens(w.log, lane), lane);
    PollKeepsLane(net, r, w, plan, lane);
    PollExtends(net, r, w, lane);
    OtherLaneUntouched(w.log, PollRemote(net, r, w).world.log, lane, other);
  }

  lemma TimerEvents(w: World, e: Event, race: Race)
    requires e.IsTimer()
    ensures Lens(w.Note(e).log, race.one) == Lens(w.log, race.one)
    ensures Lens(w.Note(e).log, race.two) == Lens(w.log, race.two)
  {
    AppendLens(w.log, e, race.one);
    AppendLens(w.log, e, race.two);
  }

  /** A world in which only the fallback timer was polled. */
  function TimerPolled(f: Fallback, w: World): World {
    w.Note(if f.delay.stalls > 0 then TimerWaiting else if f.delay.breaks then TimerBroken else TimerFired)
  }

  // ---------------------------------------------------------------------- the invariant holds

  /** Both lists are made of addresses of the answer, each of its own family. */
  lemma RaceMembers(answer: IpAddrs, timeout: Option<Delay>)
    ensures var race := RaceOf(answer, timeout);
            && Within(race.first, race.one) && Within(race.second, race.two)
            && (forall a :: a in race.first || a in race.second ==> a in answer)
  {
    MembersOfFamily(answer, PrefersIpv6(answer));
    MembersOfFamily(answer, !PrefersIpv6(answer));
  }

  lemma StartsRacing(net: Network, answer: IpAddrs, timeout: Option<Delay>)
    requires answer != []
    ensures Racing(net, NewTcp(answer, timeout), RaceOf(answer, timeout), START)
  {
    SplitEmptiness(answer);
    RaceMembers(answer, timeout);
  }

  /** What `PollFallback` may assume. */
  predicate BothRunning(net: Network, preferred: Remote, f: Fallback, race: Race, w: World) {
    && Disjoint(race.one, race.two) && Within(race.first, race.one) && Within(race.second, race.two)
    && Running(net, preferred, race.first, w.calls, Lens(w.log, race.one))
    && Running(net, f.remote, race.second, w.calls, Lens(w.log, race.two))
    && Gated(f, race, w.log) && TimerBroken !in w.log
  }

  lemma FallbackDue(net: Network, preferred: Remote, f: Fallback, race: Race, w: World)
    requires BothRunning(net, preferred, f, race, w) && f.delay.stalls == 0 && !f.delay.breaks
    ensures TcpAfter(net, PollFallback(net, preferred, f, w), race)
  {
    var w1 := w.Note(TimerFired);
    TimerEvents(w, TimerFired, race);
    PollOne(net, f.remote, w1, race.second, race.two, race.one);
    NoTimerEvents(w1.log, PollRemote(net, f.remote, w1).world.log, race.two);
  }

  lemma FallbackNotDue(net: Network, preferred: Remote, f: Fallback, race: Race, w: World)
    requires BothRunning(net, preferred, f, race, w) && (f.delay.stalls > 0 || f.delay.breaks)
    ensures TcpAfter(net, PollFallback(net, preferred, f, w), race)
  {
    TimerEvents(w, TimerWaiting, race);
    TimerEvents(w, TimerBroken, race);
    assert w.Note(TimerBroken).log[|w.log|] == TimerBroken;
  }

  /** The events a list adds are never the timer's. */
  lemma NoTimerEvents(log: Log, log': Log, lane: Lane)
    requires Extends(log, log', lane)
    ensures TimerBroken in log' <==> TimerBroken in log
  {
    if TimerBroken in log' {
      var i :| 0 <= i < |log'| && log'[i] == TimerBroken;
      assert i < |log| ==> log[i] == log'[i];
    }
  }

  lemma PollFirstAlone(net: Network, c: Tcp, race: Race, w: World)
    requires Racing(net, c, race, w) && c.fallback.None?
    requires Closed(race, w.log) && Running(net, c.preferred, race.first, w.calls, Lens(w.log, race.one))
    ensures TcpAfter(net, PollTcp(net, c, w), race)
  {
    PollOne(net, c.preferred, w, race.first, race.one, race.two);
    NoTimerEvents(w.log, PollRemote(net, c.preferred, w).world.log, race.one);
  }

  lemma PollSecondAlone(net: Network, c: Tcp, race: Race, w: World)
    requires Racing(net, c, race, w) && c.fallback.None? && TimerBroken !in w.log
    requires Lost(race.first, Lens(w.log, race.one)) && Running(net, c.preferred, race.second, w.calls, Lens(w.log, race.two))
    ensures TcpAfter(net, PollTcp(net, c, w), race)
  {
    PollOne(net, c.preferred, w, race.second, race.two, race.one);
    NoTimerEvents(w.log, PollRemote(net, c.preferred, w).world.log, race.two);
  }

  lemma PollBoth(net: Network, c: Tcp, race: Race, w: World)
    requires Racing(net, c, race, w) && c.fallback.Some?
    ensures TcpAfter(net, PollTcp(net, c, w), race)
  {
    var f := c.fallback.value;
    var p := PollRemote(net, c.preferred, w);
    PollOne(net, c.preferred, w, race.first, race.one, race.two);
    NoTimerEvents(w.log, p.world.log, race.one);
    if p.result.NotReady? {
      if f.delay.stalls == 0 && !f.delay.breaks {
        FallbackDue(net, p.remote, f, race, p.world);
      } else {
        FallbackNotDue(net, p.remote, f, race, p.world);
      }
    } else if p.result.Failed? {
      var promoted := Tcp(f.remote, None);
      assert PollTcp(net, promoted, p.world).result == PollTcp(net, c, w).result;
      PollSecondAlone(net, promoted, race, p.world);
    }
  }

  lemma PollTcpKeepsRacing(net: Network, c: Tcp, race: Race, w: World)
    requires Racing(net, c, race, w)
    ensures TcpAfter(net, PollTcp(net, c, w), race)
  {
    if c.fallback.Some? {
      PollBoth(net, c, race, w);
    } else if Closed(race, w.log) && Running(net, c.preferred, race.first, w.calls, Lens(w.log, race.one)) {
      PollFirstAlone(net, c, race, w);
    } else {
      PollSecondAlone(net, c, race, w);
    }
  }

  lemma {:induction false} RunKeepsRacing(net: Network, c: Tcp, race: Race, w: World, n: nat)
    requires Racing(net, c, race, w)
    ensures TcpAfter(net, RunTcp(net, c, w, n), race)
    decreases n
  {
    if n == 0 {
    } else {
      PollTcpKeepsRacing(net, c, race, w);
      var p := PollTcp(net, c, w);
      if p.result.NotReady? { RunKeepsRacing(net, p.tcp, race, p.world, n - 1); }
    }
  }
}
