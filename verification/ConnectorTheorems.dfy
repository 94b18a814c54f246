/** The promises of the happy-eyeballs race, for every run: any DNS answer, any network, any
    timer, any number of polls. */
module ConnectorTheorems {
  import opened Wrappers
  import opened Dns
  import opened Connector
  import opened ConnectorLanes
  import opened ConnectorRaces

  function Run(net: Network, answer: IpAddrs, timeout: Option<Delay>, n: nat): TcpPolled {
    RunTcp(net, NewTcp(answer, timeout), START, n)
  }

  // ------------------------------------------------------------- conservation of addresses

  /** What one remote still has to try, its open attempt included. */
  function Outstanding(r: Remote): IpAddrs {
    if r.current.Some? then [r.current.value.addr] + r.addrs else r.addrs
  }

  /** In every state a caller can poll again, each list still held is the refused addresses,
      then at most one open attempt, then the addresses not yet tried. */
  lemma ConservationOfAddresses(net: Network, answer: IpAddrs, timeout: Option<Delay>, n: nat)
    requires answer != [] && Run(net, answer, timeout, n).result.NotReady?
    ensures var p := Run(net, answer, timeout, n);
            var race := RaceOf(answer, timeout);
            var one, two := Lens(p.world.log, race.one), Lens(p.world.log, race.two);
            if p.tcp.fallback.Some? then
              && RefusedBy(one) + Outstanding(p.tcp.preferred) == race.first
              && RefusedBy(two) + Outstanding(p.tcp.fallback.value.remote) == race.second
            else
              || (RefusedBy(one) + Outstanding(p.tcp.preferred) == race.first && Closed(race, p.world.log))
              || (RefusedBy(two) + Outstanding(p.tcp.preferred) == race.second && Lost(race.first, one))
  {
    StartsRacing(net, answer, timeout);
    RunKeepsRacing(net, NewTcp(answer, timeout), RaceOf(answer, timeout), START, n);
    var p := Run(net, answer, timeout, n);
    var race := RaceOf(answer, timeout);
    var one, two := Lens(p.world.log, race.one), Lens(p.world.log, race.two);
    if p.tcp.fallback.Some? {
      RunningConserves(net, p.tcp.preferred, race.first, p.world.calls, one);
      RunningConserves(net, p.tcp.fallback.value.remote, race.second, p.world.calls, two);
    } else if Closed(race, p.world.log) && Running(net, p.tcp.preferred, race.first, p.world.calls, one) {
      RunningConserves(net, p.tcp.preferred, race.first, p.world.calls, one);
    } else {
      RunningConserves(net, p.tcp.preferred, race.second, p.world.calls, two);
    }
  }

  /** In every run whatsoever, finished or not, the addresses dialed in each list are a prefix of
      that list: in the order of the answer, each position at most once. */
  lemma AttemptsFollowTheAnswer(net: Network, answer: IpAddrs, timeout: Option<Delay>, n: nat)
    requires answer != []
    ensures InOrder(RaceOf(answer, timeout), Run(net, answer, timeout, n).world.log)
  {
    StartsRacing(net, answer, timeout);
    RunKeepsRacing(net, NewTcp(answer, timeout), RaceOf(answer, timeout), START, n);
  }

  lemma RunningConserves(net: Network, r: Remote, plan: IpAddrs, calls: nat, log: Log)
    requires Running(net, r, plan, calls, log)
    ensures RefusedBy(log) + Outstanding(r) == plan
  {
    if r.current.Some? {
      assert RefusedBy(log) + ([r.current.value.addr] + r.addrs) == (RefusedBy(log) + [r.current.value.addr]) + r.addrs;
    }
  }

  // ---------------------------------------------------------------------------- the endings

  /** Polling panics in no run with a non-empty answer, whatever fails, and in every run with an
      empty one: an empty answer is exactly what reaches the `expect` of line 335. */
  lemma PanicsExactlyOnEmptyAnswer(net: Network, answer: IpAddrs, timeout: Option<Delay>, n: nat)
    requires n > 0
    ensures Run(net, answer, timeout, n).result.Panicked? <==> answer == []
  {
    if answer != [] {
      StartsRacing(net, answer, timeout);
      RunKeepsRacing(net, NewTcp(answer, timeout), RaceOf(answer, timeout), START, n);
    }
  }

  /** An error means that both lists are spent: each was refused to its last address, or
      stopped at an address whose socket could not be set up; the second list may instead have
      been dropped untried because the timer itself broke. */
  lemma FailureSpendsBothLists(net: Network, answer: IpAddrs, timeout: Option<Delay>, n: nat)
    requires answer != [] && Run(net, answer, timeout, n).result.Failed?
    ensures var log := Run(net, answer, timeout, n).world.log;
            var race := RaceOf(answer, timeout);
            Lost(race.first, Lens(log, race.one)) && Closed(race, log)
  {
    StartsRacing(net, answer, timeout);
    RunKeepsRacing(net, NewTcp(answer, timeout), RaceOf(answer, timeout), START, n);
  }

  /** Some call of `connect` failed on the spot. */
  predicate AnySetupFailed(log: Log) {
    log != [] && (log[|log| - 1].SetupFailed? || AnySetupFailed(log[..|log| - 1]))
  }

  /** A failed set-up shows in the part of the log of one list or the other. */
  lemma {:induction false} SetupFailuresShow(log: Log, one: Lane, two: Lane)
    requires forall a :: one.Has(a) || two.Has(a)
    ensures AnySetupFailed(log) <==> NotSetUp(Lens(log, one)) != [] || NotSetUp(Lens(log, two)) != []
  {
    if log == [] {
    } else {
      var before, e := log[..|log| - 1], log[|log| - 1];
      SetupFailuresShow(before, one, two);
      Append(Lens(before, one), e);
      Append(Lens(before, two), e);
    }
  }

  /** Exhaustive failure: those two are the only exceptions.  In a failing run, all addresses of
      both families were tried in order and refused if and only if no socket failed to be set up
      and the timer did not break. */
  lemma ExhaustiveFailure(net: Network, answer: IpAddrs, timeout: Option<Delay>, n: nat)
    requires answer != [] && Run(net, answer, timeout, n).result.Failed?
    ensures var log := Run(net, answer, timeout, n).world.log;
            var race := RaceOf(answer, timeout);
            var one, two := RefusedBy(Lens(log, race.one)), RefusedBy(Lens(log, race.two));
            && (one == race.first && two == race.second <==> !AnySetupFailed(log) && TimerBroken !in log)
            && (!AnySetupFailed(log) && TimerBroken !in log ==> multiset(one) + multiset(two) == multiset(answer))
  {
    StartsRacing(net, answer, timeout);
    var race := RaceOf(answer, timeout);
    RunKeepsRacing(net, NewTcp(answer, timeout), race, START, n);
    SetupFailuresShow(Run(net, answer, timeout, n).world.log, race.one, race.two);
    SplitConserves(answer, PrefersIpv6(answer));
  }

  /** The preferred address keeps the race waiting once and then refuses; any other would accept. */
  function FirstStallsThenRefuses(call: nat): Script {
    if call == 0 then Handshake(1, Refuses(IoError(111))) else Handshake(0, Accepts)
  }

  lemma SplitOfTwo(a: SocketAddr, b: SocketAddr)
    requires a.IsIpv6() != b.IsIpv6()
    ensures SplitByPreference([a, b]) == ([a], [b])
  {
    assert [a, b][1..] == [b] && [b][1..] == [];
    assert OfFamily([b], a.IsIpv6()) == [] && OfFamily([b], !a.IsIpv6()) == [b];
    assert OfFamily([a, b], a.IsIpv6()) == [a] + OfFamily([b], a.IsIpv6());
    assert OfFamily([a, b], !a.IsIpv6()) == OfFamily([b], !a.IsIpv6());
    assert [a] + [] == [a];
  }

  /** The first poll of its remote dials it and finds it unready. */
  lemma DialStalls(net: Network, a: SocketAddr)
    requires net(0) == Handshake(1, Refuses(IoError(111)))
    ensures var open := Attempt(0, a, 0, Refuses(IoError(111)), false);
            PollRemote(net, Remote([a], None), START) ==
            RemotePolled(Remote([], Some(open)), World(1, [Dialed(0, a), Waiting(0, a)]), NotReady)
  {
    var dialed := Attempt(0, a, 1, Refuses(IoError(111)), false);
    var w := START.Note(Dialed(0, a)).Count();
    assert [a][1..] == [] && w == World(1, [Dialed(0, a)]);
    assert w.Note(Waiting(0, a)).log == [Dialed(0, a), Waiting(0, a)];
    assert PollRemote(net, Remote([a], None), START) == DialNext(net, Remote([a], None), START)
        == PollRemote(net, Remote([], Some(dialed)), w);
  }

  /** Both exceptions are real.  Here the timer breaks, the fallback is dropped and never dialed,
      though it would have accepted.  (`SetupFailureAbandonsTheRest` is a run with the other.) */
  lemma BrokenTimerDropsTheFallback(a: SocketAddr, b: SocketAddr)
    requires a.IsIpv6() != b.IsIpv6()
    ensures var p := Run(FirstStallsThenRefuses, [a, b], Some(Delay(0, true)), 2);
            && p.result == Failed(IoError(111)) && TimerBroken in p.world.log
            && Attempted(p.world.log) == [a] && FirstStallsThenRefuses(1) == Handshake(0, Accepts)
  {
    var net, timeout := FirstStallsThenRefuses, Some(Delay(0, true));
    assert net(0) == Handshake(1, Refuses(IoError(111)));
    var c := NewTcp([a, b], timeout);
    SplitOfTwo(a, b);
    var one := PollTcp(net, c, START);
    var log := [Dialed(0, a), Waiting(0, a), TimerBroken];
    var open := Attempt(0, a, 0, Refuses(IoError(111)), false);
    assert one == TcpPolled(Tcp(Remote([], Some(open)), None), World(1, log), NotReady) by { DialStalls(net, a); }
    var two := PollTcp(net, one.tcp, one.world);
    assert two.world.log == log + [Refused(0, a, IoError(111))] && two.result == Failed(IoError(111));
    assert RunTcp(net, c, START, 2) == RunTcp(net, one.tcp, one.world, 1) == two;
    Append([], Dialed(0, a));
    Append([Dialed(0, a)], Waiting(0, a));
    Append([Dialed(0, a), Waiting(0, a)], TimerBroken);
    Append(log, Refused(0, a, IoError(111)));
    assert [] + [Dialed(0, a)] == [Dialed(0, a)];
    assert [Dialed(0, a)] + [Waiting(0, a)] == [Dialed(0, a), Waiting(0, a)];
    assert [Dialed(0, a), Waiting(0, a)] + [TimerBroken] == log;
    assert log[2] == TimerBroken && two.world.log[2] == TimerBroken;
  }

  /** A stream belongs to an address of the answer, and everything before it in its list was
      tried and refused. */
  lemma WinnerIsFirstOfItsList(net: Network, answer: IpAddrs, timeout: Option<Delay>, n: nat)
    requires answer != [] && Run(net, answer, timeout, n).result.Ready?
    ensures var p := Run(net, answer, timeout, n);
            var s := p.result.stream;
            var race := RaceOf(answer, timeout);
            && s.addr in answer
            && (|| RefusedBy(Lens(p.world.log, race.one)) + [s.addr] <= race.first
                || RefusedBy(Lens(p.world.log, race.two)) + [s.addr] <= race.second)
  {
    StartsRacing(net, answer, timeout);
    var race := RaceOf(answer, timeout);
    RunKeepsRacing(net, NewTcp(answer, timeout), race, START, n);
    var p := Run(net, answer, timeout, n);
    var s := p.result.stream;
    RaceMembers(answer, timeout);
    if Won(race.first, s, Lens(p.world.log, race.one)) {
      assert race.first[|RefusedBy(Lens(p.world.log, race.one))|] == s.addr;
      assert s.addr in race.first;
    } else {
      assert race.second[|RefusedBy(Lens(p.world.log, race.two))|] == s.addr;
      assert s.addr in race.second;
    }
  }

  // ----------------------------------------------------------------- the preferred list first

  predicate DialOf(e: Event, lane: Lane) {
    (e.Dialed? || e.SetupFailed?) && lane.Has(e.addr)
  }

  /** What must precede an attempt at the second list. */
  predicate MayFallBack(race: Race, before: Log) {
    TimerFired in before || Lost(race.first, Lens(before, race.one))
  }

  predicate FallsBackInTime(race: Race, log: Log) {
    forall i :: 0 <= i < |log| && DialOf(log[i], race.two) ==> MayFallBack(race, log[..i])
  }

  lemma ExtendInTime(race: Race, log: Log, log': Log, lane: Lane)
    requires FallsBackInTime(race, log) && Extends(log, log', lane)
    requires lane == race.one || (lane == race.two && MayFallBack(race, log))
    requires Disjoint(race.one, race.two)
    ensures FallsBackInTime(race, log')
  {
    forall i | 0 <= i < |log'| && DialOf(log'[i], race.two) ensures MayFallBack(race, log'[..i]) {
      if i < |log| {
        assert log'[..i] == log[..i];
      } else {
        assert About(log'[i], lane);
        assert Extends(log, log'[..i], lane);
        OtherLaneUntouched(log, log'[..i], lane, race.one);
      }
    }
  }

  lemma PollFallbackInTime(net: Network, preferred: Remote, f: Fallback, race: Race, w: World)
    requires Disjoint(race.one, race.two) && Within(race.second, race.two)
    requires Running(net, f.remote, race.second, w.calls, Lens(w.log, race.two))
    requires FallsBackInTime(race, w.log)
    ensures FallsBackInTime(race, PollFallback(net, preferred, f, w).world.log)
  {
    var w1 := TimerPolled(f, w);
    TimerEvents(w, w1.log[|w.log|], race);
    assert FallsBackInTime(race, w1.log) by {
      forall i | 0 <= i < |w1.log| && DialOf(w1.log[i], race.two) ensures MayFallBack(race, w1.log[..i]) {
        assert w1.log[..i] == w.log[..i];
      }
    }
    if f.delay.stalls == 0 && !f.delay.breaks {
      assert w1.log[|w.log|] == TimerFired;
      PollOne(net, f.remote, w1, race.second, race.two, race.one);
      ExtendInTime(race, w1.log, PollRemote(net, f.remote, w1).world.log, race.two);
    }
  }

  lemma PollTcpInTime(net: Network, c: Tcp, race: Race, w: World)
    requires Racing(net, c, race, w) && FallsBackInTime(race, w.log)
    ensures FallsBackInTime(race, PollTcp(net, c, w).world.log)
  {
    var p := PollRemote(net, c.preferred, w);
    if c.fallback.Some? || (Closed(race, w.log) && Running(net, c.preferred, race.first, w.calls, Lens(w.log, race.one))) {
      PollOne(net, c.preferred, w, race.first, race.one, race.two);
      ExtendInTime(race, w.log, p.world.log, race.one);
      if c.fallback.Some? && p.result.NotReady? {
        PollFallbackInTime(net, p.remote, c.fallback.value, race, p.world);
      } else if c.fallback.Some? && p.result.Failed? {
        var q := PollRemote(net, c.fallback.value.remote, p.world);
        PollOne(net, c.fallback.value.remote, p.world, race.second, race.two, race.one);
        ExtendInTime(race, p.world.log, q.world.log, race.two);
      }
    } else {
      PollOne(net, c.preferred, w, race.second, race.two, race.one);
      ExtendInTime(race, w.log, p.world.log, race.two);
    }
  }

  lemma {:induction false} RunInTime(net: Network, c: Tcp, race: Race, w: World, n: nat)
    requires Racing(net, c, race, w) && FallsBackInTime(race, w.log)
    ensures FallsBackInTime(race, RunTcp(net, c, w, n).world.log)
    decreases n
  {
    if n == 0 {
    } else {
      PollTcpKeepsRacing(net, c, race, w);
      PollTcpInTime(net, c, race, w);
      var p := PollTcp(net, c, w);
      if p.result.NotReady? { RunInTime(net, p.tcp, race, p.world, n - 1); }
    }
  }

  /** No address of the second list is dialed before the delay has elapsed, unless the first
      list had already been given up. */
  lemma NoEarlyFallback(net: Network, answer: IpAddrs, timeout: Option<Delay>, n: nat)
    requires answer != []
    ensures FallsBackInTime(RaceOf(answer, timeout), Run(net, answer, timeout, n).world.log)
  {
    StartsRacing(net, answer, timeout);
    RunInTime(net, NewTcp(answer, timeout), RaceOf(answer, timeout), START, n);
  }

  // ------------------------------------------------------------------------ no lost wakeups

  predicate IsWaiting(r: Remote, news: Log) {
    r.current.Some? && Waiting(r.current.value.call, r.current.value.addr) in news
  }

  /** Every future still held was polled, and found unready, among the events `news`. */
  predicate WakeupsRegistered(c: Tcp, news: Log) {
    && IsWaiting(c.preferred, news)
    && (c.fallback.Some? ==>
          if c.fallback.value.remote.current.Some? then IsWaiting(c.fallback.value.remote, news)
          else TimerWaiting in news)
  }

  /** One unready poll of a remote leaves its attempt registered. */
  lemma PollRegisters(net: Network, r: Remote, w: World, plan: IpAddrs, lane: Lane, from: nat)
    requires Running(net, r, plan, w.calls, Lens(w.log, lane)) && Within(plan, lane)
    requires from <= |w.log| && PollRemote(net, r, w).result.NotReady?
    ensures var p := PollRemote(net, r, w);
            |w.log| <= |p.world.log| && w.log <= p.world.log && IsWaiting(p.remote, p.world.log[from..])
  {
    AddressesInLane(net, r, plan, w.calls, Lens(w.log, lane), lane);
    PollExtends(net, r, w, lane);
    var log := PollRemote(net, r, w).world.log;
    assert log[from..][|log| - 1 - from] == log[|log| - 1];
  }

  /** No lost wakeup: whenever a poll returns NotReady, every attempt still held, of which there
      is at least one, was itself polled unready in that very call; and a fallback held without
      an attempt is held because the timer was. */
  lemma NoLostWakeup(net: Network, answer: IpAddrs, timeout: Option<Delay>, n: nat)
    requires answer != [] && Run(net, answer, timeout, n).result.NotReady?
    ensures var s := Run(net, answer, timeout, n);
            var p := PollTcp(net, s.tcp, s.world);
            p.result.NotReady? ==>
              s.world.log <= p.world.log && WakeupsRegistered(p.tcp, p.world.log[|s.world.log|..])
  {
    StartsRacing(net, answer, timeout);
    var race := RaceOf(answer, timeout);
    RunKeepsRacing(net, NewTcp(answer, timeout), race, START, n);
    var s := Run(net, answer, timeout, n);
    if PollTcp(net, s.tcp, s.world).result.NotReady? {
      PollTcpRegisters(net, s.tcp, race, s.world);
    }
  }

  lemma PollTcpRegisters(net: Network, c: Tcp, race: Race, w: World)
    requires Racing(net, c, race, w) && PollTcp(net, c, w).result.NotReady?
    ensures var p := PollTcp(net, c, w);
            w.log <= p.world.log && WakeupsRegistered(p.tcp, p.world.log[|w.log|..])
  {
    var p := PollRemote(net, c.preferred, w);
    match c.fallback
    case None =>
      if Closed(race, w.log) && Running(net, c.preferred, race.first, w.calls, Lens(w.log, race.one)) {
        PollRegisters(net, c.preferred, w, race.first, race.one, |w.log|);
      } else {
        PollRegisters(net, c.preferred, w, race.second, race.two, |w.log|);
      }
    case Some(f) =>
      PollOne(net, c.preferred, w, race.first, race.one, race.two);
      if p.result.Failed? {
        PollRegisters(net, f.remote, p.world, race.second, race.two, |w.log|);
      } else {
        PollRegisters(net, c.preferred, w, race.first, race.one, |w.log|);
        PollFallbackRegisters(net, p.remote, f, race, p.world, |w.log|);
      }
  }

  lemma PollFallbackRegisters(net: Network, preferred: Remote, f: Fallback, race: Race, w: World, from: nat)
    requires Disjoint(race.one, race.two) && Within(race.second, race.two)
    requires Running(net, f.remote, race.second, w.calls, Lens(w.log, race.two)) && Gated(f, race, w.log)
    requires from <= |w.log| && IsWaiting(preferred, w.log[from..])
    requires PollFallback(net, preferred, f, w).result.NotReady?
    ensures var p := PollFallback(net, preferred, f, w);
            w.log <= p.world.log && WakeupsRegistered(p.tcp, p.world.log[from..])
  {
    var w1 := TimerPolled(f, w);
    TimerEvents(w, w1.log[|w.log|], race);
    assert w1.log[from..] == w.log[from..] + [w1.log[|w.log|]];
    if f.delay.stalls > 0 {
      assert TimerWaiting in w1.log[from..];
    } else if !f.delay.breaks {
      var q := PollRemote(net, f.remote, w1);
      PollOne(net, f.remote, w1, race.second, race.two, race.one);
      assert w1.log[from..] <= q.world.log[from..];
      if q.result.NotReady? { PollRegisters(net, f.remote, w1, race.second, race.two, from); }
    }
  }
}
