/** The order and the timing of the race: who is dialed first, when the fallback starts, who wins
    a tie, and what is kept at the end. */
module ConnectorClock {
  import opened Wrappers
  import opened Dns
  import opened Connector
  import opened ConnectorLanes
  import opened ConnectorRaces
  import opened ConnectorTheorems

  // ------------------------------------------------------------------ the fallback's clock

  function SecondTried(race: Race, log: Log): IpAddrs { Attempted(Lens(log, race.two)) }

  predicate FirstLost(race: Race, log: Log) { Lost(race.first, Lens(log, race.one)) }

  predicate Due(d: Delay, k: nat) { k > d.stalls && !d.breaks }

  /** After `k` polls of a race whose timer was `d`: the fallback waits until the timer is due, and
      has been tried since. */
  predicate OnTime(c: Tcp, race: Race, d: Delay, k: nat, log: Log) {
    match c.fallback
    case Some(f) =>
      if f.remote.current.None? then k <= d.stalls && f.delay == Delay(d.stalls - k, d.breaks) && SecondTried(race, log) == []
      else Due(d, k) && SecondTried(race, log) != []
    case None =>
      || race.second == []
      || (if FirstLost(race, log) then SecondTried(race, log) != []
          else k > d.stalls && (SecondTried(race, log) != [] <==> !d.breaks))
  }

  /** What holds after any poll, and what holds when there can be another. */
  predicate Timely(p: TcpPolled, race: Race, d: Delay, k: nat) {
    var log := p.world.log;
    && (SecondTried(race, log) != [] ==> FirstLost(race, log) || Due(d, k))
    && (p.result.NotReady? ==> OnTime(p.tcp, race, d, k, log))
  }

  /** A list that is still running has not been lost. */
  lemma RunningIsNotLost(net: Network, r: Remote, plan: IpAddrs, calls: nat, log: Log)
    requires Running(net, r, plan, calls, log)
    ensures !Lost(plan, log)
    ensures r.current.Some? ==> Attempted(log) != []
  {}

  lemma LostWasTried(plan: IpAddrs, log: Log)
    requires Lost(plan, log) && plan != []
    ensures Attempted(log) != []
  {}

  lemma PollFirstIsTimely(net: Network, c: Tcp, race: Race, w: World, d: Delay, k: nat)
    requires Racing(net, c, race, w) && OnTime(c, race, d, k, w.log) && c.fallback.None?
    requires Running(net, c.preferred, race.first, w.calls, Lens(w.log, race.one)) && Closed(race, w.log)
    ensures Timely(PollTcp(net, c, w), race, d, k + 1)
  {
    var p := PollRemote(net, c.preferred, w);
    PollOne(net, c.preferred, w, race.first, race.one, race.two);
    RunningIsNotLost(net, c.preferred, race.first, w.calls, Lens(w.log, race.one));
    PollTcpKeepsRacing(net, c, race, w);
    if p.result.NotReady? {
      RunningIsNotLost(net, p.remote, race.first, p.world.calls, Lens(p.world.log, race.one));
    }
  }

  lemma PollSecondIsTimely(net: Network, c: Tcp, race: Race, w: World, d: Delay, k: nat)
    requires Racing(net, c, race, w) && c.fallback.None? && FirstLost(race, w.log)
    requires Running(net, c.preferred, race.second, w.calls, Lens(w.log, race.two))
    ensures Timely(PollTcp(net, c, w), race, d, k + 1)
  {
    var p := PollRemote(net, c.preferred, w);
    PollOne(net, c.preferred, w, race.second, race.two, race.one);
    if p.result.NotReady? {
      RunningIsNotLost(net, p.remote, race.second, p.world.calls, Lens(p.world.log, race.two));
    }
  }

  /** The arm in which the first list is unready. */
  lemma PollFallbackIsTimely(net: Network, preferred: Remote, f: Fallback, race: Race, w: World, d: Delay, k: nat)
    requires BothRunning(net, preferred, f, race, w) && OnTime(Tcp(preferred, Some(f)), race, d, k, w.log)
    ensures Timely(PollFallback(net, preferred, f, w), race, d, k + 1)
  {
    RunningIsNotLost(net, preferred, race.first, w.calls, Lens(w.log, race.one));
    TimerEvents(w, TimerWaiting, race);
    TimerEvents(w, TimerBroken, race);
    TimerEvents(w, TimerFired, race);
    if f.delay.stalls == 0 && !f.delay.breaks {
      var w1 := w.Note(TimerFired);
      var q := PollRemote(net, f.remote, w1);
      PollOne(net, f.remote, w1, race.second, race.two, race.one);
      if q.result.NotReady? {
        RunningIsNotLost(net, q.remote, race.second, q.world.calls, Lens(q.world.log, race.two));
      } else if q.result.Failed? && race.second != [] {
        LostWasTried(race.second, Lens(q.world.log, race.two));
      }
    }
  }

  lemma PollBothIsTimely(net: Network, c: Tcp, race: Race, w: World, d: Delay, k: nat)
    requires Racing(net, c, race, w) && OnTime(c, race, d, k, w.log) && c.fallback.Some?
    ensures Timely(PollTcp(net, c, w), race, d, k + 1)
  {
    var f := c.fallback.value;
    var p := PollRemote(net, c.preferred, w);
    PollOne(net, c.preferred, w, race.first, race.one, race.two);
    NoTimerEvents(w.log, p.world.log, race.one);
    if p.result.NotReady? {
      PollFallbackIsTimely(net, p.remote, f, race, p.world, d, k);
    } else if p.result.Failed? {
      PollSecondIsTimely(net, Tcp(f.remote, None), race, p.world, d, k);
    }
  }

  lemma PollIsTimely(net: Network, c: Tcp, race: Race, w: World, d: Delay, k: nat)
    requires Racing(net, c, race, w) && OnTime(c, race, d, k, w.log)
    ensures Timely(PollTcp(net, c, w), race, d, k + 1)
  {
    if c.fallback.Some? {
      PollBothIsTimely(net, c, race, w, d, k);
    } else if Closed(race, w.log) && Running(net, c.preferred, race.first, w.calls, Lens(w.log, race.one)) {
      PollFirstIsTimely(net, c, race, w, d, k);
    } else {
      PollSecondIsTimely(net, c, race, w, d, k);
    }
  }

  lemma {:induction false} RunIsTimely(net: Network, c: Tcp, race: Race, w: World, d: Delay, k: nat, n: nat)
    requires Racing(net, c, race, w) && OnTime(c, race, d, k, w.log)
    requires SecondTried(race, w.log) != [] ==> FirstLost(race, w.log) || Due(d, k)
    ensures Timely(RunTcp(net, c, w, n), race, d, k + n)
    decreases n
  {
    if n == 0 {
    } else {
      PollTcpKeepsRacing(net, c, race, w);
      PollIsTimely(net, c, race, w, d, k);
      var p := PollTcp(net, c, w);
      if p.result.NotReady? { RunIsTimely(net, p.tcp, race, p.world, d, k + 1, n - 1); }
    }
  }

  /** The fallback starts exactly on time.  In no run is it tried within the first `d.stalls` polls,
      unless the first list was lost; and after more polls than that (or once the first list is
      lost) every race that is still undecided has tried it.  A timer that breaks never starts it. */
  lemma FallbackStartsOnTime(net: Network, answer: IpAddrs, d: Delay, n: nat)
    requires answer != []
    ensures var p := Run(net, answer, Some(d), n);
            var race := RaceOf(answer, Some(d));
            var dialed := Attempted(Lens(p.world.log, race.two)) != [];
            var firstLost := Lost(race.first, Lens(p.world.log, race.one));
            && (dialed ==> firstLost || (n > d.stalls && !d.breaks))
            && (p.result.NotReady? && race.second != [] ==> (dialed <==> firstLost || (n > d.stalls && !d.breaks)))
  {
    StartsRacing(net, answer, Some(d));
    var race := RaceOf(answer, Some(d));
    RunIsTimely(net, NewTcp(answer, Some(d)), race, START, d, 0, n);
    RunKeepsRacing(net, NewTcp(answer, Some(d)), race, START, n);
    var p := Run(net, answer, Some(d), n);
    if p.result.NotReady? {
      StillRunning(net, p.tcp, race, p.world);
    }
  }

  /** While both lists are held, neither is lost. */
  lemma StillRunning(net: Network, c: Tcp, race: Race, w: World)
    requires Racing(net, c, race, w)
    ensures c.fallback.Some? ==> !FirstLost(race, w.log)
  {
    if c.fallback.Some? {
      RunningIsNotLost(net, c.preferred, race.first, w.calls, Lens(w.log, race.one));
    }
  }

  // ------------------------------------------------------------------- first, ties, the end

  lemma PollTcpGrows(net: Network, c: Tcp, w: World)
    ensures w.log <= PollTcp(net, c, w).world.log
  {
    var p := PollRemote(net, c.preferred, w);
    PollExtends(net, c.preferred, w, All);
    if c.fallback.Some? {
      var f := c.fallback.value;
      PollExtends(net, f.remote, p.world, All);
      PollExtends(net, f.remote, p.world.Note(TimerFired), All);
    }
  }

  lemma {:induction false} RunGrows(net: Network, c: Tcp, w: World, n: nat)
    ensures w.log <= RunTcp(net, c, w, n).world.log
    decreases n
  {
    if n == 0 {
    } else {
      PollTcpGrows(net, c, w);
      var p := PollTcp(net, c, w);
      if p.result.NotReady? { RunGrows(net, p.tcp, p.world, n - 1); }
    }
  }

  /** The first thing any race does is to call `connect` for the first address of the answer. */
  lemma FirstAddressGoesFirst(net: Network, answer: IpAddrs, timeout: Option<Delay>, n: nat)
    requires answer != [] && n > 0
    ensures var log := Run(net, answer, timeout, n).world.log;
            log != [] && (log[0].Dialed? || log[0].SetupFailed?) && log[0].addr == answer[0]
  {
    SplitEmptiness(answer);
    var c := NewTcp(answer, timeout);
    assert c.preferred.addrs[0] == answer[0];
    var p := PollRemote(net, c.preferred, START);
    FirstDial(net, c.preferred.addrs);
    PollTcpStartsWithPreferred(net, c, START);
    var q := PollTcp(net, c, START);
    RunGrows(net, q.tcp, q.world, n - 1);
  }

  lemma FirstDial(net: Network, addrs: IpAddrs)
    requires addrs != []
    ensures var log := PollRemote(net, Remote(addrs, None), START).world.log;
            log != [] && (log[0].Dialed? || log[0].SetupFailed?) && log[0].addr == addrs[0]
  {
    if net(0).Handshake? {
      var a := Attempt(0, addrs[0], net(0).stalls, net(0).end, false);
      PollExtends(net, Remote(addrs[1..], Some(a)), START.Note(Dialed(0, addrs[0])).Count(), All);
    }
  }

  lemma PollTcpStartsWithPreferred(net: Network, c: Tcp, w: World)
    ensures PollRemote(net, c.preferred, w).world.log <= PollTcp(net, c, w).world.log
  {
    var p := PollRemote(net, c.preferred, w);
    if c.fallback.Some? {
      PollExtends(net, c.fallback.value.remote, p.world, All);
      PollExtends(net, c.fallback.value.remote, p.world.Note(TimerFired), All);
    }
  }

  /** The preferred list wins a tie: if its open attempt is ready to be accepted, then its stream is
      the result of the poll, and neither the timer nor the fallback is looked at. */
  lemma PreferredWinsTies(net: Network, c: Tcp, w: World, a: Attempt)
    requires c.preferred.current == Some(a) && !a.settled && a.stalls == 0 && a.end.Accepts?
    ensures var p := PollTcp(net, c, w);
            p.result == Ready(Stream(a.call, a.addr)) && p.world.log == w.log + [Accepted(a.call, a.addr)]
  {}

  /** A remote that returned a stream holds just that attempt, settled. */
  predicate HoldsWinner(r: Remote, s: Stream) {
    r.current == Some(Attempt(s.call, s.addr, 0, Accepts, true))
  }

  lemma {:induction false} PollHoldsWinner(net: Network, r: Remote, w: World)
    ensures var p := PollRemote(net, r, w); p.result.Ready? ==> HoldsWinner(p.remote, p.result.stream)
    decreases |r.addrs|, 1
  {
    match r.current
    case None => if r.addrs != [] { DialHoldsWinner(net, r, w); }
    case Some(a) =>
      if !a.settled && a.stalls == 0 && a.end.Refuses? && r.addrs != [] {
        DialHoldsWinner(net, r.(current := Some(a.(settled := true))), w.Note(Refused(a.call, a.addr, a.end.error)));
      }
  }

  lemma {:induction false} DialHoldsWinner(net: Network, r: Remote, w: World)
    requires r.addrs != []
    ensures var p := DialNext(net, r, w); p.result.Ready? ==> HoldsWinner(p.remote, p.result.stream)
    decreases |r.addrs|, 0
  {
    match net(w.calls)
    case SetupFails(e) =>
    case Handshake(stalls, end) =>
      var a := Attempt(w.calls, r.addrs[0], stalls, end, false);
      PollHoldsWinner(net, Remote(r.addrs[1..], Some(a)), w.Note(Dialed(w.calls, r.addrs[0])).Count());
  }

  lemma PollTcpHoldsWinner(net: Network, c: Tcp, w: World)
    ensures var p := PollTcp(net, c, w);
            p.result.Ready? ==> p.tcp.fallback.None? && HoldsWinner(p.tcp.preferred, p.result.stream)
  {
    var p := PollRemote(net, c.preferred, w);
    PollHoldsWinner(net, c.preferred, w);
    if c.fallback.Some? {
      PollHoldsWinner(net, c.fallback.value.remote, p.world);
      PollHoldsWinner(net, c.fallback.value.remote, p.world.Note(TimerFired));
    }
  }

  /** The loser is dropped: a race that returned a stream holds the attempt that won and no other,
      and polling it again panics. */
  lemma {:induction false} OnlyTheWinnerIsKept(net: Network, c: Tcp, w: World, n: nat)
    ensures var p := RunTcp(net, c, w, n);
            p.result.Ready? ==>
              && p.tcp.fallback.None? && HoldsWinner(p.tcp.preferred, p.result.stream)
              && PollTcp(net, p.tcp, p.world).result.Panicked?
    decreases n
  {
    if n == 0 {
    } else {
      PollTcpHoldsWinner(net, c, w);
      var p := PollTcp(net, c, w);
      if p.result.NotReady? { OnlyTheWinnerIsKept(net, p.tcp, p.world, n - 1); }
    }
  }
}
