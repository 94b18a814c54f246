/** The result of a race against what the network would do: the log tells the truth, the result
    is the last thing that happened, and success depends on which addresses can be reached. */
module ConnectorReach {
  import opened Wrappers
  import opened Dns
  import opened Connector
  import opened ConnectorLanes
  import opened ConnectorRaces
  import opened ConnectorTheorems
  import opened ConnectorVerdict

  // --------------------------------------------------------------------- the log is truthful

  /** An attempt for this address was begun, and it ends this way. */
  predicate Begun(net: Network, call: nat, addr: SocketAddr, end: End, log: Log) {
    Dialed(call, addr) in log && net(call).Handshake? && net(call).end == end
  }

  /** An event says what the network did, and an attempt is settled only after it was begun. */
  predicate Told(net: Network, e: Event, log: Log) {
    match e
    case Dialed(call, _) => net(call).Handshake?
    case SetupFailed(call, _, error) => net(call) == SetupFails(error)
    case Refused(call, addr, error) => Begun(net, call, addr, Refuses(error), log)
    case Accepted(call, addr) => Begun(net, call, addr, Accepts, log)
    case _ => true
  }

  predicate Truthful(net: Network, log: Log) {
    forall e :: e in log ==> Told(net, e, log)
  }

  /** A remote's attempt is one that was begun. */
  predicate Genuine(net: Network, r: Remote, log: Log) {
    r.current.Some? ==> Begun(net, r.current.value.call, r.current.value.addr, r.current.value.end, log)
  }

  /** A result is the last thing that happened. */
  predicate IsLast(result: Polled, log: Log) {
    match result
    case Ready(s) => log != [] && log[|log| - 1] == Accepted(s.call, s.addr)
    case Failed(e) =>
      && log != []
      && var last := log[|log| - 1]; (last.Refused? || last.SetupFailed?) && last.error == e
    case _ => true
  }

  /** What one poll of a remote keeps. */
  predicate Reports(net: Network, p: RemotePolled, before: Log) {
    && before <= p.world.log && Truthful(net, p.world.log)
    && Genuine(net, p.remote, p.world.log) && IsLast(p.result, p.world.log)
  }

  lemma NoteTruth(net: Network, log: Log, e: Event)
    requires Truthful(net, log) && Told(net, e, log + [e])
    ensures Truthful(net, log + [e])
  {}

  lemma {:induction false} PollReports(net: Network, r: Remote, w: World)
    requires Truthful(net, w.log) && Genuine(net, r, w.log)
    ensures Reports(net, PollRemote(net, r, w), w.log)
    decreases |r.addrs|, 1
  {
    match r.current
    case None => if r.addrs != [] { DialReports(net, r, w); }
    case Some(a) =>
      if !a.settled {
        if a.stalls > 0 {
          NoteTruth(net, w.log, Waiting(a.call, a.addr));
        } else if a.end.Accepts? {
          NoteTruth(net, w.log, Accepted(a.call, a.addr));
        } else {
          var e := Refused(a.call, a.addr, a.end.error);
          NoteTruth(net, w.log, e);
          if r.addrs != [] { DialReports(net, r.(current := Some(a.(settled := true))), w.Note(e)); }
        }
      }
  }

  lemma {:induction false} DialReports(net: Network, r: Remote, w: World)
    requires r.addrs != [] && Truthful(net, w.log) && Genuine(net, r, w.log)
    ensures Reports(net, DialNext(net, r, w), w.log)
    decreases |r.addrs|, 0
  {
    match net(w.calls)
    case SetupFails(e) =>
      NoteTruth(net, w.log, SetupFailed(w.calls, r.addrs[0], e));
    case Handshake(stalls, end) =>
      var e := Dialed(w.calls, r.addrs[0]);
      NoteTruth(net, w.log, e);
      assert w.Note(e).log[|w.log|] == e;
      PollReports(net, Remote(r.addrs[1..], Some(Attempt(w.calls, r.addrs[0], stalls, end, false))), w.Note(e).Count());
  }

  lemma StaysGenuine(net: Network, r: Remote, log: Log, log': Log)
    requires Genuine(net, r, log) && log <= log'
    ensures Genuine(net, r, log')
  {
    if r.current.Some? {
      var e := Dialed(r.current.value.call, r.current.value.addr);
      var i :| 0 <= i < |log| && log[i] == e;
      assert log'[i] == e;
    }
  }

  /** Both remotes' attempts are genuine, and the log is truthful. */
  predicate Reported(net: Network, c: Tcp, w: World) {
    && Truthful(net, w.log) && Genuine(net, c.preferred, w.log)
    && (c.fallback.Some? ==> Genuine(net, c.fallback.value.remote, w.log))
  }

  predicate TcpReports(net: Network, p: TcpPolled) {
    Truthful(net, p.world.log) && IsLast(p.result, p.world.log) && (p.result.NotReady? ==> Reported(net, p.tcp, p.world))
  }

  lemma PollTcpReports(net: Network, c: Tcp, w: World)
    requires Reported(net, c, w)
    ensures TcpReports(net, PollTcp(net, c, w))
  {
    var p := PollRemote(net, c.preferred, w);
    PollReports(net, c.preferred, w);
    if c.fallback.Some? {
      var f := c.fallback.value;
      StaysGenuine(net, f.remote, w.log, p.world.log);
      if p.result.Failed? {
        PollReports(net, f.remote, p.world);
      } else if p.result.NotReady? {
        var w1 := TimerPolled(f, p.world);
        NoteTruth(net, p.world.log, w1.log[|p.world.log|]);
        StaysGenuine(net, f.remote, p.world.log, w1.log);
        PollReports(net, f.remote, w1);
        StaysGenuine(net, p.remote, p.world.log, w1.log);
        StaysGenuine(net, p.remote, w1.log, PollRemote(net, f.remote, w1).world.log);
      }
    }
  }

  lemma {:induction false} RunReports(net: Network, c: Tcp, w: World, n: nat)
    requires Reported(net, c, w)
    ensures TcpReports(net, RunTcp(net, c, w, n))
    decreases n
  {
    if n == 0 {
    } else {
      PollTcpReports(net, c, w);
      var p := PollTcp(net, c, w);
      if p.result.NotReady? { RunReports(net, p.tcp, p.world, n - 1); }
    }
  }

  /** What a race returns is the last thing that happened in it: a stream is the attempt just
      accepted, which the network does accept; an error is that of the attempt just refused, or of
      the socket just not set up.  An earlier error never wins over a later one. */
  lemma ResultIsTheLastEvent(net: Network, answer: IpAddrs, timeout: Option<Delay>, n: nat)
    ensures var p := Run(net, answer, timeout, n);
            match p.result
            case Ready(s) =>
              && p.world.log != [] && p.world.log[|p.world.log| - 1] == Accepted(s.call, s.addr)
              && Begun(net, s.call, s.addr, Accepts, p.world.log)
            case Failed(e) =>
              && p.world.log != []
              && (match p.world.log[|p.world.log| - 1]
                  case Refused(call, addr, error) => error == e && Begun(net, call, addr, Refuses(e), p.world.log)
                  case SetupFailed(call, _, error) => error == e && net(call) == SetupFails(e)
                  case _ => false)
            case _ => true
  {
    RunReports(net, NewTcp(answer, timeout), START, n);
    var p := Run(net, answer, timeout, n);
    if p.result.Ready? || p.result.Failed? { assert p.world.log[|p.world.log| - 1] in p.world.log; }
  }

  // ----------------------------------------------------- success depends on what is reachable

  /** Which addresses can be reached does not depend on when they are tried. */
  type Reach = SocketAddr -> End

  predicate Obeys(net: Network, log: Log, reach: Reach) {
    forall e :: e in log && e.Dialed? && net(e.call).Handshake? ==> net(e.call).end == reach(e.addr)
  }

  /** Nothing went wrong on this side: every socket was set up, and the timer did not break. */
  predicate NoLocalTrouble(log: Log) { !AnySetupFailed(log) && TimerBroken !in log }

  lemma {:induction false} RefusalsShow(log: Log, lane: Lane, a: SocketAddr)
    requires a in RefusedBy(Lens(log, lane))
    ensures exists call, e :: Refused(call, a, e) in log
  {
    var before, last := log[..|log| - 1], log[|log| - 1];
    assert log == before + [last];
    AppendLens(before, last, lane);
    Append(Lens(before, lane), last);
    if a in RefusedBy(Lens(before, lane)) {
      RefusalsShow(before, lane, a);
      var call, e :| Refused(call, a, e) in before;
      assert Refused(call, a, e) in log;
    } else {
      assert last == Refused(last.call, a, last.error) && last in log;
    }
  }

  lemma RefusedIsUnreachable(net: Network, log: Log, lane: Lane, a: SocketAddr, reach: Reach)
    requires Truthful(net, log) && Obeys(net, log, reach) && a in RefusedBy(Lens(log, lane))
    ensures reach(a).Refuses?
  {
    RefusalsShow(log, lane, a);
    var call, e :| Refused(call, a, e) in log;
    assert Told(net, Refused(call, a, e), log);
    assert Dialed(call, a) in log;
  }

  /** For a network in which every address either accepts or refuses, whenever it is tried: a
      race that ended without local trouble is won if and only if some address of the answer
      accepts.  Neither the order of the answer, nor what stalls, nor the delay decides it. */
  lemma WonExactlyIfReachable(net: Network, answer: IpAddrs, timeout: Option<Delay>, n: nat, reach: Reach)
    requires answer != [] && n > Stalls(net, 0, |answer|)
    requires var log := Run(net, answer, timeout, n).world.log; Obeys(net, log, reach) && NoLocalTrouble(log)
    ensures var r := Run(net, answer, timeout, n).result;
            && (r.Ready? <==> exists a :: a in answer && reach(a).Accepts?)
            && (r.Failed? <==> forall a :: a in answer ==> reach(a).Refuses?)
  {
    EveryRaceEnds(net, answer, timeout, n);
    PanicsExactlyOnEmptyAnswer(net, answer, timeout, n);
    RunReports(net, NewTcp(answer, timeout), START, n);
    var p := Run(net, answer, timeout, n);
    if p.result.Ready? {
      ResultIsTheLastEvent(net, answer, timeout, n);
      WinnerIsFirstOfItsList(net, answer, timeout, n);
      var s := p.result.stream;
      assert Dialed(s.call, s.addr) in p.world.log;
      assert reach(s.addr).Accepts?;
    } else {
      AllUnreachable(net, answer, timeout, n, reach);
    }
  }

  lemma AllUnreachable(net: Network, answer: IpAddrs, timeout: Option<Delay>, n: nat, reach: Reach)
    requires answer != [] && Run(net, answer, timeout, n).result.Failed?
    requires var log := Run(net, answer, timeout, n).world.log; Obeys(net, log, reach) && NoLocalTrouble(log)
    ensures forall a :: a in answer ==> reach(a).Refuses?
  {
    RunReports(net, NewTcp(answer, timeout), START, n);
    ExhaustiveFailure(net, answer, timeout, n);
    var race := RaceOf(answer, timeout);
    var log := Run(net, answer, timeout, n).world.log;
    forall a | a in answer ensures reach(a).Refuses? {
      assert a in multiset(answer);
      if a in RefusedBy(Lens(log, race.one)) {
        RefusedIsUnreachable(net, log, race.one, a, reach);
      } else {
        RefusedIsUnreachable(net, log, race.two, a, reach);
      }
    }
  }
}
