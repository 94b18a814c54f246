/** The connector's futures as the source has them: mutable objects, polled in place.  Each
    method is proved to compute the function of the same name in `Connector`. */
module ConnectorObjects {
  import opened Wrappers
  import opened Dns
  import opened Connector
  import opened ConnectorHttp

  datatype Dial = Opened(attempt: Attempt) | NotOpened(error: IoError)

  /** The foreign side: the network behind `connect`, and the futures it hands out. */
  class Reactor {
    const net: Network
    var world: World

    constructor (net: Network)
      ensures this.net == net && world == START
    {
      this.net := net;
      world := START;
    }

    method Connect(addr: SocketAddr) returns (r: Dial)
      modifies this
      ensures match net(old(world).calls)
              case SetupFails(e) =>
                r == NotOpened(e) && world == old(world).Note(SetupFailed(old(world).calls, addr, e)).Count()
              case Handshake(stalls, end) =>
                && r == Opened(Attempt(old(world).calls, addr, stalls, end, false))
                && world == old(world).Note(Dialed(old(world).calls, addr)).Count()
    {
      match net(world.calls) {
        case SetupFails(e) =>
          world := world.Note(SetupFailed(world.calls, addr, e)).Count();
          r := NotOpened(e);
        case Handshake(stalls, end) =>
          r := Opened(Attempt(world.calls, addr, stalls, end, false));
          world := world.Note(Dialed(world.calls, addr)).Count();
      }
    }

    /** `ConnectFuture::poll`. */
    method PollAttempt(a: Attempt) returns (a': Attempt, r: Polled)
      modifies this
      ensures a.settled ==> a' == a && r == Panicked && world == old(world)
      ensures !a.settled && a.stalls > 0 ==>
                a' == a.(stalls := a.stalls - 1) && r == NotReady && world == old(world).Note(Waiting(a.call, a.addr))
      ensures !a.settled && a.stalls == 0 && a.end.Accepts? ==>
                a' == a.(settled := true) && r == Ready(Stream(a.call, a.addr)) &&
                world == old(world).Note(Accepted(a.call, a.addr))
      ensures !a.settled && a.stalls == 0 && a.end.Refuses? ==>
                a' == a.(settled := true) && r == Failed(a.end.error) &&
                world == old(world).Note(Refused(a.call, a.addr, a.end.error))
    {
      if a.settled {
        return a, Panicked;
      }
      if a.stalls > 0 {
        world := world.Note(Waiting(a.call, a.addr));
        return a.(stalls := a.stalls - 1), NotReady;
      }
      match a.end {
        case Accepts =>
          world := world.Note(Accepted(a.call, a.addr));
          return a.(settled := true), Ready(Stream(a.call, a.addr));
        case Refuses(e) =>
          world := world.Note(Refused(a.call, a.addr, e));
          return a.(settled := true), Failed(e);
      }
    }
  }

  class ConnectingTcpRemote {
    var addrs: IpAddrs
    var current: Option<Attempt>

    function View(): Remote
      reads this
    {
      Remote(addrs, current)
    }

    constructor (addrs: IpAddrs)
      ensures View() == Remote(addrs, None)
    {
      this.addrs := addrs;
      current := None;
    }

    method Poll(reactor: Reactor) returns (result: Polled)
      modifies this, reactor
      ensures RemotePolled(View(), reactor.world, result) == PollRemote(reactor.net, old(View()), old(reactor.world))
    {
      var err: Option<IoError> := None;
      while true
        invariant err.Some? ==> current.Some?
        invariant PollRemote(reactor.net, View(), reactor.world) == PollRemote(reactor.net, old(View()), old(reactor.world))
        decreases |addrs|
      {
        if current.Some? {
          var polled;
          var future := current.value;
          future, polled := reactor.PollAttempt(future);
          current := Some(future);
          if !polled.Failed? {
            return polled;
          }
          err := Some(polled.error);
          if addrs != [] {
            var addr := addrs[0];
            addrs := addrs[1..];
            var dial := reactor.Connect(addr);
            if dial.NotOpened? {
              return Failed(dial.error);
            }
            current := Some(dial.attempt);
            continue;
          }
        } else if addrs != [] {
          var addr := addrs[0];
          addrs := addrs[1..];
          var dial := reactor.Connect(addr);
          if dial.NotOpened? {
            return Failed(dial.error);
          }
          current := Some(dial.attempt);
          continue;
        }

        if err.None? {
          return Panicked;  // "missing connect error"
        }
        return Failed(err.value);
      }
    }
  }

  class ConnectingTcpFallback {
    var delay: Delay
    const remote: ConnectingTcpRemote

    constructor (delay: Delay, remote: ConnectingTcpRemote)
      ensures this.delay == delay && this.remote == remote
    {
      this.delay := delay;
      this.remote := remote;
    }

    function View(): Fallback
      reads this, remote
    {
      Fallback(delay, remote.View())
    }

    /** `Delay::poll`; the result is the event that was observed. */
    method PollDelay(reactor: Reactor) returns (e: Event)
      modifies this, reactor
      ensures e == if old(delay).stalls > 0 then TimerWaiting else if delay.breaks then TimerBroken else TimerFired
      ensures delay == if old(delay).stalls > 0 then old(delay).(stalls := old(delay).stalls - 1) else old(delay)
      ensures reactor.world == old(reactor.world).Note(e)
    {
      if delay.stalls > 0 {
        delay := delay.(stalls := delay.stalls - 1);
        e := TimerWaiting;
      } else {
        e := if delay.breaks then TimerBroken else TimerFired;
      }
      reactor.world := reactor.world.Note(e);
    }
  }

  class ConnectingTcp {
    var preferred: ConnectingTcpRemote
    var fallback: Option<ConnectingTcpFallback>

    /** The objects a poll may change. */
    function Repr(): set<object>
      reads this, if fallback.Some? then {fallback.value} else {}
    {
      {this, preferred} + if fallback.Some? then {fallback.value, fallback.value.remote} else {}
    }

    /** The two remotes are distinct objects: the source owns them by value. */
    ghost predicate Valid()
      reads this
    {
      fallback.Some? ==> fallback.value.remote != preferred
    }

    function View(): Tcp
      reads Repr()
    {
      Tcp(preferred.View(), if fallback.Some? then Some(fallback.value.View()) else None)
    }

    constructor (remoteAddrs: IpAddrs, fallbackTimeout: Option<Delay>)
      ensures Valid() && fresh(Repr()) && View() == NewTcp(remoteAddrs, fallbackTimeout)
    {
      if fallbackTimeout.Some? {
        var (preferredAddrs, fallbackAddrs) := SplitByPreference(remoteAddrs);
        preferred := new ConnectingTcpRemote(preferredAddrs);
        if fallbackAddrs == [] {
          fallback := None;
        } else {
          var remote := new ConnectingTcpRemote(fallbackAddrs);
          var f := new ConnectingTcpFallback(fallbackTimeout.value, remote);
          fallback := Some(f);
        }
      } else {
        preferred := new ConnectingTcpRemote(remoteAddrs);
        fallback := None;
      }
    }

    method Poll(reactor: Reactor) returns (result: Polled)
      requires Valid() && reactor !in Repr()
      modifies Repr(), reactor
      ensures Valid() && Repr() <= old(Repr())
      ensures TcpPolled(View(), reactor.world, result) == PollTcp(reactor.net, old(View()), old(reactor.world))
    {
      var taken := fallback;
      fallback := None;
      result := preferred.Poll(reactor);
      if taken.None? || result.Ready? || result.Panicked? {
        return;  // a successful preferred remote drops the fallback
      }
      var f := taken.value;
      if result.Failed? {
        preferred := f.remote;
        result := preferred.Poll(reactor);
        return;
      }
      var timer := f.PollDelay(reactor);
      if timer.TimerWaiting? {
        fallback := Some(f);
        return NotReady;
      }
      if timer.TimerBroken? {
        return NotReady;
      }
      result := f.remote.Poll(reactor);
      match result {
        case Ready(_) => preferred := f.remote;
        case NotReady => fallback := Some(f);
        case Failed(_) => result := NotReady;
        case Panicked =>
      }
    }
  }

  datatype ConnectorState =
    | LazyState(host: string)
    | ResolvingState(future: Resolution)
    | ConnectingState(tcp: ConnectingTcp)
    | ErrorState(error: Option<IoError>)

  class HttpConnecting {
    var state: ConnectorState
    const port: nat
    const timeout: Option<Delay>

    function Repr(): set<object>
      reads this, if state.ConnectingState? then {state.tcp} else {},
            if state.ConnectingState? && state.tcp.fallback.Some? then {state.tcp.fallback.value} else {}
    {
      {this} + if state.ConnectingState? then state.tcp.Repr() else {}
    }

    ghost predicate Valid()
      reads this, if state.ConnectingState? then {state.tcp} else {}
    {
      state.ConnectingState? ==> state.tcp.Valid()
    }

    function View(): Http
      reads Repr()
    {
      var s := match state
        case LazyState(host) => Lazy(host)
        case ResolvingState(future) => Resolving(future)
        case ConnectingState(tcp) => Connecting(tcp.View())
        case ErrorState(e) => Error(e);
      Http(s, port, timeout)
    }

    /** `HttpConnector::connect`. */
    constructor (enforceHttp: bool, happyEyeballsTimeout: Option<Delay>, dst: Destination)
      ensures Valid() && fresh(Repr()) && View() == ConnectTo(enforceHttp, happyEyeballsTimeout, dst)
    {
      if enforceHttp && dst.scheme != Some("http") {
        state, port, timeout := ErrorState(Some(BadUrl(NotHttp))), 0, None;
      } else if !enforceHttp && dst.scheme.None? {
        state, port, timeout := ErrorState(Some(BadUrl(MissingScheme))), 0, None;
      } else if dst.host.None? {
        state, port, timeout := ErrorState(Some(BadUrl(MissingAuthority))), 0, None;
      } else {
        state := LazyState(dst.host.value);
        port := if dst.port.Some? then dst.port.value else if dst.scheme == Some("https") then 443 else 80;
        timeout := happyEyeballsTimeout;
      }
    }

    method Poll(env: Surroundings, reactor: Reactor) returns (result: Polled)
      requires Valid() && reactor !in Repr() && reactor.net == env.net
      modifies Repr(), reactor
      ensures Valid() && fresh(Repr() - old(Repr()))
      ensures HttpPolled(View(), reactor.world, result) == PollHttp(env, old(View()), old(reactor.world))
    {
      while true
        invariant Valid() && reactor !in Repr() && reactor.world == old(reactor.world)
        invariant forall o :: o in Repr() ==> o in old(Repr()) || fresh(o)
        invariant PollHttp(env, View(), reactor.world) == PollHttp(env, old(View()), old(reactor.world))
        decreases match state case LazyState(_) => 2 case ResolvingState(_) => 1 case _ => 0
      {
        match state {
          case LazyState(host) =>
            var addrs := TryParse(env, host, port);
            if addrs.Some? {
              var tcp := new ConnectingTcp(addrs.value, timeout);
              state := ConnectingState(tcp);
            } else {
              state := ResolvingState(env.resolve(host));
            }
          case ResolvingState(future) =>
            if future.stalls > 0 {
              state := ResolvingState(future.(stalls := future.stalls - 1));
              return NotReady;
            }
            if future.answer.NotResolved? {
              return Failed(future.answer.error);
            }
            var tcp := new ConnectingTcp(WithPort(future.answer.ips, port), timeout);
            state := ConnectingState(tcp);
          case ConnectingState(tcp) =>
            result := tcp.Poll(reactor);
            if result.Ready? {
              var trouble := env.tune(result.stream);
              if trouble.Some? {
                result := Failed(trouble.value);
              }
            }
            return;
          case ErrorState(e) =>
            if e.None? {
              return Panicked;  // "polled more than once"
            }
            state := ErrorState(None);
            return Failed(e.value);
        }
      }
    }
  }

  // ------------------------------------------------------------------------------ whole runs

  /** Polls up to `n` times, as an executor does: until the result is no longer NotReady. */
  method RunRace(c: ConnectingTcp, reactor: Reactor, n: nat) returns (result: Polled)
    requires c.Valid() && reactor !in c.Repr()
    modifies c.Repr(), reactor
    ensures c.Valid() && c.Repr() <= old(c.Repr())
    ensures TcpPolled(c.View(), reactor.world, result) == RunTcp(reactor.net, old(c.View()), old(reactor.world), n)
  {
    result := NotReady;
    var left := n;
    while left > 0 && result.NotReady?
      invariant c.Valid() && reactor !in c.Repr() && c.Repr() <= old(c.Repr())
      invariant result.NotReady? ==>
                  RunTcp(reactor.net, c.View(), reactor.world, left) ==
                  RunTcp(reactor.net, old(c.View()), old(reactor.world), n)
      invariant !result.NotReady? ==>
                  TcpPolled(c.View(), reactor.world, result) ==
                  RunTcp(reactor.net, old(c.View()), old(reactor.world), n)
    {
      result := c.Poll(reactor);
      left := left - 1;
    }
  }

  method RunConnector(h: HttpConnecting, env: Surroundings, reactor: Reactor, n: nat) returns (result: Polled)
    requires h.Valid() && reactor !in h.Repr() && reactor.net == env.net
    modifies h.Repr(), reactor
    ensures h.Valid() && fresh(h.Repr() - old(h.Repr()))
    ensures HttpPolled(h.View(), reactor.world, result) == RunHttp(env, old(h.View()), old(reactor.world), n)
  {
    result := NotReady;
    var left := n;
    while left > 0 && result.NotReady?
      invariant h.Valid() && reactor !in h.Repr() && fresh(h.Repr() - old(h.Repr()))
      invariant result.NotReady? ==>
                  RunHttp(env, h.View(), reactor.world, left) == RunHttp(env, old(h.View()), old(reactor.world), n)
      invariant !result.NotReady? ==>
                  HttpPolled(h.View(), reactor.world, result) == RunHttp(env, old(h.View()), old(reactor.world), n)
    {
      result := h.Poll(env, reactor);
      left := left - 1;
    }
  }

  /** `HttpConnector::connect`, polled to its end: what a caller of the whole connector gets. */
  method Connect(enforceHttp: bool, timeout: Option<Delay>, dst: Destination, env: Surroundings, n: nat)
    returns (result: Polled, world: World)
    ensures var p := RunHttp(env, ConnectTo(enforceHttp, timeout, dst), START, n);
            result == p.result && world == p.world
  {
    var reactor := new Reactor(env.net);
    var h := new HttpConnecting(enforceHttp, timeout, dst);
    result := RunConnector(h, env, reactor, n);
    world := reactor.world;
  }
}
