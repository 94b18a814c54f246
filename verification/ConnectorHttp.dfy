/** `HttpConnector::connect` and the outer state machine `HttpConnecting` of src/http/mod.rs. */
module ConnectorHttp {
  import opened Wrappers
  import opened Dns
  import opened Connector
  import opened ConnectorLanes
  import opened ConnectorRaces
  import opened ConnectorTheorems

  /** The parts of a URI that the connector looks at. */
  datatype Destination = Destination(scheme: Option<string>, host: Option<string>, port: Option<nat>)

  datatype Answer = Answered(ips: seq<IpAddr>) | NotResolved(error: IoError)

  /** A resolver's future: unready `stalls` times, then an answer. */
  datatype Resolution = Resolution(stalls: nat, answer: Answer)

  /** Foreign calls: the parsers of the standard library, the resolver, the network, and the
      first error (if any) of configuring the winning socket (lines 218-226). */
  datatype Surroundings = Surroundings(
    net: Network,
    parse: string -> Option<IpAddr>,
    resolve: string -> Resolution,
    tune: Stream -> Option<IoError>)

  datatype State =
    | Lazy(host: string)
    | Resolving(future: Resolution)
    | Connecting(tcp: Tcp)
    | Error(error: Option<IoError>)

  datatype Http = Http(state: State, port: nat, timeout: Option<Delay>)
  datatype HttpPolled = HttpPolled(http: Http, world: World, result: Polled)

  /** `HttpConnector::connect` (lines 84-111). */
  function ConnectTo(enforceHttp: bool, timeout: Option<Delay>, dst: Destination): Http {
    if enforceHttp && dst.scheme != Some("http") then Http(Error(Some(BadUrl(NotHttp))), 0, None)
    else if !enforceHttp && dst.scheme.None? then Http(Error(Some(BadUrl(MissingScheme))), 0, None)
    else if dst.host.None? then Http(Error(Some(BadUrl(MissingAuthority))), 0, None)
    else
      var port := if dst.port.Some? then dst.port.value else if dst.scheme == Some("https") then 443 else 80;
      Http(Lazy(dst.host.value), port, timeout)
  }

  /** `IpAddrs::try_parse`: a literal address needs no lookup. */
  function TryParse(env: Surroundings, host: string, port: nat): Option<IpAddrs> {
    match env.parse(host)
    case Some(ip) => Some([SocketAddr(ip, port)])
    case None => None
  }

  function Tuned(env: Surroundings, r: Polled): Polled {
    if r.Ready? && env.tune(r.stream).Some? then Failed(env.tune(r.stream).value) else r
  }

  /** `HttpConnecting::poll` (lines 186-236): falls through the states until one is unready. */
  function PollHttp(env: Surroundings, h: Http, w: World): HttpPolled
    decreases match h.state case Lazy(_) => 2 case Resolving(_) => 1 case _ => 0
  {
    match h.state
    case Lazy(host) =>
      var addrs := TryParse(env, host, h.port);
      if addrs.Some? then PollHttp(env, h.(state := Connecting(NewTcp(addrs.value, h.timeout))), w)
      else PollHttp(env, h.(state := Resolving(env.resolve(host))), w)
    case Resolving(future) =>
      if future.stalls > 0 then
        HttpPolled(h.(state := Resolving(future.(stalls := future.stalls - 1))), w, NotReady)
      else (match future.answer
        case NotResolved(e) => HttpPolled(h, w, Failed(e))
        case Answered(ips) =>
          PollHttp(env, h.(state := Connecting(NewTcp(WithPort(ips, h.port), h.timeout))), w))
    case Connecting(c) =>
      var p := PollTcp(env.net, c, w);
      HttpPolled(h.(state := Connecting(p.tcp)), p.world, Tuned(env, p.result))
    case Error(e) =>
      if e.Some? then HttpPolled(h.(state := Error(None)), w, Failed(e.value)) else HttpPolled(h, w, Panicked)
  }

  function RunHttp(env: Surroundings, h: Http, w: World, n: nat): HttpPolled
    decreases n
  {
    if n == 0 then HttpPolled(h, w, NotReady)
    else
      var p := PollHttp(env, h, w);
      if p.result.NotReady? then RunHttp(env, p.http, p.world, n - 1) else p
  }

  // ------------------------------------------------------------------------------- theorems

  /** How a host becomes a list of addresses, and after how many unready polls. */
  function Lookup(env: Surroundings, host: string): Resolution {
    if env.parse(host).Some? then Resolution(0, Answered([env.parse(host).value])) else env.resolve(host)
  }

  lemma {:induction false} ConnectingIsTheRace(env: Surroundings, h: Http, w: World, n: nat)
    requires h.state.Connecting?
    ensures var p := RunHttp(env, h, w, n);
            var q := RunTcp(env.net, h.state.tcp, w, n);
            p.world == q.world && p.result == Tuned(env, q.result)
    decreases n
  {
    if n == 0 {
    } else {
      var p := PollHttp(env, h, w);
      if p.result.NotReady? { ConnectingIsTheRace(env, p.http, p.world, n - 1); }
    }
  }

  lemma {:induction false} ResolvingWaits(env: Surroundings, h: Http, n: nat)
    requires h.state.Resolving?
    ensures var p := RunHttp(env, h, START, n);
            var future := h.state.future;
            if n <= future.stalls then p.result.NotReady? && p.world == START
            else match future.answer
              case NotResolved(e) => p.result == Failed(e) && p.world == START
              case Answered(ips) =>
                var q := Run(env.net, WithPort(ips, h.port), h.timeout, n - future.stalls);
                p.world == q.world && p.result == Tuned(env, q.result)
    decreases n
  {
    var future := h.state.future;
    if n > 0 && future.stalls > 0 {
      ResolvingWaits(env, h.(state := Resolving(future.(stalls := future.stalls - 1))), n - 1);
    } else if n > 0 && future.answer.Answered? {
      var tcp := NewTcp(WithPort(future.answer.ips, h.port), h.timeout);
      ConnectingIsTheRace(env, h.(state := Connecting(tcp)), START, n);
    }
  }

  /** A stream is returned once its socket is configured; a failure to configure it is returned
      instead; everything else is passed on. */
  predicate Configured(env: Surroundings, raced: Polled, result: Polled) {
    match raced
    case Ready(s) =>
      (match env.tune(s)
       case None => result == Ready(s)
       case Some(e) => result == Failed(e))
    case _ => result == raced
  }

  /** The outer machine adds nothing to the race: over every run it first waits for the lookup,
      dialing nothing, and then is the race for the looked-up addresses at the chosen port. */
  lemma HttpRunsTheRace(env: Surroundings, host: string, port: nat, timeout: Option<Delay>, n: nat)
    ensures var p := RunHttp(env, Http(Lazy(host), port, timeout), START, n);
            var lookup := Lookup(env, host);
            if n <= lookup.stalls then p.result.NotReady? && p.world == START
            else match lookup.answer
              case NotResolved(e) => p.result == Failed(e) && p.world == START
              case Answered(ips) =>
                var q := Run(env.net, WithPort(ips, port), timeout, n - lookup.stalls);
                p.world == q.world && Configured(env, q.result, p.result)
  {
    var h := Http(Lazy(host), port, timeout);
    if n > 0 && env.parse(host).Some? {
      var ip := env.parse(host).value;
      assert [SocketAddr(ip, port)] == WithPort([ip], port);
      ConnectingIsTheRace(env, h.(state := Connecting(NewTcp([SocketAddr(ip, port)], timeout))), START, n);
    } else if n > 0 {
      ResolvingWaits(env, h.(state := Resolving(env.resolve(host))), n);
    }
  }

  lemma RefusedUrlFails(env: Surroundings, h: Http, n: nat)
    requires h.state.Error? && h.state.error.Some? && n > 0
    ensures var p := RunHttp(env, h, START, n);
            p.result == Failed(h.state.error.value) && p.world == START && PollHttp(env, p.http, p.world).result.Panicked?
  {
    assert PollHttp(env, h, START).result == Failed(h.state.error.value);
  }

  /** The URLs that `enforce_http` allows, or that have a scheme at all if it is off. */
  predicate GoodScheme(enforceHttp: bool, dst: Destination) {
    if enforceHttp then dst.scheme == Some("http") else dst.scheme.Some?
  }

  /** Which URLs are refused, and why: with `enforce_http` all but http, otherwise those with no
      scheme, and then those with no host.  Nothing is dialed for them, and polling again panics. */
  lemma WhichUrlsAreRefused(env: Surroundings, enforceHttp: bool, timeout: Option<Delay>, dst: Destination, n: nat)
    requires n > 0 && (!GoodScheme(enforceHttp, dst) || dst.host.None?)
    ensures var p := RunHttp(env, ConnectTo(enforceHttp, timeout, dst), START, n);
            && p.world == START && PollHttp(env, p.http, p.world).result.Panicked?
            && (enforceHttp && dst.scheme != Some("http") ==> p.result == Failed(BadUrl(NotHttp)))
            && (!enforceHttp && dst.scheme.None? ==> p.result == Failed(BadUrl(MissingScheme)))
            && (GoodScheme(enforceHttp, dst) ==> p.result == Failed(BadUrl(MissingAuthority)))
  {
    RefusedUrlFails(env, ConnectTo(enforceHttp, timeout, dst), n);
  }

  /** The port asked for, or the default of the scheme. */
  predicate RightPort(dst: Destination, port: nat) {
    if dst.port.Some? then port == dst.port.value else if dst.scheme == Some("https") then port == 443 else port == 80
  }

  /** And all others are connected to: the connector waits for the lookup of the host, dialing
      nothing, and then races the addresses found at the right port. */
  lemma OtherUrlsAreRaced(env: Surroundings, enforceHttp: bool, timeout: Option<Delay>, dst: Destination, port: nat, n: nat)
    requires GoodScheme(enforceHttp, dst) && dst.host.Some? && RightPort(dst, port)
    ensures var p := RunHttp(env, ConnectTo(enforceHttp, timeout, dst), START, n);
            var lookup := Lookup(env, dst.host.value);
            if n <= lookup.stalls then p.result.NotReady? && p.world == START
            else match lookup.answer
              case NotResolved(e) => p.result == Failed(e) && p.world == START
              case Answered(ips) =>
                var q := Run(env.net, WithPort(ips, port), timeout, n - lookup.stalls);
                p.world == q.world && Configured(env, q.result, p.result)
  {
    assert ConnectTo(enforceHttp, timeout, dst) == Http(Lazy(dst.host.value), port, timeout);
    HttpRunsTheRace(env, dst.host.value, port, timeout, n);
  }

  /** Why a connection can fail, all causes: the URL is refused, the lookup fails, the socket that
      won this very run cannot be configured, or the race is lost on both lists and the error is
      the race's. */
  lemma FailureHasACause(env: Surroundings, enforceHttp: bool, timeout: Option<Delay>, dst: Destination, port: nat, n: nat)
    requires RunHttp(env, ConnectTo(enforceHttp, timeout, dst), START, n).result.Failed? && RightPort(dst, port)
    ensures var p := RunHttp(env, ConnectTo(enforceHttp, timeout, dst), START, n);
            || (enforceHttp && dst.scheme != Some("http") && p.result.error == BadUrl(NotHttp))
            || (!enforceHttp && dst.scheme.None? && p.result.error == BadUrl(MissingScheme))
            || (dst.host.None? && p.result.error == BadUrl(MissingAuthority))
            || (dst.host.Some? && Lookup(env, dst.host.value).answer == NotResolved(p.result.error))
            || (&& dst.host.Some?
                && Lookup(env, dst.host.value).answer.Answered?
                && n > Lookup(env, dst.host.value).stalls
                && (var answer := WithPort(Lookup(env, dst.host.value).answer.ips, port);
                    var race := RaceOf(answer, timeout);
                    var q := Run(env.net, answer, timeout, n - Lookup(env, dst.host.value).stalls);
                    && answer != [] && p.world == q.world
                    && (|| (q.result.Ready? && q.result.stream.addr in answer
                            && env.tune(q.result.stream) == Some(p.result.error))
                        || (q.result == p.result
                            && Lost(race.first, Lens(q.world.log, race.one)) && Closed(race, q.world.log)))))
  {
    if !GoodScheme(enforceHttp, dst) || dst.host.None? {
      WhichUrlsAreRefused(env, enforceHttp, timeout, dst, n);
    } else {
      OtherUrlsAreRaced(env, enforceHttp, timeout, dst, port, n);
      var lookup := Lookup(env, dst.host.value);
      if n > lookup.stalls && lookup.answer.Answered? {
        LostRaceHasACause(env, WithPort(lookup.answer.ips, port), timeout, n - lookup.stalls);
      }
    }
  }

  lemma LostRaceHasACause(env: Surroundings, answer: IpAddrs, timeout: Option<Delay>, n: nat)
    requires n > 0
    ensures var q := Run(env.net, answer, timeout, n);
            var race := RaceOf(answer, timeout);
            && (q.result.Ready? ==> answer != [] && q.result.stream.addr in answer)
            && (q.result.Failed? ==> answer != [] && Lost(race.first, Lens(q.world.log, race.one)) && Closed(race, q.world.log))
  {
    PanicsExactlyOnEmptyAnswer(env.net, answer, timeout, n);
    var q := Run(env.net, answer, timeout, n);
    if q.result.Ready? { WinnerIsFirstOfItsList(env.net, answer, timeout, n); }
    if q.result.Failed? { FailureSpendsBothLists(env.net, answer, timeout, n); }
  }

  /** The connector panics exactly when a lookup succeeds with no address at all. */
  lemma ConnectorPanicsExactlyOnEmptyLookup(env: Surroundings, enforceHttp: bool, timeout: Option<Delay>, dst: Destination, n: nat)
    ensures RunHttp(env, ConnectTo(enforceHttp, timeout, dst), START, n).result.Panicked? <==>
              && GoodScheme(enforceHttp, dst) && dst.host.Some?
              && Lookup(env, dst.host.value).answer == Answered([])
              && n > Lookup(env, dst.host.value).stalls
  {
    if !GoodScheme(enforceHttp, dst) || dst.host.None? {
      if n > 0 { WhichUrlsAreRefused(env, enforceHttp, timeout, dst, n); }
    } else {
      var port := ConnectTo(enforceHttp, timeout, dst).port;
      OtherUrlsAreRaced(env, enforceHttp, timeout, dst, port, n);
      var lookup := Lookup(env, dst.host.value);
      if n > lookup.stalls && lookup.answer.Answered? {
        PanicsExactlyOnEmptyAnswer(env.net, WithPort(lookup.answer.ips, port), timeout, n - lookup.stalls);
      }
    }
  }

  lemma {:induction false} AttemptsShow(log: Log, one: Lane, two: Lane)
    requires forall a :: one.Has(a) || two.Has(a)
    ensures forall a :: a in Attempted(log) ==> a in Attempted(Lens(log, one)) || a in Attempted(Lens(log, two))
  {
    if log == [] {
    } else {
      var before, e := log[..|log| - 1], log[|log| - 1];
      assert before + [e] == log;
      AttemptsShow(before, one, two);
      AppendLens(before, e, one);
      AppendLens(before, e, two);
      Append(Lens(before, one), e);
      Append(Lens(before, two), e);
    }
  }

  /** Everything dialed in any run is an address of the lookup at the requested port, or at the
      scheme's default port when none was given. */
  lemma DialsTheRequestedPort(env: Surroundings, enforceHttp: bool, timeout: Option<Delay>, dst: Destination, n: nat, a: SocketAddr)
    requires a in Attempted(RunHttp(env, ConnectTo(enforceHttp, timeout, dst), START, n).world.log)
    ensures a.port == if dst.port.Some? then dst.port.value else if dst.scheme == Some("https") then 443 else 80
    ensures dst.host.Some? && Lookup(env, dst.host.value).answer.Answered?
    ensures a.ip in Lookup(env, dst.host.value).answer.ips
  {
    var h := ConnectTo(enforceHttp, timeout, dst);
    var log := RunHttp(env, h, START, n).world.log;
    if h.state.Lazy? {
      HttpRunsTheRace(env, h.state.host, h.port, timeout, n);
      var lookup := Lookup(env, h.state.host);
      if n > lookup.stalls && lookup.answer.Answered? {
        DialsTheAnswer(env.net, lookup.answer.ips, h.port, timeout, n - lookup.stalls, a);
      }
    }
  }

  /** A connection is only ever made for a destination with a host, so the `unwrap` of the host in
      `build_req` (src/lib.rs:117), which runs after connecting, cannot panic. */
  lemma ConnectedHasHost(env: Surroundings, enforceHttp: bool, timeout: Option<Delay>, dst: Destination, n: nat)
    ensures RunHttp(env, ConnectTo(enforceHttp, timeout, dst), START, n).result.Ready? ==> dst.host.Some?
  {
    if dst.host.None? && n > 0 {
      RefusedUrlFails(env, ConnectTo(enforceHttp, timeout, dst), n);
    }
  }

  lemma DialsTheAnswer(net: Network, ips: seq<IpAddr>, port: nat, timeout: Option<Delay>, n: nat, a: SocketAddr)
    requires a in Attempted(Run(net, WithPort(ips, port), timeout, n).world.log)
    ensures a.port == port && a.ip in ips
  {
    var answer := WithPort(ips, port);
    var log := Run(net, answer, timeout, n).world.log;
    if answer != [] {
      var race := RaceOf(answer, timeout);
      AttemptsFollowTheAnswer(net, answer, timeout, n);
      AttemptsShow(log, race.one, race.two);
      RaceMembers(answer, timeout);
      assert a in race.first || a in race.second;
      assert a in answer;
    }
  }
}
