/** The happy-eyeballs connector of src/http/mod.rs as a state machine over values.

    One `poll` of each future is a total function from its state and the state of the world
    to their successors and a result; `ConnectorObjects` holds the mutable objects whose
    methods are proved to compute exactly these functions.  The environment is adversarial:
    `Network` says what the n-th call of `connect` meets (an error on the spot, or any number
    of unready polls followed by success or refusal), and `Delay` says after how many polls
    the fallback timer fires or breaks.  Every panic of the source is an explicit result. */
module Connector {
  import opened Wrappers
  import opened Dns

  datatype InvalidUrl = MissingScheme | NotHttp | MissingAuthority
  datatype IoError = IoError(code: int) | BadUrl(why: InvalidUrl)

  /** How a connection attempt ends once it stops being unready. */
  datatype End = Accepts | Refuses(error: IoError)

  /** What one call of `connect` (lines 340-373) meets. */
  datatype Script = SetupFails(error: IoError) | Handshake(stalls: nat, end: End)
  type Network = nat -> Script

  /** `ConnectFuture`: polling it again after it has settled panics. */
  datatype Attempt = Attempt(call: nat, addr: SocketAddr, stalls: nat, end: End, settled: bool)

  /** `Delay`: unready `stalls` times, then forever fired or forever broken. */
  datatype Delay = Delay(stalls: nat, breaks: bool)

  datatype Event =
    | Dialed(call: nat, addr: SocketAddr)
    | SetupFailed(call: nat, addr: SocketAddr, error: IoError)
    | Waiting(call: nat, addr: SocketAddr)
    | Refused(call: nat, addr: SocketAddr, error: IoError)
    | Accepted(call: nat, addr: SocketAddr)
    | TimerWaiting
    | TimerFired
    | TimerBroken
  {
    predicate IsTimer() { TimerWaiting? || TimerFired? || TimerBroken? }
  }

  type Log = seq<Event>

  /** The calls of `connect` made so far, and everything that was observed, oldest first. */
  datatype World = World(calls: nat, log: Log) {
    function Note(e: Event): World { World(calls, log + [e]) }
    function Count(): World { World(calls + 1, log) }
  }

  datatype Stream = Stream(call: nat, addr: SocketAddr)
  datatype Polled = NotReady | Ready(stream: Stream) | Failed(error: IoError) | Panicked

  // ------------------------------------------------------------------ ConnectingTcpRemote

  datatype Remote = Remote(addrs: IpAddrs, current: Option<Attempt>)
  datatype RemotePolled = RemotePolled(remote: Remote, world: World, result: Polled)

  /** `ConnectingTcpRemote::poll` (lines 311-337). */
  function PollRemote(net: Network, r: Remote, w: World): RemotePolled
    decreases |r.addrs|, 1
  {
    match r.current
    case None =>
      if r.addrs == [] then RemotePolled(r, w, Panicked) else DialNext(net, r, w)
    case Some(a) =>
      if a.settled then RemotePolled(r, w, Panicked)
      else if a.stalls > 0 then
        RemotePolled(r.(current := Some(a.(stalls := a.stalls - 1))), w.Note(Waiting(a.call, a.addr)), NotReady)
      else
        var r1 := r.(current := Some(a.(settled := true)));
        match a.end
        case Accepts => RemotePolled(r1, w.Note(Accepted(a.call, a.addr)), Ready(Stream(a.call, a.addr)))
        case Refuses(e) =>
          var w1 := w.Note(Refused(a.call, a.addr, e));
          if r.addrs == [] then RemotePolled(r1, w1, Failed(e)) else DialNext(net, r1, w1)
  }

  /** The next address is taken off the list before `connect(..)?` can fail, and a failure
      leaves `current` as it was (lines 324-326 and 330-332). */
  function DialNext(net: Network, r: Remote, w: World): RemotePolled
    requires r.addrs != []
    decreases |r.addrs|, 0
  {
    match net(w.calls)
    case SetupFails(e) =>
      RemotePolled(r.(addrs := r.addrs[1..]), w.Note(SetupFailed(w.calls, r.addrs[0], e)).Count(), Failed(e))
    case Handshake(stalls, end) =>
      var a := Attempt(w.calls, r.addrs[0], stalls, end, false);
      PollRemote(net, Remote(r.addrs[1..], Some(a)), w.Note(Dialed(w.calls, r.addrs[0])).Count())
  }

  // ------------------------------------------------------------------------ ConnectingTcp

  datatype Fallback = Fallback(delay: Delay, remote: Remote)
  datatype Tcp = Tcp(preferred: Remote, fallback: Option<Fallback>)
  datatype TcpPolled = TcpPolled(tcp: Tcp, world: World, result: Polled)

  /** `ConnectingTcp::new` (lines 253-287). */
  function NewTcp(addrs: IpAddrs, timeout: Option<Delay>): Tcp {
    match timeout
    case None => Tcp(Remote(addrs, None), None)
    case Some(delay) =>
      var (preferred, fallback) := SplitByPreference(addrs);
      if fallback == [] then Tcp(Remote(preferred, None), None)
      else Tcp(Remote(preferred, None), Some(Fallback(delay, Remote(fallback, None))))
  }

  /** `ConnectingTcp::poll` (lines 377-420). */
  function PollTcp(net: Network, c: Tcp, w: World): TcpPolled {
    var p := PollRemote(net, c.preferred, w);
    match c.fallback
    case None => TcpPolled(Tcp(p.remote, None), p.world, p.result)
    case Some(fallback) =>
      match p.result
      case Ready(_) => TcpPolled(Tcp(p.remote, None), p.world, p.result)
      case Panicked => TcpPolled(Tcp(p.remote, None), p.world, Panicked)
      case NotReady => PollFallback(net, p.remote, fallback, p.world)
      case Failed(_) =>
        var q := PollRemote(net, fallback.remote, p.world);
        TcpPolled(Tcp(q.remote, None), q.world, q.result)
  }

  /** The arm of `ConnectingTcp::poll` in which the preferred family is unready (lines 385-412). */
  function PollFallback(net: Network, preferred: Remote, fallback: Fallback, w: World): TcpPolled {
    if fallback.delay.stalls > 0 then
      var waiting := fallback.(delay := fallback.delay.(stalls := fallback.delay.stalls - 1));
      TcpPolled(Tcp(preferred, Some(waiting)), w.Note(TimerWaiting), NotReady)
    else if fallback.delay.breaks then
      TcpPolled(Tcp(preferred, None), w.Note(TimerBroken), NotReady)
    else
      var q := PollRemote(net, fallback.remote, w.Note(TimerFired));
      match q.result
      case Ready(_) => TcpPolled(Tcp(q.remote, None), q.world, q.result)
      case Panicked => TcpPolled(Tcp(preferred, None), q.world, Panicked)
      case NotReady => TcpPolled(Tcp(preferred, Some(fallback.(remote := q.remote))), q.world, NotReady)
      case Failed(_) => TcpPolled(Tcp(preferred, None), q.world, NotReady)
  }

  /** Up to `n` polls by a caller that stops at the first result other than NotReady. */
  function RunTcp(net: Network, c: Tcp, w: World, n: nat): TcpPolled
    decreases n
  {
    if n == 0 then TcpPolled(c, w, NotReady)
    else
      var p := PollTcp(net, c, w);
      if p.result.NotReady? then RunTcp(net, p.tcp, p.world, n - 1) else p
  }

  const START := World(0, [])
}
