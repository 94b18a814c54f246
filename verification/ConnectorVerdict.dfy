/** When a race ends, and how: the verdict does not depend on timing. */
module ConnectorVerdict {
  import opened Wrappers
  import opened Dns
  import opened Connector
  import opened ConnectorLanes
  import opened ConnectorTheorems

  // ------------------------------------------------------------------------- every race ends

  /** All the unready answers that the attempts `from`, .., `to - 1` have in store. */
  function Stalls(net: Network, from: nat, to: nat): nat
    decreases to - from
  {
    if from >= to then 0
    else (if net(from).Handshake? then net(from).stalls else 0) + Stalls(net, from + 1, to)
  }

  function Left(r: Remote): nat {
    if r.current.Some? then r.current.value.stalls else 0
  }

  /** An unready poll uses up one stall; no poll adds any. */
  lemma {:induction false} PollUsesStalls(net: Network, r: Remote, w: World, N: nat)
    requires w.calls + |r.addrs| <= N
    ensures var p := PollRemote(net, r, w);
            && p.world.calls + |p.remote.addrs| == w.calls + |r.addrs|
            && Left(p.remote) + Stalls(net, p.world.calls, N) <= Left(r) + Stalls(net, w.calls, N)
            && (p.result.NotReady? ==>
                  Left(p.remote) + Stalls(net, p.world.calls, N) < Left(r) + Stalls(net, w.calls, N))
    decreases |r.addrs|, 1
  {
    match r.current
    case None => if r.addrs != [] { DialUsesStalls(net, r, w, N); }
    case Some(a) =>
      if !a.settled && a.stalls == 0 && a.end.Refuses? && r.addrs != [] {
        DialUsesStalls(net, r.(current := Some(a.(settled := true))), w.Note(Refused(a.call, a.addr, a.end.error)), N);
      }
  }

  lemma {:induction false} DialUsesStalls(net: Network, r: Remote, w: World, N: nat)
    requires r.addrs != [] && w.calls + |r.addrs| <= N
    ensures var p := DialNext(net, r, w);
            && p.world.calls + |p.remote.addrs| == w.calls + |r.addrs|
            && Left(p.remote) + Stalls(net, p.world.calls, N) <= Left(r) + Stalls(net, w.calls, N)
            && (p.result.NotReady? ==>
                  Left(p.remote) + Stalls(net, p.world.calls, N) < Left(r) + Stalls(net, w.calls, N))
    decreases |r.addrs|, 0
  {
    match net(w.calls)
    case SetupFails(e) =>
    case Handshake(stalls, end) =>
      var a := Attempt(w.calls, r.addrs[0], stalls, end, false);
      PollUsesStalls(net, Remote(r.addrs[1..], Some(a)), w.Note(Dialed(w.calls, r.addrs[0])).Count(), N);
  }

  /** The calls of `connect` made plus those that can still be made. */
  function Budget(c: Tcp, w: World): nat {
    w.calls + |c.preferred.addrs| + if c.fallback.Some? then |c.fallback.value.remote.addrs| else 0
  }

  function Potential(net: Network, c: Tcp, w: World, N: nat): nat {
    Left(c.preferred) + (if c.fallback.Some? then Left(c.fallback.value.remote) else 0) + Stalls(net, w.calls, N)
  }

  lemma PollTcpUsesStalls(net: Network, c: Tcp, w: World, N: nat)
    requires Budget(c, w) <= N && PollTcp(net, c, w).result.NotReady?
    ensures var p := PollTcp(net, c, w);
            Budget(p.tcp, p.world) <= N && Potential(net, p.tcp, p.world, N) < Potential(net, c, w, N)
  {
    PollUsesStalls(net, c.preferred, w, N);
    var p := PollRemote(net, c.preferred, w);
    if c.fallback.Some? {
      var f := c.fallback.value;
      PollUsesStalls(net, f.remote, p.world, N);
      PollUsesStalls(net, f.remote, p.world.Note(TimerFired), N);
    }
  }

  lemma {:induction false} RunUsesStalls(net: Network, c: Tcp, w: World, n: nat, N: nat)
    requires Budget(c, w) <= N && n > Potential(net, c, w, N)
    ensures !RunTcp(net, c, w, n).result.NotReady?
    decreases n
  {
    var p := PollTcp(net, c, w);
    if p.result.NotReady? {
      PollTcpUsesStalls(net, c, w, N);
      RunUsesStalls(net, p.tcp, p.world, n - 1, N);
    }
  }

  /** A caller polls at most once more than all attempts together stall. */
  lemma EveryRaceEnds(net: Network, answer: IpAddrs, timeout: Option<Delay>, n: nat)
    requires n > Stalls(net, 0, |answer|)
    ensures !Run(net, answer, timeout, n).result.NotReady?
  {
    SplitLengths(answer, PrefersIpv6(answer));
    RunUsesStalls(net, NewTcp(answer, timeout), START, n, |answer|);
  }

  lemma {:induction false} SplitLengths(addrs: IpAddrs, v6: bool)
    ensures |OfFamily(addrs, v6)| + |OfFamily(addrs, !v6)| == |addrs|
  {
    if addrs == [] {
    } else {
      SplitLengths(addrs[1..], v6);
    }
  }

  // ------------------------------------------------------------- the verdict ignores the clock

  predicate Hopeless(s: Script) { s.SetupFails? || s.end.Refuses? }

  predicate Holds(r: Remote, call: nat) {
    r.current.Some? && r.current.value.call == call
  }

  /** The remote's attempt is a real, unsettled one; and it has something left to do. */
  predicate Linked(net: Network, r: Remote, calls: nat) {
    match r.current
    case None => r.addrs != []
    case Some(a) => !a.settled && a.call < calls && net(a.call).Handshake? && a.end == net(a.call).end
  }

  /** Every call made so far was hopeless, except the open ones: this remote's and `other`. */
  predicate Accounted(net: Network, r: Remote, other: Option<nat>, calls: nat) {
    forall k: nat :: k < calls ==> Hopeless(net(k)) || Holds(r, k) || other == Some(k)
  }

  predicate AllSetUp(net: Network, N: nat) {
    forall k: nat :: k < N ==> net(k).Handshake?
  }

  /** What one poll of a remote tells about the calls made. */
  predicate Tells(net: Network, p: RemotePolled, other: Option<nat>) {
    match p.result
    case NotReady => Linked(net, p.remote, p.world.calls) && Accounted(net, p.remote, other, p.world.calls)
    case Ready(s) => s.call < p.world.calls && !Hopeless(net(s.call))
    case Failed(_) =>
      && p.remote.addrs == []
      && forall k: nat :: k < p.world.calls ==> Hopeless(net(k)) || other == Some(k)
    case Panicked => false
  }

  lemma {:induction false} PollTells(net: Network, r: Remote, w: World, other: Option<nat>, N: nat)
    requires Linked(net, r, w.calls) && Accounted(net, r, other, w.calls)
    requires AllSetUp(net, N) && w.calls + |r.addrs| <= N
    ensures var p := PollRemote(net, r, w); Tells(net, p, other) && w.calls <= p.world.calls
    decreases |r.addrs|, 1
  {
    match r.current
    case None => DialTells(net, r, w, other, N);
    case Some(a) =>
      if a.stalls == 0 && a.end.Refuses? && r.addrs != [] {
        DialTells(net, r.(current := Some(a.(settled := true))), w.Note(Refused(a.call, a.addr, a.end.error)), other, N);
      }
  }

  lemma {:induction false} DialTells(net: Network, r: Remote, w: World, other: Option<nat>, N: nat)
    requires r.addrs != [] && AllSetUp(net, N) && w.calls + |r.addrs| <= N
    requires forall k: nat :: k < w.calls ==> Hopeless(net(k)) || other == Some(k)
    ensures var p := DialNext(net, r, w); Tells(net, p, other) && w.calls <= p.world.calls
    decreases |r.addrs|, 0
  {
    assert net(w.calls).Handshake?;
    var a := Attempt(w.calls, r.addrs[0], net(w.calls).stalls, net(w.calls).end, false);
    PollTells(net, Remote(r.addrs[1..], Some(a)), w.Note(Dialed(w.calls, r.addrs[0])).Count(), other, N);
  }

  function OpenCall(r: Remote): Option<nat> {
    if r.current.Some? then Some(r.current.value.call) else None
  }

  predicate Balanced(net: Network, c: Tcp, w: World, N: nat) {
    && AllSetUp(net, N)
    && Budget(c, w) == N
    && Linked(net, c.preferred, w.calls)
    && match c.fallback
       case None => Accounted(net, c.preferred, None, w.calls)
       case Some(f) =>
         && !f.delay.breaks
         && Linked(net, f.remote, w.calls)
         && Accounted(net, c.preferred, OpenCall(f.remote), w.calls)
  }

  predicate VerdictOf(net: Network, p: TcpPolled, N: nat) {
    match p.result
    case NotReady => Balanced(net, p.tcp, p.world, N)
    case Ready(s) => s.call < N && !Hopeless(net(s.call))
    case Failed(_) => forall k: nat :: k < N ==> Hopeless(net(k))
    case Panicked => false
  }

  lemma PollTcpVerdict(net: Network, c: Tcp, w: World, N: nat)
    requires Balanced(net, c, w, N)
    ensures VerdictOf(net, PollTcp(net, c, w), N)
  {
    var p := PollRemote(net, c.preferred, w);
    PollUsesStalls(net, c.preferred, w, N);
    match c.fallback
    case None => PollTells(net, c.preferred, w, None, N);
    case Some(f) =>
      PollTells(net, c.preferred, w, OpenCall(f.remote), N);
      if p.result.Failed? {
        PollUsesStalls(net, f.remote, p.world, N);
        PollTells(net, f.remote, p.world, None, N);
      } else if p.result.NotReady? && f.delay.stalls == 0 {
        var w1 := p.world.Note(TimerFired);
        PollUsesStalls(net, f.remote, w1, N);
        PollTells(net, f.remote, w1, OpenCall(p.remote), N);
      }
  }

  lemma {:induction false} RunVerdict(net: Network, c: Tcp, w: World, n: nat, N: nat)
    requires Balanced(net, c, w, N)
    ensures VerdictOf(net, RunTcp(net, c, w, n), N)
    decreases n
  {
    if n == 0 {
    } else {
      PollTcpVerdict(net, c, w, N);
      var p := PollTcp(net, c, w);
      if p.result.NotReady? { RunVerdict(net, p.tcp, p.world, n - 1, N); }
    }
  }

  /** Whether the race is won depends on nothing but the attempts themselves: not on how long
      each of them stalls, nor on when the timer fires.  Barring local trouble (a socket that
      cannot be set up, a broken timer), every long enough run succeeds if and only if one of
      the first |answer| calls of `connect` would be accepted.  (`ConnectorReach` says the same of
      addresses, for outcomes that do not depend on the order of the calls.) */
  lemma VerdictIgnoresTheClock(net: Network, answer: IpAddrs, timeout: Option<Delay>, n: nat)
    requires answer != [] && AllSetUp(net, |answer|) && (timeout.Some? ==> !timeout.value.breaks)
    requires n > Stalls(net, 0, |answer|)
    ensures Run(net, answer, timeout, n).result.Ready? <==> exists k: nat :: k < |answer| && !Hopeless(net(k))
    ensures Run(net, answer, timeout, n).result.Failed? <==> forall k: nat :: k < |answer| ==> Hopeless(net(k))
  {
    EveryRaceEnds(net, answer, timeout, n);
    SplitLengths(answer, PrefersIpv6(answer));
    SplitEmptiness(answer);
    RunVerdict(net, NewTcp(answer, timeout), START, n, |answer|);
    var r := Run(net, answer, timeout, n).result;
    if r.Ready? { assert !Hopeless(net(r.stream.call)); }
  }

  // ------------------------------------------------------- one list: a sequential connect

  /** Blocking connect: one address after the other; `call` numbers the first attempt. */
  function Sequential(net: Network, addrs: IpAddrs, call: nat): Polled
    requires addrs != []
  {
    match net(call)
    case SetupFails(e) => Failed(e)
    case Handshake(_, Accepts) => Ready(Stream(call, addrs[0]))
    case Handshake(_, Refuses(e)) => if |addrs| == 1 then Failed(e) else Sequential(net, addrs[1..], call + 1)
  }

  /** The blocking outcome of what a remote has left. */
  function Remaining(net: Network, r: Remote, calls: nat): Polled {
    match r.current
    case None => if r.addrs == [] then Panicked else Sequential(net, r.addrs, calls)
    case Some(a) =>
      if a.settled then Panicked
      else match a.end
        case Accepts => Ready(Stream(a.call, a.addr))
        case Refuses(e) => if r.addrs == [] then Failed(e) else Sequential(net, r.addrs, calls)
  }

  lemma {:induction false} PollIsSequential(net: Network, r: Remote, w: World)
    ensures var p := PollRemote(net, r, w);
            Remaining(net, r, w.calls) ==
            if p.result.NotReady? then Remaining(net, p.remote, p.world.calls) else p.result
    decreases |r.addrs|, 1
  {
    match r.current
    case None => if r.addrs != [] { DialIsSequential(net, r, w); }
    case Some(a) =>
      if !a.settled && a.stalls == 0 && a.end.Refuses? && r.addrs != [] {
        DialIsSequential(net, r.(current := Some(a.(settled := true))), w.Note(Refused(a.call, a.addr, a.end.error)));
      }
  }

  lemma {:induction false} DialIsSequential(net: Network, r: Remote, w: World)
    requires r.addrs != []
    ensures var p := DialNext(net, r, w);
            Sequential(net, r.addrs, w.calls) ==
            if p.result.NotReady? then Remaining(net, p.remote, p.world.calls) else p.result
    decreases |r.addrs|, 0
  {
    match net(w.calls)
    case SetupFails(e) =>
    case Handshake(stalls, end) =>
      var a := Attempt(w.calls, r.addrs[0], stalls, end, false);
      PollIsSequential(net, Remote(r.addrs[1..], Some(a)), w.Note(Dialed(w.calls, r.addrs[0])).Count());
  }

  lemma {:induction false} RunIsSequential(net: Network, c: Tcp, w: World, n: nat)
    requires c.fallback.None?
    ensures var p := RunTcp(net, c, w, n);
            p.result.NotReady? || p.result == Remaining(net, c.preferred, w.calls)
    decreases n
  {
    if n == 0 {
    } else {
      PollIsSequential(net, c.preferred, w);
      var p := PollTcp(net, c, w);
      if p.result.NotReady? { RunIsSequential(net, p.tcp, p.world, n - 1); }
    }
  }

  /** With no timeout, or an answer of a single family, polling repeatedly returns exactly what
      a blocking connect returns, for every pattern of unready polls and set-up failures. */
  lemma OneListIsSequential(net: Network, answer: IpAddrs, timeout: Option<Delay>, n: nat)
    requires answer != [] && n > Stalls(net, 0, |answer|)
    requires timeout.None? || forall a, b :: a in answer && b in answer ==> a.IsIpv6() == b.IsIpv6()
    ensures Run(net, answer, timeout, n).result == Sequential(net, answer, 0)
  {
    SplitEmptiness(answer);
    EveryRaceEnds(net, answer, timeout, n);
    RunIsSequential(net, NewTcp(answer, timeout), START, n);
  }

  /** What a blocking connect returns: the first address that accepts if no earlier attempt
      failed to be set up; otherwise the error that stopped it, which is the first set-up
      failure or else the last address's refusal. */
  lemma {:induction false} SequentialIsFirstSuccess(net: Network, addrs: IpAddrs, call: nat) returns (i: nat)
    requires addrs != []
    ensures i < |addrs|
    ensures forall k: nat :: call <= k < call + i ==> net(k).Handshake? && net(k).end.Refuses?
    ensures match net(call + i)
            case SetupFails(e) => Sequential(net, addrs, call) == Failed(e)
            case Handshake(_, Accepts) => Sequential(net, addrs, call) == Ready(Stream(call + i, addrs[i]))
            case Handshake(_, Refuses(e)) => i == |addrs| - 1 && Sequential(net, addrs, call) == Failed(e)
  {
    if net(call).Handshake? && net(call).end.Refuses? && |addrs| > 1 {
      var j := SequentialIsFirstSuccess(net, addrs[1..], call + 1);
      i := j + 1;
      assert call + i == (call + 1) + j;
    } else {
      i := 0;
    }
  }

  function FirstSocketFails(call: nat): Script {
    if call == 0 then SetupFails(IoError(24)) else Handshake(0, Accepts)
  }

  /** The exception for set-up failures is real: here the second address would have accepted, and
      is never tried. */
  lemma SetupFailureAbandonsTheRest(a: SocketAddr, b: SocketAddr)
    ensures var p := Run(FirstSocketFails, [a, b], None, 1);
            p.result == Failed(IoError(24)) && Attempted(p.world.log) == [a] && !Hopeless(FirstSocketFails(1))
  {
    var r := Remote([a, b], None);
    assert FirstSocketFails(0) == SetupFails(IoError(24));
    assert PollRemote(FirstSocketFails, r, START) == DialNext(FirstSocketFails, r, START);
    Append([], SetupFailed(0, a, IoError(24)));
  }
}
