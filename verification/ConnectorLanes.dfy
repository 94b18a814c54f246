/** What the log of a run says about one address list (a "lane"), and the invariant that
    `ConnectingTcpRemote::poll` keeps for it. */
module ConnectorLanes {
  import opened Wrappers
  import opened Dns
  import opened Connector

  /** The addresses one `ConnectingTcpRemote` is responsible for: a family when the answer
      was split, everything when it was not. */
  datatype Lane = All | Nobody | Family(v6: bool) {
    predicate Has(a: SocketAddr) {
      match this
      case All => true
      case Nobody => false
      case Family(v6) => a.IsIpv6() == v6
    }
  }

  predicate About(e: Event, lane: Lane) {
    !e.IsTimer() && lane.Has(e.addr)
  }

  /** The events of a log that concern a lane, in order. */
  function Lens(log: Log, lane: Lane): Log {
    if log == [] then []
    else
      var before := Lens(log[..|log| - 1], lane);
      var e := log[|log| - 1];
      if About(e, lane) then before + [e] else before
  }

  /** The addresses for which `connect` was called. */
  function Attempted(log: Log): IpAddrs {
    if log == [] then []
    else
      var before := Attempted(log[..|log| - 1]);
      var e := log[|log| - 1];
      if e.Dialed? || e.SetupFailed? then before + [e.addr] else before
  }

  /** The addresses whose attempt ended in an error. */
  function RefusedBy(log: Log): IpAddrs {
    if log == [] then []
    else
      var before := RefusedBy(log[..|log| - 1]);
      var e := log[|log| - 1];
      if e.Refused? then before + [e.addr] else before
  }

  /** The addresses for which `connect` failed on the spot. */
  function NotSetUp(log: Log): IpAddrs {
    if log == [] then []
    else
      var before := NotSetUp(log[..|log| - 1]);
      var e := log[|log| - 1];
      if e.SetupFailed? then before + [e.addr] else before
  }

  lemma AppendLens(log: Log, e: Event, lane: Lane)
    ensures Lens(log + [e], lane) == if About(e, lane) then Lens(log, lane) + [e] else Lens(log, lane)
  {
    assert (log + [e])[..|log|] == log;
  }

  lemma Append(log: Log, e: Event)
    ensures Attempted(log + [e]) == if e.Dialed? || e.SetupFailed? then Attempted(log) + [e.addr] else Attempted(log)
    ensures RefusedBy(log + [e]) == if e.Refused? then RefusedBy(log) + [e.addr] else RefusedBy(log)
    ensures NotSetUp(log + [e]) == if e.SetupFailed? then NotSetUp(log) + [e.addr] else NotSetUp(log)
  {
    assert (log + [e])[..|log|] == log;
  }

  // ------------------------------------------------------------ the states a lane can be in

  /** Every attempt so far was refused and none is open. */
  predicate Between(addrs: IpAddrs, plan: IpAddrs, log: Log) {
    && Attempted(log) == RefusedBy(log)
    && Attempted(log) + addrs == plan
    && NotSetUp(log) == []
  }

  /** `a` is the one open attempt; it ends as the environment says. */
  predicate Open(net: Network, a: Attempt, addrs: IpAddrs, plan: IpAddrs, calls: nat, log: Log) {
    && !a.settled
    && a.call < calls
    && net(a.call).Handshake?
    && a.end == net(a.call).end
    && Attempted(log) == RefusedBy(log) + [a.addr]
    && Attempted(log) + addrs == plan
    && NotSetUp(log) == []
  }

  /** A remote that has returned neither a stream nor an error: attempted ++ to try == plan. */
  predicate Running(net: Network, r: Remote, plan: IpAddrs, calls: nat, log: Log) {
    match r.current
    case None => r.addrs != [] && Between(r.addrs, plan, log)
    case Some(a) => Open(net, a, r.addrs, plan, calls, log)
  }

  /** A remote that has returned an error: all of its addresses refused, or those before the
      one that could not be set up. */
  predicate Lost(plan: IpAddrs, log: Log) {
    || (RefusedBy(log) == plan && Attempted(log) == plan && NotSetUp(log) == [])
    || (|NotSetUp(log)| == 1 && Attempted(log) == RefusedBy(log) + NotSetUp(log) && Attempted(log) <= plan)
  }

  /** A remote that has returned a stream: everything before the winner was refused. */
  predicate Won(plan: IpAddrs, s: Stream, log: Log) {
    RefusedBy(log) + [s.addr] <= plan && Attempted(log) == RefusedBy(log) + [s.addr] && NotSetUp(log) == []
  }

  predicate Within(addrs: IpAddrs, lane: Lane) {
    forall a :: a in addrs ==> lane.Has(a)
  }

  /** What one poll of a remote leaves behind. */
  predicate LaneAfter(net: Network, p: RemotePolled, plan: IpAddrs, log: Log) {
    match p.result
    case NotReady => Running(net, p.remote, plan, p.world.calls, log) && p.remote.current.Some?
    case Ready(s) => Won(plan, s, log)
    case Failed(_) => Lost(plan, log)
    case Panicked => false
  }

  /** One event at a time: dialing the next address, ... */
  lemma Dials(net: Network, addrs: IpAddrs, plan: IpAddrs, call: nat, log: Log)
    requires addrs != [] && Between(addrs, plan, log)
    ensures addrs[0] in plan
    ensures match net(call)
            case SetupFails(e) => Lost(plan, log + [SetupFailed(call, addrs[0], e)])
            case Handshake(stalls, end) =>
              Open(net, Attempt(call, addrs[0], stalls, end, false), addrs[1..], plan, call + 1,
                   log + [Dialed(call, addrs[0])])
  {
    assert plan[|Attempted(log)|] == addrs[0];
    assert Attempted(log) + addrs == (Attempted(log) + [addrs[0]]) + addrs[1..];
    match net(call)
    case SetupFails(e) => Append(log, SetupFailed(call, addrs[0], e));
    case Handshake(_, _) => Append(log, Dialed(call, addrs[0]));
  }

  /** ... and the three answers an open attempt can give. */
  lemma Answers(net: Network, a: Attempt, addrs: IpAddrs, plan: IpAddrs, calls: nat, log: Log)
    requires Open(net, a, addrs, plan, calls, log)
    ensures a.addr in plan
    ensures Open(net, a, addrs, plan, calls, log + [Waiting(a.call, a.addr)])
    ensures Won(plan, Stream(a.call, a.addr), log + [Accepted(a.call, a.addr)])
    ensures forall e :: Between(addrs, plan, log + [Refused(a.call, a.addr, e)])
    ensures addrs == [] ==> forall e :: Lost(plan, log + [Refused(a.call, a.addr, e)])
  {
    assert plan[|RefusedBy(log)|] == a.addr;
    Append(log, Waiting(a.call, a.addr));
    Append(log, Accepted(a.call, a.addr));
    forall e ensures Between(addrs, plan, log + [Refused(a.call, a.addr, e)]) {
      Append(log, Refused(a.call, a.addr, e));
    }
  }

  lemma {:induction false} PollKeepsLane(net: Network, r: Remote, w: World, plan: IpAddrs, lane: Lane)
    requires Running(net, r, plan, w.calls, Lens(w.log, lane)) && Within(plan, lane)
    ensures var p := PollRemote(net, r, w); LaneAfter(net, p, plan, Lens(p.world.log, lane))
    decreases |r.addrs|, 1
  {
    match r.current
    case None => DialKeepsLane(net, r, w, plan, lane);
    case Some(a) =>
      Answers(net, a, r.addrs, plan, w.calls, Lens(w.log, lane));
      if a.stalls > 0 {
        AppendLens(w.log, Waiting(a.call, a.addr), lane);
      } else if a.end.Accepts? {
        AppendLens(w.log, Accepted(a.call, a.addr), lane);
      } else {
        var e := Refused(a.call, a.addr, a.end.error);
        AppendLens(w.log, e, lane);
        if r.addrs != [] {
          DialKeepsLane(net, r.(current := Some(a.(settled := true))), w.Note(e), plan, lane);
        }
      }
  }

  lemma {:induction false} DialKeepsLane(net: Network, r: Remote, w: World, plan: IpAddrs, lane: Lane)
    requires r.addrs != [] && Between(r.addrs, plan, Lens(w.log, lane)) && Within(plan, lane)
    ensures var p := DialNext(net, r, w); LaneAfter(net, p, plan, Lens(p.world.log, lane))
    decreases |r.addrs|, 0
  {
    Dials(net, r.addrs, plan, w.calls, Lens(w.log, lane));
    assert lane.Has(r.addrs[0]);
    match net(w.calls)
    case SetupFails(e) =>
      AppendLens(w.log, SetupFailed(w.calls, r.addrs[0], e), lane);
    case Handshake(stalls, end) =>
      AppendLens(w.log, Dialed(w.calls, r.addrs[0]), lane);
      var r1 := Remote(r.addrs[1..], Some(Attempt(w.calls, r.addrs[0], stalls, end, false)));
      var w1 := w.Note(Dialed(w.calls, r.addrs[0])).Count();
      assert Running(net, r1, plan, w1.calls, Lens(w1.log, lane));
      PollKeepsLane(net, r1, w1, plan, lane);
  }

  // ------------------------------------------------------ what a poll leaves alone, or says

  /** A poll only adds events, all of them about addresses of its own list. */
  predicate Extends(log: Log, log': Log, lane: Lane) {
    log <= log' && forall i :: |log| <= i < |log'| ==> About(log'[i], lane)
  }

  lemma {:induction false} PollExtends(net: Network, r: Remote, w: World, lane: Lane)
    requires Within(r.addrs, lane) && (r.current.Some? ==> lane.Has(r.current.value.addr))
    ensures var p := PollRemote(net, r, w);
            && Extends(w.log, p.world.log, lane)
            && w.calls <= p.world.calls
            && p.world.calls + |p.remote.addrs| == w.calls + |r.addrs|
    ensures var p := PollRemote(net, r, w);
            p.result.NotReady? ==>
              && p.remote.current.Some?
              && Within(p.remote.addrs, lane) && lane.Has(p.remote.current.value.addr)
              && |p.world.log| > |w.log|
              && p.world.log[|p.world.log| - 1] == Waiting(p.remote.current.value.call, p.remote.current.value.addr)
    decreases |r.addrs|, 1
  {
    match r.current
    case None => if r.addrs != [] { DialExtends(net, r, w, lane); }
    case Some(a) =>
      if !a.settled && a.stalls == 0 && a.end.Refuses? && r.addrs != [] {
        DialExtends(net, r.(current := Some(a.(settled := true))), w.Note(Refused(a.call, a.addr, a.end.error)), lane);
      }
  }

  lemma {:induction false} DialExtends(net: Network, r: Remote, w: World, lane: Lane)
    requires r.addrs != [] && Within(r.addrs, lane)
    ensures var p := DialNext(net, r, w);
            && Extends(w.log, p.world.log, lane)
            && w.calls <= p.world.calls
            && p.world.calls + |p.remote.addrs| == w.calls + |r.addrs|
    ensures var p := DialNext(net, r, w);
            p.result.NotReady? ==>
              && p.remote.current.Some?
              && Within(p.remote.addrs, lane) && lane.Has(p.remote.current.value.addr)
              && |p.world.log| > |w.log|
              && p.world.log[|p.world.log| - 1] == Waiting(p.remote.current.value.call, p.remote.current.value.addr)
    decreases |r.addrs|, 0
  {
    assert r.addrs[0] in r.addrs;
    match net(w.calls)
    case SetupFails(e) =>
    case Handshake(stalls, end) =>
      var a := Attempt(w.calls, r.addrs[0], stalls, end, false);
      PollExtends(net, Remote(r.addrs[1..], Some(a)), w.Note(Dialed(w.calls, r.addrs[0])).Count(), lane);
  }

  predicate Disjoint(a: Lane, b: Lane) {
    a == Nobody || b == Nobody || (a.Family? && b.Family? && a.v6 != b.v6)
  }

  /** Polling one list does not change what the log says about the other. */
  lemma {:induction false} OtherLaneUntouched(log: Log, log': Log, lane: Lane, other: Lane)
    requires Extends(log, log', lane) && Disjoint(lane, other)
    ensures Lens(log', other) == Lens(log, other)
    decreases |log'|
  {
    if |log'| == |log| {
      assert log' == log;
    } else {
      OtherLaneUntouched(log, log'[..|log'| - 1], lane, other);
    }
  }
}
