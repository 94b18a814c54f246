/** Whole runs of the CONNECT tunnel, for every chunking, every suspension and every fault. */
module TunnelRuns {
  import opened Bytes
  import opened Wire
  import opened Tunnel

  /** Up to `n` more polls by a caller that stops at the first result other than NotReady. */
  function Resume(sched: Schedule, r: Polled, n: nat): (q: Polled)
    requires Sound(r.state, r.peer)
    ensures Sound(q.state, q.peer)
    decreases n
  {
    if n == 0 || !r.outcome.NotReady? then r else Resume(sched, Poll(sched, r.state, r.peer), n - 1)
  }

  function Unpolled(request: Text, reply: Text, closed: bool): Polled {
    Polled(Fresh(request), Waiting(reply, closed), NotReady)
  }

  function Run(sched: Schedule, request: Text, reply: Text, closed: bool, n: nat): Polled {
    Resume(sched, Unpolled(request, reply, closed), n)
  }

  /** The object, polled by such a caller. */
  method Establish(stream: Stream, request: Text, n: nat) returns (outcome: Outcome, tunnel: Tunnel)
    requires stream.Valid()
    modifies stream
    ensures tunnel.Valid() && tunnel.io == stream && fresh(tunnel)
    ensures Polled(tunnel.View(), stream.peer, outcome) ==
            Resume(stream.sched, Polled(Fresh(request), old(stream.peer), NotReady), n)
  {
    tunnel := new Tunnel(request, stream);
    outcome := NotReady;
    var left := n;
    while left > 0 && outcome.NotReady?
      invariant tunnel.Valid() && fresh(tunnel) && tunnel.io == stream
      invariant Sound(tunnel.View(), stream.peer)
      invariant Resume(stream.sched, Polled(tunnel.View(), stream.peer, outcome), left) ==
                Resume(stream.sched, Polled(Fresh(request), old(stream.peer), NotReady), n)
    {
      outcome := tunnel.PollOnce();
      left := left - 1;
    }
  }

  // ---------------------------------------------------------------------- what a run keeps

  predicate ReadSoFar(request: Text, t: State, p: Peer) {
    p.taken <= |p.reply| && p.sent == request && t.buf == p.reply[..p.taken]
  }

  /** While writing, the proxy has the part of the request before the cursor; while reading, all
      of it, and the buffer is what has been read, which has decided nothing yet. */
  predicate Tunneling(request: Text, t: State, p: Peer) {
    && t.live && p.taken <= |p.reply|
    && if t.mode.Writing? then
         t.buf == request && t.pos <= |request| && p.sent == request[..t.pos] && p.taken == 0
       else
         ReadSoFar(request, t, p) && Judge(t.buf).Undecided?
  }

  /** What each ending means. */
  predicate Ended(request: Text, sched: Schedule, r: Polled) {
    var p := r.peer;
    p.taken <= |p.reply| &&
    match r.outcome
    case NotReady => Tunneling(request, r.state, p)
    case Ready => !r.state.live && ReadSoFar(request, r.state, p) && Judge(r.state.buf).Accepted?
    case Unsuccessful => ReadSoFar(request, r.state, p) && Judge(r.state.buf).Rejected?
    case ReadEof => ReadSoFar(request, r.state, p) && Judge(r.state.buf).Undecided? && p.closed && p.taken == |p.reply|
    case WriteEof => p.sent < request && p.taken == 0 && p.ops > 0 && sched(p.ops - 1) == Move(0)
    case IoFailed(code) => p.sent <= request && (p.taken > 0 ==> p.sent == request) && p.ops > 0 && sched(p.ops - 1) == Fault(code)
    case Panicked => false
  }

  lemma WriteTurnKeeps(sched: Schedule, request: Text, t: State, p: Peer)
    requires Tunneling(request, t, p) && t.mode.Writing?
    ensures match WriteTurn(sched, t, p)
            case Again(t2, p2) => Tunneling(request, t2, p2)
            case Return(r) => Ended(request, sched, r)
  {
    if t.pos < |t.buf| && sched(p.ops).Move? {
      var n := Taken(sched(p.ops).upTo, |t.buf| - t.pos);
      assert request[..t.pos + n] == request[..t.pos] + request[t.pos..t.pos + n];
    }
  }

  lemma ReadDataKeeps(sched: Schedule, request: Text, t: State, p: Peer)
    requires Tunneling(request, t, p) && t.mode.Reading? && sched(p.ops).Move? && p.taken < |p.reply|
    ensures match ReadTurn(sched, t, p)
            case Again(t2, p2) => Tunneling(request, t2, p2)
            case Return(r) => Ended(request, sched, r)
  {
    var n := Amount(sched(p.ops).upTo, |p.reply| - p.taken, |p.reply| - p.taken);
    var read := p.reply[..p.taken + n];
    assert read == t.buf + p.reply[p.taken..p.taken + n];
  }

  lemma ReadTurnKeeps(sched: Schedule, request: Text, t: State, p: Peer)
    requires Tunneling(request, t, p) && t.mode.Reading?
    ensures match ReadTurn(sched, t, p)
            case Again(t2, p2) => Tunneling(request, t2, p2)
            case Return(r) => Ended(request, sched, r)
  {
    if sched(p.ops).Move? && p.taken < |p.reply| { ReadDataKeeps(sched, request, t, p); }
  }

  lemma TurnKeeps(sched: Schedule, request: Text, t: State, p: Peer)
    requires Tunneling(request, t, p)
    ensures Sound(t, p)
    ensures match Once(sched, t, p)
            case Again(t2, p2) => Tunneling(request, t2, p2) && p2.reply == p.reply && p2.closed == p.closed
            case Return(r) => Ended(request, sched, r) && r.peer.reply == p.reply && r.peer.closed == p.closed
  {
    if t.mode.Writing? { WriteTurnKeeps(sched, request, t, p); } else { ReadTurnKeeps(sched, request, t, p); }
  }

  lemma {:induction false} PollKeeps(sched: Schedule, request: Text, t: State, p: Peer)
    requires Tunneling(request, t, p)
    ensures Sound(t, p)
    ensures var r := Poll(sched, t, p);
            Ended(request, sched, r) && r.peer.reply == p.reply && r.peer.closed == p.closed
    decreases Work(t, p).0, Work(t, p).1
  {
    TurnKeeps(sched, request, t, p);
    match Once(sched, t, p)
    case Again(t2, p2) => PollKeeps(sched, request, t2, p2);
    case Return(_) =>
  }

  /** The part of `PollKeeps` that a caller who polls again needs. */
  lemma PollAgain(sched: Schedule, request: Text, t: State, p: Peer)
    requires Tunneling(request, t, p)
    ensures Sound(t, p)
    ensures var r := Poll(sched, t, p);
            (r.outcome.NotReady? ==> Tunneling(request, r.state, r.peer)) && r.peer.reply == p.reply && r.peer.closed == p.closed
  {
    PollKeeps(sched, request, t, p);
  }

  lemma {:induction false} RunKeeps(sched: Schedule, request: Text, r: Polled, n: nat)
    requires Ended(request, sched, r) && Sound(r.state, r.peer)
    ensures var q := Resume(sched, r, n);
            Ended(request, sched, q) && q.peer.reply == r.peer.reply && q.peer.closed == r.peer.closed
    decreases n
  {
    if n == 0 || !r.outcome.NotReady? {
    } else {
      NextPollKeeps(sched, request, r);
      RunKeeps(sched, request, Poll(sched, r.state, r.peer), n - 1);
    }
  }

  lemma NextPollKeeps(sched: Schedule, request: Text, r: Polled)
    requires Ended(request, sched, r) && Sound(r.state, r.peer) && r.outcome.NotReady?
    ensures var q := Poll(sched, r.state, r.peer);
            && Ended(request, sched, q) && Sound(q.state, q.peer)
            && q.peer.reply == r.peer.reply && q.peer.closed == r.peer.closed
  {
    PollKeeps(sched, request, r.state, r.peer);
  }

  /** Write safety: in every run, faulty ones included, what the proxy has received is a prefix
      of the request; nothing is read before all of it is written, and then nothing more is
      written; and while reading, the buffer is exactly the bytes read so far. */
  lemma WriteSafety(sched: Schedule, request: Text, reply: Text, closed: bool, n: nat)
    ensures var r := Run(sched, request, reply, closed, n);
            && r.peer.sent <= request
            && r.peer.reply == reply && r.peer.taken <= |reply|
            && (r.peer.taken > 0 ==> r.peer.sent == request)
            && (r.outcome.NotReady? && r.state.mode.Reading? ==> r.peer.sent == request && r.state.buf == reply[..r.peer.taken])
            && (r.outcome.NotReady? && r.state.mode.Writing? ==>
                  r.state.buf == request && r.state.pos <= |request| && r.peer.sent == request[..r.state.pos])
  {
    RunKeeps(sched, request, Unpolled(request, reply, closed), n);
  }

  /** What every ending of every run means. */
  lemma EveryEnding(sched: Schedule, request: Text, reply: Text, closed: bool, n: nat)
    ensures var r := Run(sched, request, reply, closed, n);
            Ended(request, sched, r) && r.peer.reply == reply && r.peer.closed == closed
  {
    RunKeeps(sched, request, Unpolled(request, reply, closed), n);
  }

  /** Once the stream has been handed out, the tunnel is used up: polling it again panics. */
  lemma ReadyOnlyOnce(sched: Schedule, request: Text, reply: Text, closed: bool, n: nat)
    requires Run(sched, request, reply, closed, n).outcome.Ready?
    ensures var r := Run(sched, request, reply, closed, n);
            Poll(sched, r.state, r.peer) == Polled(r.state, r.peer, Panicked)
  {
    RunKeeps(sched, request, Unpolled(request, reply, closed), n);
  }

  /** The stream's last operation found it unready, so that it will wake the task. */
  predicate Unready(sched: Schedule, p: Peer) {
    p.ops > 0 && (sched(p.ops - 1).Stall? || (sched(p.ops - 1).Move? && p.taken == |p.reply| && !p.closed))
  }

  lemma {:induction false} PollEndsUnready(sched: Schedule, t: State, p: Peer)
    requires Sound(t, p)
    ensures var r := Poll(sched, t, p); r.outcome.NotReady? ==> r.peer.ops > p.ops && Unready(sched, r.peer)
    decreases Work(t, p).0, Work(t, p).1
  {
    if !t.live {
    } else {
      OnceEndsUnready(sched, t, p);
      match Once(sched, t, p)
      case Again(t2, p2) => PollEndsUnready(sched, t2, p2);
      case Return(_) =>
    }
  }

  lemma OnceEndsUnready(sched: Schedule, t: State, p: Peer)
    requires Sound(t, p)
    ensures match Once(sched, t, p)
            case Again(_, p2) => p2.ops >= p.ops
            case Return(r) => r.outcome.NotReady? ==> r.peer.ops > p.ops && Unready(sched, r.peer)
  {}

  /** No lost wakeup: a poll returns NotReady only when the last thing it did was an operation that
      found the stream unready; until then it writes and reads on. */
  lemma NoLostWakeup(sched: Schedule, request: Text, reply: Text, closed: bool, n: nat)
    requires Run(sched, request, reply, closed, n).outcome.NotReady?
    ensures var s := Run(sched, request, reply, closed, n);
            var r := Poll(sched, s.state, s.peer);
            r.outcome.NotReady? ==> r.peer.ops > s.peer.ops && Unready(sched, r.peer)
  {
    var s := Run(sched, request, reply, closed, n);
    PollEndsUnready(sched, s.state, s.peer);
  }

  // ----------------------------------------------------------------------- every run ends

  /** No I/O error, and no write that takes nothing. */
  ghost predicate Fair(sched: Schedule) {
    forall k: nat :: sched(k) != Move(0) && !sched(k).Fault?
  }

  /** The reply settles the matter by its end. */
  predicate Decisive(reply: Text, closed: bool) {
    closed || !Judge(reply).Undecided?
  }

  function Progress(p: Peer): nat { |p.sent| + p.taken }

  /** Each turn of the loop either moves bytes with one operation, or moves on without one, or
      stalls; with a decisive reply it never waits at the reply's end. */
  lemma TurnProgresses(sched: Schedule, request: Text, t: State, p: Peer)
    requires Tunneling(request, t, p) && Fair(sched) && Decisive(p.reply, p.closed)
    ensures Sound(t, p)
    ensures match Once(sched, t, p)
            case Again(_, p2) => Advanced(sched, p, p2)
            case Return(r) => r.outcome.NotReady? ==> r.peer.ops > p.ops && Advanced(sched, p, r.peer)
  {
    assert p.taken == |p.reply| ==> p.reply[..p.taken] == p.reply;
    assert sched(p.ops) != Move(0);
    assert Moves(sched, p.ops, 1) == (if sched(p.ops).Stall? then 0 else 1) + Moves(sched, p.ops + 1, 0);
  }

  /** At least as many bytes moved from `p` to `q` as operations were not stalls. */
  predicate Advanced(sched: Schedule, p: Peer, q: Peer) {
    q.ops >= p.ops && Moves(sched, p.ops, q.ops - p.ops) <= Progress(q) - Progress(p)
  }

  lemma AdvancedTransitive(sched: Schedule, p: Peer, q: Peer, r: Peer)
    requires Advanced(sched, p, q) && Advanced(sched, q, r)
    ensures Advanced(sched, p, r)
  {
    MovesSplit(sched, p.ops, q.ops - p.ops, r.ops - q.ops);
  }

  lemma {:induction false} PollProgresses(sched: Schedule, request: Text, t: State, p: Peer)
    requires Tunneling(request, t, p) && Fair(sched) && Decisive(p.reply, p.closed)
    ensures Sound(t, p)
    ensures var r := Poll(sched, t, p);
            r.outcome.NotReady? ==>
              r.peer.ops > p.ops && Advanced(sched, p, r.peer)
    decreases Work(t, p).0, Work(t, p).1
  {
    TurnKeeps(sched, request, t, p);
    TurnProgresses(sched, request, t, p);
    match Once(sched, t, p)
    case Again(t2, p2) =>
      PollProgresses(sched, request, t2, p2);
      var r := Poll(sched, t2, p2);
      if r.outcome.NotReady? { AdvancedTransitive(sched, p, p2, r.peer); }
    case Return(_) =>
  }

  lemma {:induction false} RunProgresses(sched: Schedule, request: Text, r: Polled, n: nat)
    requires r.outcome.NotReady? && Tunneling(request, r.state, r.peer)
    requires Fair(sched) && Decisive(r.peer.reply, r.peer.closed)
    ensures Sound(r.state, r.peer)
    ensures var q := Resume(sched, r, n);
            q.outcome.NotReady? ==> q.peer.ops >= r.peer.ops + n && Advanced(sched, r.peer, q.peer)
    decreases n
  {
    if n == 0 {
    } else {
      PollAgain(sched, request, r.state, r.peer);
      PollProgresses(sched, request, r.state, r.peer);
      var next := Poll(sched, r.state, r.peer);
      if next.outcome.NotReady? {
        RunProgresses(sched, request, next, n - 1);
        var q := Resume(sched, next, n - 1);
        if q.outcome.NotReady? { AdvancedTransitive(sched, r.peer, next.peer, q.peer); }
      }
    }
  }

  /** A fair run is over once the stream has been ready more often than there are bytes to move. */
  predicate LongEnough(sched: Schedule, request: Text, reply: Text, n: nat) {
    Moves(sched, 0, n) > |request| + |reply|
  }

  lemma FairRunEnds(sched: Schedule, request: Text, reply: Text, closed: bool, n: nat)
    requires Fair(sched) && Decisive(reply, closed) && LongEnough(sched, request, reply, n)
    ensures !Run(sched, request, reply, closed, n).outcome.NotReady?
  {
    RunProgresses(sched, request, Unpolled(request, reply, closed), n);
    WriteSafety(sched, request, reply, closed, n);
    var r := Run(sched, request, reply, closed, n);
    if r.outcome.NotReady? {
      MovesSplit(sched, 0, n, r.peer.ops - n);
    }
  }

  // --------------------------------------------------------------- the verdict and chunking

  /** Twelve bytes decide whether the reply says 200. */
  lemma TwelveBytesDecide(reply: Text, k: nat)
    requires 12 <= k <= |reply|
    ensures Says200(reply[..k]) <==> Says200(reply)
    ensures k > 12 ==> (Judge(reply[..k]).Rejected? <==> Judge(reply).Rejected?)
  {
    StartsWithMeans(reply, OK_11);
    StartsWithMeans(reply, OK_10);
    StartsWithMeans(reply[..k], OK_11);
    StartsWithMeans(reply[..k], OK_10);
    AtPrefix(reply, OK_11, k, 0);
    AtPrefix(reply, OK_10, k, 0);
  }

  /** Rejection is decided by the first 12 bytes: under every chunking, every suspension and both
      behaviours of the peer, a longer reply with another prefix is refused, and only such a one;
      a closed reply of 12 bytes or fewer is an unexpected end. */
  lemma RejectionIsDecidedByTwelveBytes(sched: Schedule, request: Text, reply: Text, closed: bool, n: nat)
    requires Fair(sched) && LongEnough(sched, request, reply, n)
    ensures Run(sched, request, reply, closed, n).outcome.Unsuccessful? <==> |reply| > 12 && !Begins200(reply)
    ensures |reply| <= 12 && closed ==> Run(sched, request, reply, closed, n).outcome.ReadEof?
  {
    Says200Means(reply);
    EveryEnding(sched, request, reply, closed, n);
    var r := Run(sched, request, reply, closed, n);
    NeverWriteEof(sched, request, reply, closed, n);
    if Decisive(reply, closed) { FairRunEnds(sched, request, reply, closed, n); }
    if r.peer.taken > 12 { TwelveBytesDecide(reply, r.peer.taken); }
    assert |reply[..r.peer.taken]| == r.peer.taken;
    assert reply[..|reply|] == reply;
  }

  lemma {:induction false} FairPollEnding(sched: Schedule, t: State, p: Peer)
    requires Sound(t, p) && Fair(sched)
    ensures !Poll(sched, t, p).outcome.WriteEof? && !Poll(sched, t, p).outcome.IoFailed?
    decreases Work(t, p).0, Work(t, p).1
  {
    if t.live {
      assert sched(p.ops) != Move(0);
      match Once(sched, t, p)
      case Again(t2, p2) => FairPollEnding(sched, t2, p2);
      case Return(_) =>
    }
  }

  lemma {:induction false} FairRunEnding(sched: Schedule, r: Polled, n: nat)
    requires Sound(r.state, r.peer) && Fair(sched) && !r.outcome.WriteEof? && !r.outcome.IoFailed?
    ensures var o := Resume(sched, r, n).outcome; !o.WriteEof? && !o.IoFailed?
    decreases n
  {
    if n > 0 && r.outcome.NotReady? {
      FairPollEnding(sched, r.state, r.peer);
      FairRunEnding(sched, Poll(sched, r.state, r.peer), n - 1);
    }
  }

  lemma NeverWriteEof(sched: Schedule, request: Text, reply: Text, closed: bool, n: nat)
    requires Fair(sched)
    ensures var o := Run(sched, request, reply, closed, n).outcome; !o.WriteEof? && !o.IoFailed?
  {
    FairRunEnding(sched, Unpolled(request, reply, closed), n);
  }

  predicate AcceptedAt(reply: Text, k: nat) { k <= |reply| && Judge(reply[..k]).Accepted? }

  predicate NoEarlierAccept(reply: Text, upTo: nat) {
    forall k :: 0 <= k < upTo ==> !AcceptedAt(reply, k)
  }

  /** A reply that is accepted at its end and at no earlier point. */
  predicate GoodHead(reply: Text) {
    AcceptedAt(reply, |reply|) && NoEarlierAccept(reply, |reply|)
  }

  /** In plainer terms: it is longer than 12 bytes, says 200, and its only CRLFCRLF is its end. */
  lemma GoodHeadMeans(reply: Text)
    ensures GoodHead(reply) <==> |reply| > 12 && Begins200(reply) && Position(reply, BLANK) == Found(|reply| - 4)
  {
    Says200Means(reply);
    assert reply[..|reply|] == reply;
    if |reply| > 12 && Says200(reply) {
      forall k | 4 <= k <= |reply| ensures AcceptedAt(reply, k) <==> At(reply, BLANK, k - 4) {
        AcceptedMeans(reply, k);
      }
      if GoodHead(reply) {
        forall j: nat | j < |reply| - 4 ensures !At(reply, BLANK, j) {
          assert !AcceptedAt(reply, j + 4);
        }
        PositionIs(reply, BLANK, |reply| - 4);
      }
      if Position(reply, BLANK) == Found(|reply| - 4) {
        forall k | 0 <= k < |reply| ensures !AcceptedAt(reply, k) {
          if k >= 4 { assert !At(reply, BLANK, k - 4); }
        }
      }
    }
  }

  lemma AcceptedMeans(reply: Text, k: nat)
    requires |reply| > 12 && Says200(reply) && 4 <= k <= |reply|
    ensures AcceptedAt(reply, k) <==> At(reply, BLANK, k - 4)
  {
    EndsWithMeans(reply[..k], BLANK);
    AtPrefix(reply, BLANK, k, k - 4);
    if k <= 12 { NoBlankInStatus(reply, k); } else { TwelveBytesDecide(reply, k); }
  }

  lemma NoBlankInStatus(reply: Text, k: nat)
    requires Says200(reply) && 4 <= k <= 12 && k <= |reply|
    ensures !At(reply, BLANK, k - 4)
  {
    AtFour(reply, k - 4);
    AtTwo(reply, k - 4);
    StartsWithMeans(reply, OK_11);
    StartsWithMeans(reply, OK_10);
    assert reply[k - 4] == reply[..12][k - 4];
  }

  /** Chunking independence: a good head is read exactly, under every chunking and every
      interleaving of unready operations, whether the peer then closes or stays silent. */
  lemma GoodHeadUnderEveryChunking(sched: Schedule, request: Text, reply: Text, closed: bool, n: nat)
    requires GoodHead(reply) && Fair(sched) && LongEnough(sched, request, reply, n)
    ensures var r := Run(sched, request, reply, closed, n);
            r.outcome == Ready && r.peer.taken == |reply| && r.peer.sent == request
  {
    assert reply[..|reply|] == reply;
    EveryEnding(sched, request, reply, closed, n);
    FairRunEnds(sched, request, reply, closed, n);
    NeverWriteEof(sched, request, reply, closed, n);
    var r := Run(sched, request, reply, closed, n);
    if r.peer.taken > 12 { TwelveBytesDecide(reply, r.peer.taken); }
    assert r.outcome.Ready? ==> AcceptedAt(reply, r.peer.taken);
  }

  // ------------------------------------------------------- and only good heads are that safe

  lemma OneByteTurn(sched: Schedule, request: Text, t: State, p: Peer)
    requires Tunneling(request, t, p) && sched(p.ops) == Move(1)
    ensures Sound(t, p)
    ensures match Once(sched, t, p)
            case Again(_, p2) => p2.taken == p.taken || (p2.taken == p.taken + 1 && t.mode.Reading?)
            case Return(r) => r.peer.taken == p.taken || (r.peer.taken == p.taken + 1 && t.mode.Reading?)
  {}

  lemma OneMoreLook(request: Text, t: State, p: Peer, taken: nat)
    requires Tunneling(request, t, p) && NoEarlierAccept(p.reply, p.taken) && taken <= |p.reply|
    requires taken == p.taken || (taken == p.taken + 1 && t.mode.Reading?)
    ensures NoEarlierAccept(p.reply, taken)
  {
    forall k | 0 <= k < taken ensures !AcceptedAt(p.reply, k) {
      if k == p.taken { assert t.buf == p.reply[..k]; }
    }
  }

  /** Reading byte by byte, every prefix is looked at. */
  lemma {:induction false} ByteByBytePoll(sched: Schedule, request: Text, t: State, p: Peer)
    requires Tunneling(request, t, p) && (forall k: nat :: sched(k) == Move(1)) && NoEarlierAccept(p.reply, p.taken)
    ensures Sound(t, p)
    ensures var r := Poll(sched, t, p);
            r.peer.reply == p.reply && r.peer.taken <= |p.reply| && NoEarlierAccept(p.reply, r.peer.taken)
    decreases Work(t, p).0, Work(t, p).1
  {
    TurnKeeps(sched, request, t, p);
    OneByteTurn(sched, request, t, p);
    match Once(sched, t, p)
    case Again(t2, p2) =>
      OneMoreLook(request, t, p, p2.taken);
      ByteByBytePoll(sched, request, t2, p2);
    case Return(r) =>
      OneMoreLook(request, t, p, r.peer.taken);
  }

  lemma {:induction false} ByteByByteRun(sched: Schedule, request: Text, r: Polled, n: nat)
    requires Sound(r.state, r.peer) && (r.outcome.NotReady? ==> Tunneling(request, r.state, r.peer))
    requires (forall k: nat :: sched(k) == Move(1)) && NoEarlierAccept(r.peer.reply, r.peer.taken)
    ensures var q := Resume(sched, r, n);
            q.peer.reply == r.peer.reply && q.peer.taken <= |q.peer.reply| && NoEarlierAccept(q.peer.reply, q.peer.taken)
    decreases n
  {
    if n > 0 && r.outcome.NotReady? {
      PollAgain(sched, request, r.state, r.peer);
      ByteByBytePoll(sched, request, r.state, r.peer);
      ByteByByteRun(sched, request, Poll(sched, r.state, r.peer), n - 1);
    }
  }

  lemma {:induction false} ByteByByteMoves(sched: Schedule, from: nat, n: nat)
    requires forall k: nat :: sched(k) == Move(1)
    ensures Moves(sched, from, n) == n
    decreases n
  {
    if n == 0 {
    } else {
      ByteByByteMoves(sched, from + 1, n - 1);
    }
  }

  /** Every fair and long enough run hands out the stream after exactly this reply. */
  ghost predicate SafeUnderEveryChunking(request: Text, reply: Text, closed: bool) {
    forall sched: Schedule, n: nat :: Fair(sched) && LongEnough(sched, request, reply, n) ==>
      Run(sched, request, reply, closed, n).outcome.Ready? && Run(sched, request, reply, closed, n).peer.taken == |reply|
  }

  /** The exact condition for chunking independence. */
  lemma ChunkingIndependentExactly(request: Text, reply: Text, closed: bool)
    ensures SafeUnderEveryChunking(request, reply, closed) <==> GoodHead(reply)
  {
    if GoodHead(reply) {
      forall sched: Schedule, n: nat | Fair(sched) && LongEnough(sched, request, reply, n)
        ensures Run(sched, request, reply, closed, n).outcome.Ready? && Run(sched, request, reply, closed, n).peer.taken == |reply|
      {
        GoodHeadUnderEveryChunking(sched, request, reply, closed, n);
      }
    } else {
      ByteByByteTells((k: nat) => Move(1), request, reply, closed);
    }
  }

  lemma ByteByByteTells(sched: Schedule, request: Text, reply: Text, closed: bool)
    requires forall k: nat :: sched(k) == Move(1)
    ensures SafeUnderEveryChunking(request, reply, closed) ==> GoodHead(reply)
  {
    var n := |request| + |reply| + 1;
    ByteByByteMoves(sched, 0, n);
    EveryEnding(sched, request, reply, closed, n);
    ByteByByteRun(sched, request, Unpolled(request, reply, closed), n);
    assert Fair(sched) && LongEnough(sched, request, reply, n);
    var r := Run(sched, request, reply, closed, n);
    assert r.outcome.Ready? ==> AcceptedAt(reply, r.peer.taken);
  }
}
