/** The CONNECT tunnel of src/proxy/tunnel.rs: write the request, then read the reply head, over
    a stream that may accept or deliver any number of bytes at a time, or none yet. */
module Tunnel {
  import opened Wrappers
  import opened Bytes
  import opened Wire

  // "HTTP/1.1 200" and "HTTP/1.0 200"
  const OK_11: Text := [72, 84, 84, 80, 47, 49, 46, 49, 32, 50, 48, 48]
  const OK_10: Text := [72, 84, 84, 80, 47, 49, 46, 48, 32, 50, 48, 48]

  datatype Mode = Writing | Reading

  /** `Tunnel`: the shared buffer with its cursor; `live` until the stream has been handed out. */
  datatype State = State(buf: Text, pos: nat, mode: Mode, live: bool)

  /** The proxy's side: what it has received, and how much of its reply has been read.  When the
      reply is exhausted it is either closed or silent. */
  datatype Peer = Peer(reply: Text, closed: bool, sent: Text, taken: nat, ops: nat)

  datatype Outcome = Ready | NotReady | WriteEof | ReadEof | Unsuccessful | IoFailed(code: int) | Panicked

  datatype Polled = Polled(state: State, peer: Peer, outcome: Outcome)

  lemma Spelling()
    ensures OK_11 == Ascii("HTTP/1.1 200") && OK_10 == Ascii("HTTP/1.0 200")
  {}

  /** The replies that open the tunnel begin with one of these twelve bytes. */
  predicate Begins200(t: Text) { Ascii("HTTP/1.1 200") <= t || Ascii("HTTP/1.0 200") <= t }

  lemma Says200Means(t: Text)
    ensures Says200(t) <==> Begins200(t)
  {
    Spelling();
    StartsWithMeans(t, OK_11);
    StartsWithMeans(t, OK_10);
  }

  predicate Says200(t: Text) { StartsWith(t, OK_11) || StartsWith(t, OK_10) }

  datatype Verdict = Undecided | Accepted | Rejected

  /** What the code makes of everything read so far (lines 97-110). */
  function Judge(read: Text): Verdict {
    if |read| <= 12 then Undecided
    else if !Says200(read) then Rejected
    else if EndsWith(read, BLANK) then Accepted
    else Undecided
  }

  /** How many bytes a write takes; unlike a read it may take none. */
  function Taken(upTo: nat, offered: nat): nat { if upTo < offered then upTo else offered }

  /** One iteration of the loop: go round again, or return. */
  datatype Turned = Again(state: State, peer: Peer) | Return(polled: Polled)

  /** Lines 79-86. */
  function WriteTurn(sched: Schedule, t: State, p: Peer): (r: Turned)
    requires t.mode.Writing? && t.pos <= |t.buf|
    ensures r.Return? ==> r.polled.state.pos <= |r.polled.state.buf| && r.polled.peer.reply == p.reply && r.polled.peer.taken == p.taken
    ensures r.Again? ==> r.peer.taken == p.taken && r.peer.reply == p.reply && r.peer.closed == p.closed
    ensures r.Again? ==> r.state.mode.Reading? || (r.state.buf == t.buf && t.pos < r.state.pos <= |t.buf|)
  {
    if t.pos == |t.buf| then Again(t.(mode := Reading, buf := []), p)  // nothing to write
    else
      var p1 := p.(ops := p.ops + 1);
      match sched(p.ops)
      case Stall => Return(Polled(t, p1, NotReady))
      case Fault(code) => Return(Polled(t, p1, IoFailed(code)))
      case Move(upTo) =>
        var n := Taken(upTo, |t.buf| - t.pos);
        var p2 := p1.(sent := p.sent + t.buf[t.pos..t.pos + n]);
        var t2 := t.(pos := t.pos + n);
        if t2.pos == |t.buf| then Again(t2.(mode := Reading, buf := []), p2)
        else if n == 0 then Return(Polled(t2, p2, WriteEof))
        else Again(t2, p2)
  }

  /** Lines 88-111. */
  function ReadTurn(sched: Schedule, t: State, p: Peer): (r: Turned)
    requires t.mode.Reading? && p.taken <= |p.reply|
    ensures r.Return? ==> r.polled.state.mode.Reading? && r.polled.peer.taken <= |r.polled.peer.reply|
    ensures r.Again? ==> r.state.mode.Reading? && r.peer.reply == p.reply && p.taken < r.peer.taken <= |p.reply|
  {
    var p1 := p.(ops := p.ops + 1);
    match sched(p.ops)
    case Stall => Return(Polled(t, p1, NotReady))
    case Fault(code) => Return(Polled(t, p1, IoFailed(code)))
    case Move(upTo) =>
      if p.taken == |p.reply| then Return(Polled(t, p1, if p.closed then ReadEof else NotReady))
      else
        var n := Amount(upTo, |p.reply| - p.taken, |p.reply| - p.taken);
        var p2 := p1.(taken := p.taken + n);
        var t2 := t.(buf := t.buf + p.reply[p.taken..p.taken + n]);
        match Judge(t2.buf)
        case Accepted => Return(Polled(t2.(live := false), p2, Ready))
        case Rejected => Return(Polled(t2, p2, Unsuccessful))
        case Undecided => Again(t2, p2)
  }

  predicate Sound(t: State, p: Peer) { (t.pos <= |t.buf| || t.mode.Reading?) && p.taken <= |p.reply| }

  /** What is left to do: the request's bytes, then the reply's. */
  function Work(t: State, p: Peer): (nat, nat)
    requires Sound(t, p)
  {
    if t.mode.Writing? then (1, |t.buf| - t.pos) else (0, |p.reply| - p.taken)
  }

  function Once(sched: Schedule, t: State, p: Peer): (r: Turned)
    requires Sound(t, p)
    ensures r.Again? ==> Sound(r.state, r.peer)
    ensures r.Again? && t.mode.Reading? ==> r.state.mode.Reading? && |r.peer.reply| - r.peer.taken < |p.reply| - p.taken
    ensures r.Again? && t.mode.Writing? && r.state.mode.Writing? ==> |r.state.buf| - r.state.pos < |t.buf| - t.pos
  {
    if t.mode.Writing? then WriteTurn(sched, t, p) else ReadTurn(sched, t, p)
  }

  /** `Tunnel::poll` (lines 73-114).  A poll ends because it runs out of bytes to write, then of
      bytes to read. */
  function Poll(sched: Schedule, t: State, p: Peer): (r: Polled)
    requires Sound(t, p)
    ensures Sound(r.state, r.peer)
    decreases Work(t, p).0, Work(t, p).1
  {
    if !t.live then Polled(t, p, Panicked)
    else
      match Once(sched, t, p)
      case Return(polled) => polled
      case Again(t2, p2) => Poll(sched, t2, p2)
  }

  /** `TunnelConnect::with_stream`. */
  function Fresh(request: Text): State { State(request, 0, Writing, true) }

  function Waiting(reply: Text, closed: bool): Peer { Peer(reply, closed, [], 0, 0) }

  // ---------------------------------------------------------------------------- the object

  /** The stream: every operation on it meets the next turn of its schedule. */
  class Stream {
    const sched: Schedule
    var peer: Peer

    ghost predicate Valid()
      reads this
    {
      peer.taken <= |peer.reply|
    }

    constructor (sched: Schedule, reply: Text, closed: bool)
      ensures Valid() && this.sched == sched && peer == Waiting(reply, closed)
    {
      this.sched := sched;
      peer := Waiting(reply, closed);
    }

    /** `write`: takes a prefix of what is offered. */
    method Write(offered: Text) returns (r: Delivery)
      requires Valid() && offered != []
      modifies this
      ensures Valid()
      ensures match sched(old(peer).ops)
              case Stall => r == Pending && peer == old(peer).(ops := old(peer).ops + 1)
              case Fault(code) => r == Broken(code) && peer == old(peer).(ops := old(peer).ops + 1)
              case Move(upTo) =>
                && r == Got(Taken(upTo, |offered|))
                && peer == old(peer).(ops := old(peer).ops + 1, sent := old(peer).sent + offered[..r.n])
    {
      var turn := sched(peer.ops);
      peer := peer.(ops := peer.ops + 1);
      match turn {
        case Stall => return Pending;
        case Fault(code) => return Broken(code);
        case Move(upTo) =>
          var n := Taken(upTo, |offered|);
          peer := peer.(sent := peer.sent + offered[..n]);
          return Got(n);
      }
    }

    /** `read_buf`: at least one byte, or none at the end of a closed reply. */
    method Read() returns (r: Delivery, bytes: Text)
      requires Valid()
      modifies this
      ensures Valid()
      ensures match sched(old(peer).ops)
              case Stall => r == Pending && peer == old(peer).(ops := old(peer).ops + 1)
              case Fault(code) => r == Broken(code) && peer == old(peer).(ops := old(peer).ops + 1)
              case Move(upTo) =>
                var available := |old(peer).reply| - old(peer).taken;
                if available == 0 then
                  r == (if old(peer).closed then Got(0) else Pending) && bytes == [] && peer == old(peer).(ops := old(peer).ops + 1)
                else
                  && r == Got(Amount(upTo, available, available))
                  && bytes == old(peer).reply[old(peer).taken..old(peer).taken + r.n]
                  && peer == old(peer).(ops := old(peer).ops + 1, taken := old(peer).taken + r.n)
    {
      bytes := [];
      var turn := sched(peer.ops);
      peer := peer.(ops := peer.ops + 1);
      match turn {
        case Stall => r := Pending;
        case Fault(code) => r := Broken(code);
        case Move(upTo) =>
          var available := |peer.reply| - peer.taken;
          if available == 0 {
            r := if peer.closed then Got(0) else Pending;
          } else {
            r := Got(Amount(upTo, available, available));
            bytes := peer.reply[peer.taken..peer.taken + r.n];
            peer := peer.(taken := peer.taken + r.n);
          }
      }
    }
  }

  class Tunnel {
    var buf: Text
    var pos: nat
    var mode: Mode
    var stream: Option<Stream>
    const io: Stream  // the stream it was made with

    function View(): State
      reads this
    {
      State(buf, pos, mode, stream.Some?)
    }

    ghost predicate Valid()
      reads this, io
    {
      (stream.Some? ==> stream.value == io) && io.Valid() && (pos <= |buf| || mode.Reading?)
    }

    constructor (request: Text, stream: Stream)
      requires stream.Valid()
      ensures Valid() && View() == Fresh(request) && io == stream
    {
      buf, pos, mode, this.stream, io := request, 0, Writing, Some(stream), stream;
    }

    /** The writing half of the loop body; none means: go round again. */
    method WriteOnce() returns (r: Option<Outcome>)
      requires Valid() && stream.Some? && mode.Writing?
      modifies this, io
      ensures Valid()
      ensures match WriteTurn(io.sched, old(View()), old(io.peer))
              case Again(t, p) => r == None && View() == t && io.peer == p
              case Return(polled) => r == Some(polled.outcome) && View() == polled.state && io.peer == polled.peer
    {
      var n := 0;
      if pos < |buf| {
        var w := stream.value.Write(buf[pos..]);
        if w.Pending? {
          return Some(NotReady);
        }
        if w.Broken? {
          return Some(IoFailed(w.code));
        }
        n := w.n;
        assert buf[pos..][..n] == buf[pos..pos + n];
        pos := pos + n;
      }
      if pos == |buf| {
        mode := Reading;
        buf := [];
      } else if n == 0 {
        return Some(WriteEof);
      }
      return None;
    }

    /** The reading half. */
    method ReadOnce() returns (r: Option<Outcome>)
      requires Valid() && stream.Some? && mode.Reading?
      modifies this, io
      ensures Valid()
      ensures match ReadTurn(io.sched, old(View()), old(io.peer))
              case Again(t, p) => r == None && View() == t && io.peer == p
              case Return(polled) => r == Some(polled.outcome) && View() == polled.state && io.peer == polled.peer
    {
      var w, bytes := stream.value.Read();
      if w.Pending? {
        return Some(NotReady);
      }
      if w.Broken? {
        return Some(IoFailed(w.code));
      }
      if w.n == 0 {
        return Some(ReadEof);
      }
      buf := buf + bytes;
      r := Decide();
    }

    /** What the code does after a read that delivered something (lines 97-110). */
    method Decide() returns (r: Option<Outcome>)
      requires stream.Some?
      modifies this
      ensures stream == old(stream) || stream == None
      ensures match Judge(old(buf))
              case Undecided => r == None && View() == old(View())
              case Accepted => r == Some(Ready) && View() == old(View()).(live := false)
              case Rejected => r == Some(Unsuccessful) && View() == old(View())
    {
      if |buf| > 12 {
        if StartsWith(buf, OK_11) || StartsWith(buf, OK_10) {
          if EndsWith(buf, BLANK) {
            stream := None;
            return Some(Ready);
          }
          // else read more
        } else {
          return Some(Unsuccessful);
        }
      }
      return None;
    }

    method PollOnce() returns (outcome: Outcome)
      requires Valid()
      modifies this, io
      ensures Valid()
      ensures Polled(View(), io.peer, outcome) == Poll(io.sched, old(View()), old(io.peer))
    {
      if stream.None? {
        return Panicked;  // "must not poll after future is complete"
      }
      while true
        invariant Valid() && stream.Some?
        invariant Poll(io.sched, View(), io.peer) == Poll(io.sched, old(View()), old(io.peer))
        decreases if mode.Writing? then 1 else 0,
                  if mode.Writing? then |buf| - pos else |io.peer.reply| - io.peer.taken
      {
        var r;
        if mode.Writing? {
          r := WriteOnce();
        } else {
          r := ReadOnce();
        }
        if r.Some? {
          return r.value;
        }
      }
    }
  }
}
