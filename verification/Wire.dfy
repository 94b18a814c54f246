/** The reading end of a connection whose peer sends a fixed stream of bytes and then closes.

    A schedule says what every single operation meets: nothing yet, some bytes, or an I/O error.
    It ranges over all functions, so a statement about every schedule is a statement about every
    chunking of the stream and every pattern of suspensions. */
module Wire {
  import opened Bytes

  datatype Turn = Stall | Move(upTo: nat) | Fault(code: int)
  type Schedule = nat -> Turn

  datatype Delivery = Pending | Got(n: nat) | Broken(code: int)

  /** A read that completes delivers at least one byte while there is room and stream left;
      delivering none means one of the two ran out. */
  function Amount(upTo: nat, room: nat, available: nat): (n: nat)
    ensures n <= room && n <= available && (n == 0 <==> room == 0 || available == 0)
    ensures upTo >= 1 ==> n <= upTo
  {
    var want := if upTo == 0 then 1 else upTo;
    var fits := if want < room then want else room;
    if fits < available then fits else available
  }

  function ReadResult(turn: Turn, room: nat, available: nat): Delivery {
    match turn
    case Stall => Pending
    case Fault(code) => Broken(code)
    case Move(upTo) => Got(Amount(upTo, room, available))
  }

  /** An awaited read returns only when it has completed: the turn on which it was unready is
      the one whose delivery ended the wait. */
  function Awaited(turn: Turn): Turn { if turn.Stall? then Move(1) else turn }

  ghost predicate FaultFree(sched: Schedule) {
    forall k: nat :: !sched(k).Fault?
  }

  /** How many of the operations `from`, .., `from + n - 1` are not stalls. */
  function Moves(sched: Schedule, from: nat, n: nat): nat
    decreases n
  {
    if n == 0 then 0 else (if sched(from).Stall? then 0 else 1) + Moves(sched, from + 1, n - 1)
  }

  lemma {:induction false} MovesSplit(sched: Schedule, from: nat, a: nat, b: nat)
    ensures Moves(sched, from, a + b) == Moves(sched, from, a) + Moves(sched, from + a, b)
    decreases a
  {
    if a == 0 {
    } else {
      MovesSplit(sched, from + 1, a - 1, b);
    }
  }

  class Conn {
    const stream: Text
    const sched: Schedule
    var ops: nat
    var taken: nat

    ghost predicate Valid()
      reads this
    {
      taken <= |stream|
    }

    /** The bytes that no read has delivered yet. */
    function Unread(): Text
      requires Valid()
      reads this
    {
      stream[taken..]
    }

    constructor (stream: Text, sched: Schedule)
      ensures Valid() && this.stream == stream && this.sched == sched && ops == 0 && taken == 0
    {
      this.stream, this.sched, ops, taken := stream, sched, 0, 0;
    }

    /** Reads into `buf[from..]`; `awaited` for an async read, else one poll. */
    method Read(buf: array<byte>, from: nat, awaited: bool) returns (r: Delivery)
      requires Valid() && from <= buf.Length
      modifies this, buf
      ensures Valid() && ops == old(ops) + 1
      ensures r == ReadResult(if awaited then Awaited(sched(old(ops))) else sched(old(ops)),
                              buf.Length - from, |old(Unread())|)
      ensures r.Got? ==> from + r.n <= buf.Length && r.n <= |old(Unread())|
      ensures r.Got? ==> buf[..from] == old(buf[..from]) && buf[from..from + r.n] == old(Unread())[..r.n]
                         && Unread() == old(Unread())[r.n..] && taken == old(taken) + r.n
      ensures !r.Got? ==> buf[..] == old(buf[..]) && taken == old(taken)
    {
      var turn := if awaited then Awaited(sched(ops)) else sched(ops);
      ops := ops + 1;
      r := ReadResult(turn, buf.Length - from, |stream| - taken);
      if r.Got? {
        forall i | 0 <= i < r.n {
          buf[from + i] := stream[taken + i];
        }
        taken := taken + r.n;
      }
    }
  }
}
