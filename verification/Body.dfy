/** The response body stream of src/body.rs. */
module Body {
  import opened Wrappers
  import opened Bytes
  import opened Wire

  /** `Poll<Option<io::Result<Vec<u8>>>>`, and the arithmetic underflow of line 67. */
  datatype Item = Waiting | Chunk(bytes: Text) | End | Failed(code: int) | Panicked

  datatype State = State(drained: bool, rest: Option<Text>, counter: nat, limit: Option<nat>)

  /** How far the connection has been read. */
  datatype Feed = Feed(ops: nat, taken: nat)

  datatype Polled = Polled(state: State, feed: Feed, item: Item)

  const BUFFER_SIZE: nat := 4096

  /** By how much the counter is past the limit. */
  function Excess(counter: nat, limit: Option<nat>): nat {
    if limit.Some? && counter > limit.value then counter - limit.value else 0
  }

  /** `poll_next` (lines 50-83) on a connection with the given schedule and stream. */
  function PollNext(sched: Schedule, stream: Text, s: State, f: Feed): (p: Polled)
    requires f.taken <= |stream|
    ensures f.taken <= p.feed.taken <= |stream|
  {
    if s.drained then Polled(s, f, End)
    else if s.rest.Some? then Polled(s.(rest := None), f, Chunk(s.rest.value))
    else
      match ReadResult(sched(f.ops), BUFFER_SIZE, |stream| - f.taken)
      case Pending => Polled(s, f.(ops := f.ops + 1), Waiting)
      case Broken(code) => Polled(s.(drained := true), f.(ops := f.ops + 1), Failed(code))
      case Got(n) =>
        var counter := s.counter + n;
        var over := Excess(counter, s.limit);
        var s1, f1 := s.(counter := counter), Feed(f.ops + 1, f.taken + n);
        if over > n then Polled(s1, f1, Panicked)
        else if n - over > 0 then Polled(s1, f1, Chunk(stream[f.taken..f.taken + n][..n - over]))
        else Polled(s1, f1, End)
  }

  class Body {
    var drained: bool
    var rest: Option<Text>
    const buf: array<byte>
    var counter: nat
    const limit: Option<nat>
    const reader: Conn

    ghost predicate Valid()
      reads this, reader
    {
      reader.Valid() && buf.Length == BUFFER_SIZE
    }

    function View(): State
      reads this
    {
      State(drained, rest, counter, limit)
    }

    /** `Body::new` (lines 32-44). */
    constructor (reader: Conn, rest: Option<Text>, contentLength: Option<nat>)
      requires reader.Valid()
      ensures Valid() && this.reader == reader && fresh(buf)
      ensures View() == State(false, rest, 0, contentLength)
    {
      buf := new byte[BUFFER_SIZE];
      drained, this.rest, counter, limit, this.reader := false, rest, 0, contentLength, reader;
    }

    method PollNextItem() returns (item: Item)
      requires Valid()
      modifies this, buf, reader
      ensures Valid()
      ensures Polled(View(), Feed(reader.ops, reader.taken), item) ==
              PollNext(reader.sched, reader.stream, old(View()), old(Feed(reader.ops, reader.taken)))
    {
      if drained {
        return End;
      }
      if rest.Some? {
        var vec := rest.value;
        rest := None;
        return Chunk(vec);
      }
      var r := reader.Read(buf, 0, false);
      match r {
        case Pending =>
          return Waiting;
        case Got(read) =>
          var n := read;
          counter := counter + n;
          if limit.Some? && counter > limit.value {
            if counter - limit.value > n {
              return Panicked;
            }
            n := n - (counter - limit.value);
          }
          if n > 0 {
            assert buf[..n] == buf[0..read][..n];
            assert old(reader.Unread())[..read] == reader.stream[old(reader.taken)..old(reader.taken) + read];
            return Chunk(buf[..n]);
          } else {
            return End;
          }
        case Broken(code) =>
          drained := true;
          return Failed(code);
      }
    }
  }

  // ------------------------------------------------------------------------------ whole runs

  /** What a consumer has after up to `n` polls: it joins the chunks, polls again when the
      stream is not ready, and stops at the end, an error or a panic. */
  datatype Drained = Drained(state: State, feed: Feed, bytes: Text, last: Item)

  function Drain(sched: Schedule, stream: Text, s: State, f: Feed, got: Text, n: nat): (r: Drained)
    requires f.taken <= |stream|
    decreases n
  {
    if n == 0 then Drained(s, f, got, Waiting)
    else
      var p := PollNext(sched, stream, s, f);
      match p.item
      case Waiting => Drain(sched, stream, p.state, p.feed, got, n - 1)
      case Chunk(bytes) => Drain(sched, stream, p.state, p.feed, got + bytes, n - 1)
      case _ => Drained(p.state, p.feed, got, p.item)
  }

  /** A fresh body: `rest` is what the head's last read left over, and the connection has been
      read up to `f`. */
  function DrainAll(sched: Schedule, stream: Text, f: Feed, rest: Text, limit: Option<nat>, n: nat): Drained
    requires f.taken <= |stream|
  {
    Drain(sched, stream, State(false, Some(rest), 0, limit), f, [], n)
  }

  /** The consumer of examples/simple.rs:18-24, with a bound on the number of polls. */
  method Collect(body: Body, n: nat) returns (bytes: Text, last: Item)
    requires body.Valid()
    modifies body, body.buf, body.reader
    ensures body.Valid()
    ensures Drained(body.View(), Feed(body.reader.ops, body.reader.taken), bytes, last) ==
            Drain(body.reader.sched, body.reader.stream, old(body.View()),
                  old(Feed(body.reader.ops, body.reader.taken)), [], n)
  {
    bytes, last := [], Waiting;
    var left: nat := n;
    while left > 0
      invariant body.Valid() && 0 <= left <= n && last == Waiting
      invariant Drain(body.reader.sched, body.reader.stream, body.View(), Feed(body.reader.ops, body.reader.taken), bytes, left) ==
                Drain(body.reader.sched, body.reader.stream, old(body.View()),
                      old(Feed(body.reader.ops, body.reader.taken)), [], n)
    {
      var item := body.PollNextItem();
      match item {
        case Waiting =>
        case Chunk(chunk) => bytes := bytes + chunk;
        case _ =>
          last := item;
          return;
      }
      left := left - 1;
    }
  }

  /** The first `limit` bytes, or everything. */
  function Cut(t: Text, limit: Option<nat>): Text {
    if limit.Some? && limit.value < |t| then t[..limit.value] else t
  }

  /** Between polls, once the rest has been delivered: the counter counts the bytes read since
      `from`, and those within the limit have been delivered after the rest. */
  predicate Streaming(stream: Text, from: nat, rest: Text, s: State, f: Feed, got: Text) {
    && !s.drained && s.rest.None?
    && from <= f.taken <= |stream| && s.counter == f.taken - from
    && got == rest + Cut(stream[from..f.taken], s.limit)
  }

  predicate Overshot(s: State) { s.limit.Some? && s.counter > s.limit.value }

  /** What a run that started at `from` has come to. */
  predicate Conserved(stream: Text, from: nat, rest: Text, d: Drained, limit: Option<nat>) {
    && from <= d.feed.taken <= |stream|
    && d.bytes == rest + Cut(stream[from..d.feed.taken], limit)
    && (d.last.End? ==> d.feed.taken == |stream| || (limit.Some? && d.feed.taken - from > limit.value))
    && (d.last.Panicked? ==> limit.Some? && |stream| - from > limit.value)
  }

  /** What `more` adds to a cut text: all of it, the part below the limit, or nothing. */
  lemma CutGrows(t: Text, more: Text, limit: Option<nat>)
    ensures var over := Excess(|t| + |more|, limit);
            Cut(t + more, limit) == Cut(t, limit) + if over <= |more| then more[..|more| - over] else []
  {
    if limit.Some? && |t| + |more| > limit.value {
      if |t| > limit.value {
        assert (t + more)[..limit.value] == t[..limit.value];
      } else {
        assert (t + more)[..limit.value] == t + more[..limit.value - |t|];
      }
    }
  }

  /** What one poll leaves behind: a streaming state with the chunk added, or an ending. */
  predicate PollOutcome(stream: Text, from: nat, rest: Text, s: State, f: Feed, got: Text, p: Polled) {
    && p.feed.taken <= |stream|
    && match p.item
       case Waiting => p.state == s && p.feed.taken == f.taken
       case Chunk(bytes) => !Overshot(s) && Streaming(stream, from, rest, p.state, p.feed, got + bytes)
       case End => && from <= p.feed.taken && got == rest + Cut(stream[from..p.feed.taken], s.limit)
                   && (p.feed.taken == |stream| || Overshot(p.state)) && p.state.counter == p.feed.taken - from
       case Failed(_) => p.feed.taken == f.taken
       case Panicked => Overshot(s) && from <= p.feed.taken && got == rest + Cut(stream[from..p.feed.taken], s.limit)
  }

  /** A read that got `n` bytes, not all of them past the limit. */
  lemma ReadDelivers(sched: Schedule, stream: Text, from: nat, rest: Text, s: State, f: Feed, got: Text, n: nat)
    requires Streaming(stream, from, rest, s, f, got)
    requires ReadResult(sched(f.ops), BUFFER_SIZE, |stream| - f.taken) == Got(n)
    requires Excess(s.counter + n, s.limit) < n
    ensures PollOutcome(stream, from, rest, s, f, got, PollNext(sched, stream, s, f))
  {
    CutOfStream(stream, from, f.taken, n, s.limit);
    var bytes := stream[f.taken..f.taken + n][..n - Excess(s.counter + n, s.limit)];
    var before := Cut(stream[from..f.taken], s.limit);
    assert (rest + before) + bytes == rest + (before + bytes);
  }

  /** A read of nothing, or of bytes all past the limit. */
  lemma ReadEnds(sched: Schedule, stream: Text, from: nat, rest: Text, s: State, f: Feed, got: Text, n: nat)
    requires Streaming(stream, from, rest, s, f, got)
    requires ReadResult(sched(f.ops), BUFFER_SIZE, |stream| - f.taken) == Got(n)
    requires Excess(s.counter + n, s.limit) >= n
    ensures PollOutcome(stream, from, rest, s, f, got, PollNext(sched, stream, s, f))
  {
    CutOfStream(stream, from, f.taken, n, s.limit);
    var before := Cut(stream[from..f.taken], s.limit);
    assert before + [] == before && before + stream[f.taken..f.taken + n][..0] == before;
  }

  /** One poll: what it adds to the delivered bytes, unless an earlier read overshot. */
  lemma PollConserves(sched: Schedule, stream: Text, from: nat, rest: Text, s: State, f: Feed, got: Text)
    requires Streaming(stream, from, rest, s, f, got)
    ensures PollOutcome(stream, from, rest, s, f, got, PollNext(sched, stream, s, f))
  {
    var r := ReadResult(sched(f.ops), BUFFER_SIZE, |stream| - f.taken);
    if r.Got? {
      if Excess(s.counter + r.n, s.limit) < r.n {
        ReadDelivers(sched, stream, from, rest, s, f, got, r.n);
      } else {
        ReadEnds(sched, stream, from, rest, s, f, got, r.n);
      }
    }
  }

  lemma SliceSplits(stream: Text, a: nat, b: nat, c: nat)
    requires a <= b <= c <= |stream|
    ensures stream[a..c] == stream[a..b] + stream[b..c]
  {}

  lemma CutOfStream(stream: Text, from: nat, taken: nat, n: nat, limit: Option<nat>)
    requires from <= taken <= taken + n <= |stream|
    ensures var over := Excess(taken - from + n, limit);
            Cut(stream[from..taken + n], limit) ==
            Cut(stream[from..taken], limit) + if over <= n then stream[taken..taken + n][..n - over] else []
  {
    SliceSplits(stream, from, taken, taken + n);
    CutGrows(stream[from..taken], stream[taken..taken + n], limit);
  }

  lemma {:induction false} DrainConserves(sched: Schedule, stream: Text, from: nat, rest: Text, s: State, f: Feed, got: Text, n: nat)
    requires Streaming(stream, from, rest, s, f, got)
    ensures Conserved(stream, from, rest, Drain(sched, stream, s, f, got, n), s.limit)
    decreases n
  {
    if n == 0 {
    } else {
      PollConserves(sched, stream, from, rest, s, f, got);
      var p := PollNext(sched, stream, s, f);
      match p.item
      case Waiting => DrainConserves(sched, stream, from, rest, p.state, p.feed, got, n - 1);
      case Chunk(bytes) => DrainConserves(sched, stream, from, rest, p.state, p.feed, got + bytes, n - 1);
      case _ =>
    }
  }

  /** Body conservation: at every point of every run, for any chunking, any suspensions and even
      I/O errors, what was delivered is the rest followed by the bytes read so far, those cut at
      the limit.  The stream ends only when the connection has, or when the limit was passed. */
  lemma BodyConservation(sched: Schedule, stream: Text, f: Feed, rest: Text, limit: Option<nat>, n: nat)
    requires f.taken <= |stream| && n > 0
    ensures Conserved(stream, f.taken, rest, DrainAll(sched, stream, f, rest, limit, n), limit)
  {
    assert [] + rest == rest + Cut(stream[f.taken..f.taken], limit);
    DrainConserves(sched, stream, f.taken, rest, State(false, None, 0, limit), f, [] + rest, n - 1);
  }

  // -------------------------------------------------------------------- the ends of a stream

  /** The last result of a run, if it is an error, is that of the connection's last operation, and
      only then is the stream drained. */
  predicate EndsTruly(sched: Schedule, d: Drained) {
    match d.last
    case Failed(code) => d.state.drained && d.feed.ops > 0 && sched(d.feed.ops - 1) == Fault(code)
    case _ => !d.state.drained
  }

  lemma {:induction false} DrainEndsTruly(sched: Schedule, stream: Text, s: State, f: Feed, got: Text, n: nat)
    requires f.taken <= |stream| && !s.drained
    ensures EndsTruly(sched, Drain(sched, stream, s, f, got, n))
    decreases n
  {
    if n == 0 {
    } else {
      var p := PollNext(sched, stream, s, f);
      match p.item
      case Waiting => DrainEndsTruly(sched, stream, p.state, p.feed, got, n - 1);
      case Chunk(bytes) => DrainEndsTruly(sched, stream, p.state, p.feed, got + bytes, n - 1);
      case _ =>
    }
  }

  /** An error is passed on with its code and is the last thing a stream delivers: every further
      poll is the end, and leaves the connection alone. */
  lemma ErrorsEndTheStream(sched: Schedule, stream: Text, f: Feed, rest: Text, limit: Option<nat>, n: nat)
    requires f.taken <= |stream|
    ensures var d := DrainAll(sched, stream, f, rest, limit, n);
            && d.feed.taken <= |stream|
            && (d.last.Failed? ==>
                  && d.feed.ops > 0 && sched(d.feed.ops - 1) == Fault(d.last.code)
                  && PollNext(sched, stream, d.state, d.feed) == Polled(d.state, d.feed, End))
  {
    DrainEndsTruly(sched, stream, State(false, Some(rest), 0, limit), f, [], n);
    if n > 0 { BodyConservation(sched, stream, f, rest, limit, n); }
  }

  /** The rest comes first, without a look at the connection; then every poll makes one read of at
      most 4096 bytes, and is unready exactly when that read is. */
  lemma PollsReadOnce(sched: Schedule, stream: Text, s: State, f: Feed)
    requires f.taken <= |stream| && !s.drained
    ensures var p := PollNext(sched, stream, s, f);
            if s.rest.Some? then p.item == Chunk(s.rest.value) && p.feed == f && p.state == s.(rest := None)
            else
              && p.feed.ops == f.ops + 1 && p.feed.taken - f.taken <= 4096
              && (p.item.Waiting? <==> sched(f.ops).Stall?)
              && (sched(f.ops).Move? && sched(f.ops).upTo >= 4096 && |stream| - f.taken >= 4096 ==>
                    p.feed.taken == f.taken + 4096)
  {}

  // ------------------------------------------------------------------------------- progress

  lemma {:induction false} DrainEnds(sched: Schedule, stream: Text, s: State, f: Feed, got: Text, n: nat)
    requires !s.drained && s.rest.None? && f.taken <= |stream|
    requires Moves(sched, f.ops, n) > |stream| - f.taken
    ensures var last := Drain(sched, stream, s, f, got, n).last; !last.Waiting? && !last.Chunk?
    decreases n
  {
    var p := PollNext(sched, stream, s, f);
    match p.item
    case Waiting => DrainEnds(sched, stream, p.state, p.feed, got, n - 1);
    case Chunk(bytes) => DrainEnds(sched, stream, p.state, p.feed, got + bytes, n - 1);
    case _ =>
  }

  lemma {:induction false} NoFaultNoFailure(sched: Schedule, stream: Text, s: State, f: Feed, got: Text, n: nat)
    requires FaultFree(sched) && !s.drained && f.taken <= |stream|
    ensures !Drain(sched, stream, s, f, got, n).last.Failed?
    decreases n
  {
    if n == 0 {
    } else {
      var p := PollNext(sched, stream, s, f);
      match p.item
      case Waiting => NoFaultNoFailure(sched, stream, p.state, p.feed, got, n - 1);
      case Chunk(bytes) => NoFaultNoFailure(sched, stream, p.state, p.feed, got + bytes, n - 1);
      case _ =>
    }
  }

  /** A connection that never fails and delivers no more than the limit is drained completely and
      without a panic, once it has been ready often enough. */
  lemma WithinLimitNothingIsLost(sched: Schedule, stream: Text, f: Feed, rest: Text, limit: Option<nat>, n: nat)
    requires f.taken <= |stream| && FaultFree(sched) && (limit.Some? ==> |stream| - f.taken <= limit.value)
    requires Moves(sched, f.ops, n) > |stream| - f.taken
    ensures var d := DrainAll(sched, stream, f, rest, limit, n + 1);
            d.last == End && d.bytes == rest + stream[f.taken..]
  {
    BodyConservation(sched, stream, f, rest, limit, n + 1);
    DrainEnds(sched, stream, State(false, None, 0, limit), f, [] + rest, n);
    NoFaultNoFailure(sched, stream, State(false, Some(rest), 0, limit), f, [], n + 1);
    assert stream[f.taken..|stream|] == stream[f.taken..];
  }

  // ------------------------------------------------------------------ when a poll can panic

  /** One byte at a time up to the byte before the limit, then two at once. */
  function Straddle(limit: nat, k: nat): Turn {
    if k < limit - 1 then Move(1) else Move(2)
  }

  lemma {:induction false} StraddlingPanics(sched: Schedule, stream: Text, limit: nat, base: nat, counter: nat, f: Feed, got: Text, n: nat)
    requires forall k: nat :: k >= base ==> sched(k) == Straddle(limit, k - base)
    requires f.ops == base + counter && counter <= f.taken <= |stream| && limit < |stream| - (f.taken - counter)
    requires counter < limit && n >= limit - counter + 1
    ensures Drain(sched, stream, State(false, None, counter, Some(limit)), f, got, n).last == Panicked
    decreases limit - counter
  {
    var s := State(false, None, counter, Some(limit));
    var p := PollNext(sched, stream, s, f);
    if counter < limit - 1 {
      assert p.item.Chunk? && p.state == s.(counter := counter + 1) && p.feed == Feed(f.ops + 1, f.taken + 1);
      StraddlingPanics(sched, stream, limit, base, counter + 1, p.feed, got + p.item.bytes, n - 1);
    } else {
      assert p.item.Chunk? && p.state.counter == limit + 1;
      var q := PollNext(sched, stream, p.state, p.feed);
      assert q.item == Panicked;
    }
  }

  ghost predicate NeverPanics(stream: Text, f: Feed, rest: Text, limit: Option<nat>)
    requires f.taken <= |stream|
  {
    forall sched: Schedule, n: nat :: !DrainAll(sched, stream, f, rest, limit, n).last.Panicked?
  }

  /** The subtraction of line 67 underflows when a read passes the limit and the stream is polled
      again.  Draining is safe under every chunking exactly when the connection cannot deliver
      more than the limit, or the limit is zero (then the overshooting read itself ends it). */
  lemma PanicFreeExactly(stream: Text, f: Feed, rest: Text, limit: Option<nat>)
    requires f.taken <= |stream|
    ensures NeverPanics(stream, f, rest, limit) <==>
            limit.None? || |stream| - f.taken <= limit.value || limit.value == 0
  {
    if limit.None? || |stream| - f.taken <= limit.value || limit.value == 0 {
      forall sched: Schedule, n: nat ensures !DrainAll(sched, stream, f, rest, limit, n).last.Panicked? {
        if n > 0 {
          BodyConservation(sched, stream, f, rest, limit, n);
          if limit == Some(0) {
            ZeroLimitEnds(sched, stream, State(false, None, 0, limit), f, [] + rest, n - 1);
          }
        }
      }
    } else {
      var max := limit.value;
      var sched: Schedule := (k: nat) => if k < f.ops then Stall else Straddle(max, k - f.ops);
      StraddlingIsASchedule(sched, stream, f, rest, limit);
    }
  }

  lemma StraddlingIsASchedule(sched: Schedule, stream: Text, f: Feed, rest: Text, limit: Option<nat>)
    requires limit.Some? && limit.value > 0 && f.taken <= |stream| && |stream| - f.taken > limit.value
    requires forall k: nat :: k >= f.ops ==> sched(k) == Straddle(limit.value, k - f.ops)
    ensures !NeverPanics(stream, f, rest, limit)
  {
    var max := limit.value;
    StraddlingPanics(sched, stream, max, f.ops, 0, f, [] + rest, max + 1);
    assert DrainAll(sched, stream, f, rest, limit, max + 2).last.Panicked?;
  }

  lemma {:induction false} ZeroLimitEnds(sched: Schedule, stream: Text, s: State, f: Feed, got: Text, n: nat)
    requires !s.drained && s.rest.None? && s.limit == Some(0) && s.counter == 0 && f.taken <= |stream|
    ensures !Drain(sched, stream, s, f, got, n).last.Panicked?
    decreases n
  {
    if n == 0 {
    } else {
      var p := PollNext(sched, stream, s, f);
      if p.item.Waiting? { ZeroLimitEnds(sched, stream, p.state, p.feed, got, n - 1); }
    }
  }

  // --------------------------------------------------------- the limit against the whole body

  /** `Content-Length` counts the whole body, but the counter ignores `rest`.  The two ways of
      cutting agree exactly when there is no rest to forget, or the whole body is within the
      length anyway. */
  lemma RestIsNotCounted(stream: Text, rest: Text, limit: Option<nat>)
    ensures rest + Cut(stream, limit) == Cut(rest + stream, limit) <==>
            limit.None? || rest == [] || |rest| + |stream| <= limit.value
  {
    if limit.Some? && rest != [] && |rest| + |stream| > limit.value {
      assert |Cut(rest + stream, limit)| == limit.value;
      assert |rest + Cut(stream, limit)| > limit.value;
    } else if limit.Some? && rest == [] {
      assert rest + stream == stream && rest + Cut(stream, limit) == Cut(stream, limit);
    }
  }

  /** How a long enough run without faults can end: with everything but the rest cut at the
      limit, or, if the limit can be passed in mid-stream, in a panic. */
  lemma FairDrainEnds(sched: Schedule, stream: Text, f: Feed, rest: Text, limit: Option<nat>, n: nat)
    requires f.taken <= |stream| && FaultFree(sched) && Moves(sched, f.ops, n) > |stream| - f.taken
    ensures var d := DrainAll(sched, stream, f, rest, limit, n + 1);
            || (d.last == End && d.bytes == rest + Cut(stream[f.taken..], limit))
            || (d.last == Panicked && limit.Some? && 0 < limit.value < |stream| - f.taken)
  {
    BodyConservation(sched, stream, f, rest, limit, n + 1);
    DrainEnds(sched, stream, State(false, None, 0, limit), f, [] + rest, n);
    NoFaultNoFailure(sched, stream, State(false, Some(rest), 0, limit), f, [], n + 1);
    if limit == Some(0) {
      ZeroLimitEnds(sched, stream, State(false, None, 0, limit), f, [] + rest, n);
    }
    var d := DrainAll(sched, stream, f, rest, limit, n + 1);
    if d.last == End {
      CutIsSettled(stream, f.taken, d.feed.taken, limit);
    }
  }

  /** Bytes past the limit do not change the cut. */
  lemma CutIsSettled(stream: Text, from: nat, taken: nat, limit: Option<nat>)
    requires from <= taken <= |stream|
    requires taken == |stream| || (limit.Some? && taken - from > limit.value)
    ensures Cut(stream[from..taken], limit) == Cut(stream[from..], limit)
  {
    if taken == |stream| {
      assert stream[from..taken] == stream[from..];
    } else {
      assert stream[from..taken][..limit.value] == stream[from..][..limit.value];
    }
  }

  lemma {:induction false} AllMove(sched: Schedule, from: nat, n: nat)
    requires forall k: nat :: k >= from ==> sched(k).Move?
    ensures Moves(sched, from, n) == n
    decreases n
  {
    if n == 0 {
    } else {
      AllMove(sched, from + 1, n - 1);
    }
  }

  ghost predicate Fair(sched: Schedule, stream: Text, f: Feed, n: nat)
    requires f.taken <= |stream|
  {
    FaultFree(sched) && Moves(sched, f.ops, n) > |stream| - f.taken
  }

  /** Under every chunking and every suspension, what a consumer ends up with is the body cut at
      its announced length. */
  ghost predicate AlwaysWhole(stream: Text, f: Feed, rest: Text, limit: Option<nat>)
    requires f.taken <= |stream|
  {
    forall sched: Schedule, n: nat :: Fair(sched, stream, f, n) ==>
      var d := DrainAll(sched, stream, f, rest, limit, n + 1);
      d.last == End && d.bytes == Cut(rest + stream[f.taken..], limit)
  }

  predicate LengthSafe(stream: Text, f: Feed, rest: Text, limit: Option<nat>)
    requires f.taken <= |stream|
  {
    limit.None? || |rest| + (|stream| - f.taken) <= limit.value || (rest == [] && limit.value == 0)
  }

  /** The straddling schedule as a fair run that panics. */
  lemma StraddlingIsFair(sched: Schedule, stream: Text, f: Feed, rest: Text, limit: nat)
    requires f.taken <= |stream| && 0 < limit < |stream| - f.taken
    requires forall k: nat :: sched(k) == if k < f.ops then Stall else Straddle(limit, k - f.ops)
    ensures !AlwaysWhole(stream, f, rest, Some(limit))
  {
    var n := |stream| - f.taken + 1;
    AllMove(sched, f.ops, n);
    StraddlingPanics(sched, stream, limit, f.ops, 0, f, [] + rest, n);
    assert Fair(sched, stream, f, n);
    assert DrainAll(sched, stream, f, rest, Some(limit), n + 1).last == Panicked;
  }

  /** A run that ends delivers the rest uncut. */
  lemma RestIsDelivered(stream: Text, f: Feed, rest: Text, limit: Option<nat>)
    requires f.taken <= |stream| && (limit.None? || limit.value == 0 || |stream| - f.taken <= limit.value)
    ensures AlwaysWhole(stream, f, rest, limit) <==>
            rest + Cut(stream[f.taken..], limit) == Cut(rest + stream[f.taken..], limit)
  {
    forall sched: Schedule, n: nat | Fair(sched, stream, f, n)
      ensures var d := DrainAll(sched, stream, f, rest, limit, n + 1);
              d.last == End && d.bytes == rest + Cut(stream[f.taken..], limit)
    {
      FairDrainEnds(sched, stream, f, rest, limit, n);
    }
    var sched: Schedule := (k: nat) => Move(1);
    var n := |stream| - f.taken + 1;
    AllMove(sched, f.ops, n);
    assert Fair(sched, stream, f, n);
  }

  /** Exactly when draining a response yields the body cut at its announced length, whatever the
      chunking: no length is announced, or the whole body is within it, or nothing came with the
      head and the length is zero.  Otherwise some chunking panics, or every run delivers bytes
      of the rest that are past the length. */
  lemma AlwaysWholeExactly(stream: Text, f: Feed, rest: Text, limit: Option<nat>)
    requires f.taken <= |stream|
    ensures AlwaysWhole(stream, f, rest, limit) <==> LengthSafe(stream, f, rest, limit)
  {
    if limit.Some? && 0 < limit.value < |stream| - f.taken {
      var max := limit.value;
      var sched: Schedule := (k: nat) => if k < f.ops then Stall else Straddle(max, k - f.ops);
      StraddlingIsFair(sched, stream, f, rest, max);
    } else {
      RestIsDelivered(stream, f, rest, limit);
      RestIsNotCounted(stream[f.taken..], rest, limit);
    }
  }
}
