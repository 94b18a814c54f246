/** Receiving a response: the second half of `Client::request` (src/lib.rs:67-107). */
module Receive {
  import opened Wrappers
  import opened Bytes
  import opened HttpParse
  import opened Head
  import opened Wire
  import opened Response
  import B = Body

  const HEAD_LIMIT: nat := 4096

  /** How receiving a head ends, apart from I/O errors. */
  datatype Verdict = BrokenHeaders | BadHead | HeadPanics | HeadOf(fields: Fields, size: nat)

  /** What the client makes of a server's whole stream: the head is the shortest prefix ending in
      CRLFCRLF, provided it fits in the buffer. */
  function Understand(stream: Text, checked: bool): (v: Verdict)
    ensures v.HeadOf? ==> v.size <= |stream| && v.size <= HEAD_LIMIT && 100 <= v.fields.status <= 599
  {
    match Position(stream, BLANK)
    case Nowhere => BrokenHeaders
    case Found(i) =>
      if i + 4 > HEAD_LIMIT then BrokenHeaders
      else
        var block := stream[..i + 4];
        assert 0 <= i && At(block, CRLF, i) by { AtPrefix(stream, BLANK, i + 4, i); AtFour(block, i); }
        StatusBound(block, checked);
        match ReadHead(block, false, NO_FIELDS, checked)
        case Ok(fields) => HeadOf(fields, i + 4)
        case Err(_) => BadHead
        case Panic => HeadPanics
  }

  /** The stream has a head, and it fits in the buffer. */
  predicate HasHead(stream: Text) {
    Position(stream, BLANK).Found? && Position(stream, BLANK).at + 4 <= 4096
  }

  /** Exactly which streams make the client panic, and which give it a head: a matter of the lines
      of the shortest prefix that ends in CRLFCRLF. */
  lemma VerdictExactly(stream: Text, checked: bool)
    ensures Understand(stream, checked) == BrokenHeaders <==> !HasHead(stream)
    ensures Understand(stream, checked) == HeadPanics <==>
            HasHead(stream) && BlockPanics(stream[..Position(stream, BLANK).at + 4], checked)
    ensures Understand(stream, checked).HeadOf? <==>
            HasHead(stream) && BlockAccepted(stream[..Position(stream, BLANK).at + 4], checked)
  {
    if HasHead(stream) {
      var i := Position(stream, BLANK).at;
      PrefixIsFramed(stream, i);
      HeadOutcome(stream[..i + 4], checked);
    }
  }

  lemma PrefixIsFramed(stream: Text, i: nat)
    requires Position(stream, BLANK) == Found(i)
    ensures Framed(stream[..i + 4])
  {
    var block := stream[..i + 4];
    AtPrefix(stream, BLANK, i + 4, i);
    forall j: nat | j < i ensures !At(block, BLANK, j) { AtPrefix(stream, BLANK, i + 4, j); }
    PositionIs(block, BLANK, i);
  }

  datatype Reply =
    | IoFailed(code: int)
    | Refused(why: Verdict)
    | Received(fields: Fields, rest: Text)

  /** An occurrence found in a prefix is the first one in the whole. */
  lemma PositionInPrefix(stream: Text, n: nat)
    requires n <= |stream|
    ensures match Position(stream[..n], BLANK)
            case Found(i) => Position(stream, BLANK) == Found(i) && i + 4 <= n && stream[..n][..i + 4] == stream[..i + 4]
            case Nowhere => Position(stream, BLANK).Found? ==> Position(stream, BLANK).at + 4 > n
  {
    forall j: nat ensures At(stream[..n], BLANK, j) <==> At(stream, BLANK, j) && j + 4 <= n {
      AtPrefix(stream, BLANK, n, j);
    }
    match Position(stream[..n], BLANK)
    case Found(i) => PositionIs(stream, BLANK, i);
    case Nowhere =>
  }

  /** The verdict is already decided by any prefix that contains the end of the head. */
  lemma FoundInPrefix(stream: Text, n: nat, checked: bool)
    requires n <= |stream| && n <= HEAD_LIMIT && Position(stream[..n], BLANK).Found?
    ensures var size := Position(stream[..n], BLANK).at + 4;
            && size <= n
            && stream[..size] + stream[..n][size..] + stream[n..] == stream
            && match ReadHead(stream[..n][..size], false, NO_FIELDS, checked)
               case Ok(fields) => Understand(stream, checked) == HeadOf(fields, size)
               case Err(_) => Understand(stream, checked) == BadHead
               case Panic => Understand(stream, checked) == HeadPanics
  {
    PositionInPrefix(stream, n);
  }

  /** No head in the whole stream, or none within the buffer. */
  lemma NeverFound(stream: Text, n: nat, checked: bool)
    requires n <= |stream| && Position(stream[..n], BLANK).Nowhere?
    requires n == HEAD_LIMIT || n == |stream|
    ensures Understand(stream, checked) == BrokenHeaders
  {
    PositionInPrefix(stream, n);
    assert Position(stream, BLANK).Found? ==> Position(stream, BLANK).at + 4 <= |stream|;
  }

  /** One awaited read at the end of what has been received. */
  method Fill(conn: Conn, buf: array<byte>, left: nat, ghost stream: Text) returns (r: Delivery)
    requires conn.Valid() && left <= buf.Length && left <= |stream|
    requires buf[..left] == stream[..left] && conn.Unread() == stream[left..]
    modifies conn, buf
    ensures conn.Valid() && !r.Pending? && conn.ops == old(conn.ops) + 1
    ensures r.Broken? ==> conn.ops > 0 && conn.sched(conn.ops - 1) == Fault(r.code)
    ensures r.Got? ==>
              && left + r.n <= buf.Length && left + r.n <= |stream|
              && buf[..left + r.n] == stream[..left + r.n] && conn.Unread() == stream[left + r.n..]
              && (r.n == 0 ==> left == buf.Length || left == |stream|)
  {
    ghost var k := conn.ops;
    r := conn.Read(buf, left, true);
    if r.Got? {
      assert buf[..left + r.n] == buf[..left] + buf[left..left + r.n];
      assert stream[..left + r.n] == stream[..left] + stream[left..][..r.n];
    } else {
      assert k == conn.ops - 1;
    }
  }

  /** What a reply has to be, given the server's stream and what is left of it on the connection. */
  ghost predicate Faithful(stream: Text, checked: bool, r: Reply, unread: Text) {
    match Understand(stream, checked)
    case HeadOf(fields, size) =>
      r.IoFailed? || (r.Received? && r.fields == fields && stream[..size] + r.rest + unread == stream)
    case why => r.IoFailed? || r == Refused(why)
  }

  /** At least one operation was needed, and each took at least one of `bytes` bytes. */
  predicate OneByteEach(before: nat, after: nat, bytes: int) {
    before < after <= before + bytes
  }

  /** Lines 81-101: looks for the end of the head in what has been received, of which `looked`
      bytes have been looked at before. */
  method Inspect(seen: Text, checked: bool, ghost stream: Text, ghost looked: nat) returns (r: Option<Reply>)
    requires seen <= stream && |seen| <= HEAD_LIMIT
    requires looked <= |seen| && Position(seen[..looked], BLANK).Nowhere?
    ensures r.Some? && r.value.Received? ==> looked + |r.value.rest| < |seen|
    ensures r.None? ==> Position(seen, BLANK).Nowhere?
    ensures r.Some? ==> Faithful(stream, checked, r.value, stream[|seen|..]) && !r.value.IoFailed?
  {
    var found := Position(seen, BLANK);
    if found.Nowhere? {
      return None;
    }
    var idx := found.at + 4;
    PositionInPrefix(seen, looked);
    assert stream[..|seen|] == seen;
    FoundInPrefix(stream, |seen|, checked);
    var parsed := ParseBlock(seen[..idx], checked);
    match parsed {
      case Panic => return Some(Refused(HeadPanics));
      case Err(_) => return Some(Refused(BadHead));
      case Ok(fields) => return Some(Received(fields, seen[idx..]));
    }
  }

  /** The loop of lines 68-103.  Whatever the sizes of the reads, it computes `Understand` of the
      server's stream, and conserves bytes: head, rest and unread bytes are the stream.  A head
      takes at least one read and at most as many as it has bytes. */
  method ReceiveHead(conn: Conn, checked: bool) returns (r: Reply)
    requires conn.Valid()
    modifies conn
    ensures conn.Valid()
    ensures Faithful(old(conn.Unread()), checked, r, conn.Unread())
    ensures r.Received? ==> OneByteEach(old(conn.ops), conn.ops, |old(conn.Unread())| - |r.rest| - |conn.Unread()|)
    ensures r.IoFailed? ==> conn.ops > 0 && conn.sched(conn.ops - 1) == Fault(r.code)
  {
    ghost var stream := conn.Unread();
    var buf := new byte[HEAD_LIMIT];
    var left := 0;
    while true
      invariant conn.Valid() && left <= HEAD_LIMIT && left <= |stream|
      invariant buf[..left] == stream[..left] && conn.Unread() == stream[left..]
      invariant Position(stream[..left], BLANK).Nowhere?
      invariant old(conn.ops) <= conn.ops <= old(conn.ops) + left
      decreases HEAD_LIMIT - left
    {
      var read := Fill(conn, buf, left, stream);
      if read.Broken? {
        return IoFailed(read.code);
      }
      if read.n == 0 {
        NeverFound(stream, left, checked);
        return Refused(BrokenHeaders);
      }
      ghost var looked := left;
      left := left + read.n;
      assert buf[..left][..looked] == stream[..looked];
      var reply := Inspect(buf[..left], checked, stream, looked);
      if reply.Some? {
        return reply.value;
      }
    }
  }

  /** The `for` loop of lines 87-99 over the line iterator. */
  method ParseBlock(block: Text, checked: bool) returns (r: Parsed<Fields>)
    ensures r == ReadHead(block, false, NO_FIELDS, checked)
  {
    var fields := NO_FIELDS;
    var lines := new HeaderLines(block, checked);
    var item := lines.Next();
    while item.Some?
      invariant fresh(lines) && lines.checked == checked
      invariant match item
                case None => ReadHead(block, false, NO_FIELDS, checked) == Ok(fields)
                case Some(Panic) => ReadHead(block, false, NO_FIELDS, checked) == Panic
                case Some(Err(e)) => ReadHead(block, false, NO_FIELDS, checked) == Err(e)
                case Some(Ok(h)) =>
                  ReadHead(block, false, NO_FIELDS, checked) ==
                  ReadHead(lines.input, lines.started, Absorb(fields, h), checked)
      decreases if item.Some? then |lines.input| + 1 else 0
    {
      match item.value {
        case Panic => return Panic;
        case Err(e) => return Err(e);
        case Ok(h) => fields := Absorb(fields, h);
      }
      item := lines.Next();
    }
    return Ok(fields);
  }

  datatype Answer = Error(reply: Reply) | Response(status: nat, headers: HeaderMap, body: B.Body)

  /** `request` from the head to `Response::new`: every response that is built has a status that
      `StatusCode::from_u16` accepts, its headers grouped, and a body that starts with the bytes
      read beyond the head and continues with the connection. */
  method ReadResponse(conn: Conn, checked: bool) returns (r: Answer)
    requires conn.Valid()
    modifies conn
    ensures conn.Valid()
    ensures var stream := old(conn.Unread());
            match r
            case Error(IoFailed(code)) => conn.ops > 0 && conn.sched(conn.ops - 1) == Fault(code)
            case Error(reply) => reply.Refused? && !reply.why.HeadOf? && reply.why == Understand(stream, checked)
            case Response(status, headers, body) =>
              && Understand(stream, checked).HeadOf?
              && var v := Understand(stream, checked);
                 && status == v.fields.status && ValidStatus(status)
                 && headers.Groups(v.fields.headers)
                 && body.Valid() && fresh(body) && fresh(body.buf) && body.reader == conn && body.limit == ContentLength(v.fields.headers)
                 && !body.drained && body.rest.Some? && body.counter == 0
                 && stream[..v.size] + body.rest.value + conn.Unread() == stream
                 && OneByteEach(old(conn.ops), conn.ops, |stream| - |body.rest.value| - |conn.Unread()|)
  {
    var reply := ReceiveHead(conn, checked);
    if !reply.Received? {
      return Error(reply);
    }
    var fields := reply.fields;
    var contentLength := ContentLength(fields.headers);
    var headers := new HeaderMap(fields.headers);
    var body := new B.Body(conn, Some(reply.rest), contentLength);
    return Response(fields.status, headers, body);
  }

  // ------------------------------------------------------------------------- end to end

  /** A head that a server prints, followed by any body, is understood as printed: exactly the
      head is taken, under every chunking, if it fits in the buffer, and not otherwise. */
  lemma PrintedHeadIsUnderstood(version: Text, code: nat, reason: Text, headers: Pairs, body: Text, checked: bool)
    requires 100 <= code <= 599 && SPACE !in version && OneLine(PrintStatus(version, code, reason))
    requires PrintableHeaders(headers, checked)
    ensures var head := PrintHead(version, code, reason, headers);
            Understand(head + body, checked) ==
            if |head| <= 4096 then HeadOf(Fields(code, version, Lowered(headers)), |head|) else BrokenHeaders
  {
    var status := PrintStatus(version, code, reason);
    var ls := [status] + FieldLines(headers);
    var head := PrintHead(version, code, reason, headers);
    PrintedFieldLines(headers, checked);
    assert HeadLines(ls);
    HeadEndsOnce(ls, body);
    assert Lines(ls) + CRLF + body == head + body;
    assert |head| == |Lines(ls)| + 2;
    HeadRoundTrip(version, code, reason, headers, [], checked);
    assert head + [] == head;
    assert (head + body)[..|head|] == head;
  }

  /** Once the head has been taken off the connection, draining the body yields exactly the bytes
      the server sent after it, provided the connection itself cannot deliver more than the
      announced length. */
  lemma BodyFollowsHead(sent: Text, head: Text, body: Text, stream: Text, rest: Text, f: B.Feed,
                        limit: Option<nat>, sched: Schedule, n: nat)
    requires f.taken <= |stream| && sent == head + body && head + rest + stream[f.taken..] == sent
    requires limit.Some? ==> |stream| - f.taken <= limit.value
    requires FaultFree(sched) && Moves(sched, f.ops, n) > |stream| - f.taken
    ensures var d := B.DrainAll(sched, stream, f, rest, limit, n + 1);
            d.last == B.End && d.bytes == body
  {
    var tail := rest + stream[f.taken..];
    assert head + rest + stream[f.taken..] == head + tail;
    assert (head + tail)[|head|..] == tail && (head + body)[|head|..] == body;
    B.WithinLimitNothingIsLost(sched, stream, f, rest, limit, n);
  }

  /** At every point meanwhile, what has been collected is a prefix of them. */
  lemma BodySoFar(head: Text, body: Text, stream: Text, rest: Text, sched: Schedule, f: B.Feed, limit: Option<nat>, n: nat)
    requires f.taken <= |stream| && head + rest + stream[f.taken..] == head + body
    requires limit.Some? ==> |body| <= limit.value
    ensures B.DrainAll(sched, stream, f, rest, limit, n + 1).bytes <= body
  {
    B.BodyConservation(sched, stream, f, rest, limit, n + 1);
    var d := B.DrainAll(sched, stream, f, rest, limit, n + 1);
    var tail := rest + stream[f.taken..];
    assert head + tail == head + body;
    assert tail == (head + tail)[|head|..] == (head + body)[|head|..] == body;
    assert stream[f.taken..d.feed.taken] <= stream[f.taken..];
  }

  /** What a server prints: a head, and then a body. */
  datatype Page = Page(version: Text, code: nat, reason: Text, headers: Pairs, body: Text) {
    function Head(): Text
      requires code < 1000
    {
      PrintHead(version, code, reason, headers)
    }

    /** A head that can be printed and fits in the buffer, with no length announced or one that
        the body is within. */
    ghost predicate Sound(checked: bool) {
      && 100 <= code <= 599 && SPACE !in version && OneLine(PrintStatus(version, code, reason))
      && PrintableHeaders(headers, checked) && |Head()| <= 4096
      && var length := ContentLength(Lowered(headers)); length.Some? ==> |body| <= length.value
    }
  }

  /** During any `n` operations that follow a head of at most `size` bytes, the connection is ready
      more often than the body has bytes. */
  ghost predicate ReadyEnough(sched: Schedule, start: nat, size: nat, n: nat, body: Text) {
    forall k: nat :: start < k <= start + size ==> Moves(sched, k, n) > |body|
  }

  /** The exchange as a whole: the client reads a response off a connection that does not fail,
      under any chunking, and then collects its body, under any chunking and any suspensions.
      It gets the page back: code, headers, and, after `n` polls, a prefix of the body.  That is
      all of the body if the connection was ready often enough meanwhile: during the polls from
      operation `from` on, when the head had been read, or, without knowing when that is, from
      any operation at which it can have been. */
  method Exchange(conn: Conn, checked: bool, n: nat, ghost page: Page)
    returns (r: Answer, bytes: Text, last: B.Item, ghost from: nat)
    requires conn.Valid() && FaultFree(conn.sched) && page.Sound(checked)
    requires conn.Unread() == page.Head() + page.body
    modifies conn
    ensures r.Response? && r.status == page.code && r.headers.Groups(Lowered(page.headers))
    ensures bytes <= page.body
    ensures old(conn.ops) < from <= old(conn.ops) + |page.Head()|
    ensures Moves(conn.sched, from, n) > |page.body| ==> last == B.End && bytes == page.body
    ensures ReadyEnough(conn.sched, old(conn.ops), |page.Head()|, n, page.body) ==> last == B.End && bytes == page.body
  {
    PageIsUnderstood(page, checked);
    r, bytes, last, from := ExchangeKnown(conn, checked, n, Fields(page.code, page.version, Lowered(page.headers)),
                                          page.Head(), page.body);
  }

  /** The same, for a head that is known to be understood. */
  method ExchangeKnown(conn: Conn, checked: bool, n: nat, ghost fields: Fields, ghost head: Text, ghost sent: Text)
    returns (r: Answer, bytes: Text, last: B.Item, ghost from: nat)
    requires conn.Valid() && FaultFree(conn.sched) && conn.Unread() == head + sent
    requires Understand(head + sent, checked) == HeadOf(fields, |head|)
    requires var length := ContentLength(fields.headers); length.Some? ==> |sent| <= length.value
    modifies conn
    ensures r.Response? && r.status == fields.status && r.headers.Groups(fields.headers)
    ensures bytes <= sent
    ensures old(conn.ops) < from <= old(conn.ops) + |head|
    ensures Moves(conn.sched, from, n) > |sent| ==> last == B.End && bytes == sent
  {
    r := ReadKnown(conn, checked, fields, head, sent);
    from := conn.ops;
    bytes, last := CollectKnown(r.body, n, head, sent);
  }

  /** The second half: everything that was sent after a head is collected. */
  method CollectKnown(body: B.Body, n: nat, ghost head: Text, ghost sent: Text) returns (bytes: Text, last: B.Item)
    requires body.Valid() && FaultFree(body.reader.sched)
    requires body.rest.Some? && body.View() == B.State(false, body.rest, 0, body.limit)
    requires head + body.rest.value + body.reader.Unread() == head + sent
    requires body.limit.Some? ==> |sent| <= body.limit.value
    modifies body, body.buf, body.reader
    ensures bytes <= sent
    ensures Moves(body.reader.sched, old(body.reader.ops), n) > |sent| ==> last == B.End && bytes == sent
  {
    ghost var f := B.Feed(body.reader.ops, body.reader.taken);
    BodyFollows(head, sent, body.reader.stream, body.rest.value, f, body.limit, body.reader.sched, n);
    bytes, last := B.Collect(body, n + 1);
  }

  /** A response whose head is known to be understood. */
  method ReadKnown(conn: Conn, checked: bool, ghost fields: Fields, ghost head: Text, ghost body: Text) returns (r: Answer)
    requires conn.Valid() && FaultFree(conn.sched) && conn.Unread() == head + body
    requires Understand(head + body, checked) == HeadOf(fields, |head|)
    modifies conn
    ensures r.Response? && r.status == fields.status && r.headers.Groups(fields.headers)
    ensures conn.Valid() && r.body.Valid() && fresh(r.body) && fresh(r.body.buf) && r.body.reader == conn
    ensures r.body.rest.Some? && r.body.View() == B.State(false, r.body.rest, 0, ContentLength(fields.headers))
    ensures head + r.body.rest.value + conn.Unread() == head + body
    ensures old(conn.ops) < conn.ops <= old(conn.ops) + |head|
  {
    assert (head + body)[..|head|] == head;
    r := ReadResponse(conn, checked);
  }

  lemma PageIsUnderstood(page: Page, checked: bool)
    requires page.Sound(checked)
    ensures var sent := page.Head() + page.body;
            Understand(sent, checked) == HeadOf(Fields(page.code, page.version, Lowered(page.headers)), |page.Head()|)
  {
    PrintedHeadIsUnderstood(page.version, page.code, page.reason, page.headers, page.body, checked);
  }

  lemma BodyFollows(head: Text, body: Text, stream: Text, rest: Text, f: B.Feed, limit: Option<nat>, sched: Schedule, n: nat)
    requires f.taken <= |stream| && head + rest + stream[f.taken..] == head + body
    requires (limit.Some? ==> |body| <= limit.value) && FaultFree(sched)
    ensures var d := B.DrainAll(sched, stream, f, rest, limit, n + 1);
            d.bytes <= body && (Moves(sched, f.ops, n) > |body| ==> d.last == B.End && d.bytes == body)
  {
    BodySoFar(head, body, stream, rest, sched, f, limit, n);
    assert |head + rest + stream[f.taken..]| == |head + body|;
    if Moves(sched, f.ops, n) > |body| {
      BodyFollowsHead(head + body, head, body, stream, rest, f, limit, sched, n);
    }
  }
}
