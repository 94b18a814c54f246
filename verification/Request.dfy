/** The requests the client prints: `build_req` (src/lib.rs:110-133) and the CONNECT request of
    src/proxy/tunnel.rs:41-67. */
module Request {
  import opened Wrappers
  import opened Bytes
  import opened Trim
  import opened HttpParse
  import opened Head
  import opened Response

  // "Host", "host", "Connection", "close", " HTTP/1.0", " HTTP/1.1", "CONNECT "
  const HOST: Text := [72, 111, 115, 116]
  const LOWER_HOST: Text := [104, 111, 115, 116]
  const CONNECTION: Text := [67, 111, 110, 110, 101, 99, 116, 105, 111, 110]
  const CLOSE: Text := [99, 108, 111, 115, 101]
  const HTTP_10: Text := [32, 72, 84, 84, 80, 47, 49, 46, 48]
  const HTTP_11: Text := [32, 72, 84, 84, 80, 47, 49, 46, 49]
  const CONNECT: Text := [67, 79, 78, 78, 69, 67, 84, 32]

  lemma Spelling()
    ensures HOST == Ascii("Host") && LOWER_HOST == Ascii("host") && CONNECT == Ascii("CONNECT ")
    ensures CONNECTION == Ascii("Connection") && CLOSE == Ascii("close")
    ensures HTTP_10 == Ascii(" HTTP/1.0") && HTTP_11 == Ascii(" HTTP/1.1")
  {}

  /** The headers that are sent as given: all but those called "host" in any case. */
  function NotHost(headers: Pairs): (r: Pairs)
    ensures forall h :: h in r <==> h in headers && Lower(h.0) != LOWER_HOST
  {
    if headers == [] then []
    else if Lower(headers[0].0) == LOWER_HOST then NotHost(headers[1..])
    else [headers[0]] + NotHost(headers[1..])
  }

  /** The headers not called "host" in any case, in order. */
  function WithoutHost(headers: Pairs): Pairs {
    if headers == [] then []
    else (if SameLetters(headers[0].0, Ascii("Host")) then [] else [headers[0]]) + WithoutHost(headers[1..])
  }

  lemma {:induction false} NotHostExactly(headers: Pairs)
    ensures NotHost(headers) == WithoutHost(headers)
  {
    if headers == [] {
    } else {
      IsHost(headers[0].0);
      NotHostExactly(headers[1..]);
    }
  }

  lemma IsHost(name: Text)
    ensures Lower(name) == LOWER_HOST <==> SameLetters(name, Ascii("Host"))
  {
    Spelling();
    assert Lower(HOST) == LOWER_HOST;
    LowerExactly(name, HOST);
  }

  function RequestLine(verb: Text, path: Text): Text { verb + [SPACE] + path + HTTP_10 }

  /** What a request says: its request line, and its header lines in order. */
  function SentHeaders(host: Text, headers: Pairs): Pairs {
    [(HOST, host), (CONNECTION, CLOSE)] + NotHost(headers)
  }

  function RequestText(verb: Text, path: Text, host: Text, headers: Pairs): Text {
    Lines([RequestLine(verb, path)] + FieldLines(SentHeaders(host, headers))) + CRLF
  }

  lemma FieldLinesAppend(a: Pairs, b: Pairs)
    ensures FieldLines(a + b) == FieldLines(a) + FieldLines(b)
  {
    if a == [] {
      assert a + b == b;
    } else {
      assert (a + b)[1..] == a[1..] + b;
      FieldLinesAppend(a[1..], b);
    }
  }

  lemma LinesSnoc(ls: seq<Text>, l: Text)
    ensures Lines(ls + [l]) == Lines(ls) + (l + CRLF)
  {
    LinesAppend(ls, [l]);
    assert Lines([l]) == l + CRLF;
  }

  lemma {:induction false} NotHostSnoc(headers: Pairs, h: (Text, Text))
    ensures NotHost(headers + [h]) == NotHost(headers) + if Lower(h.0) == LOWER_HOST then [] else [h]
  {
    if headers == [] {
      assert headers + [h] == [h];
    } else {
      assert (headers + [h])[1..] == headers[1..] + [h];
      NotHostSnoc(headers[1..], h);
    }
  }

  /** The first three lines. */
  function Opening(verb: Text, path: Text, host: Text): seq<Text> {
    [RequestLine(verb, path)] + FieldLines([(HOST, host), (CONNECTION, CLOSE)])
  }

  /** The loop appends the next header, or skips it. */
  lemma NextSent(first: seq<Text>, headers: Pairs, i: nat)
    requires i < |headers|
    ensures var h := headers[i];
            Lines(first + FieldLines(NotHost(headers[..i + 1]))) ==
            Lines(first + FieldLines(NotHost(headers[..i]))) +
            if Lower(h.0) == LOWER_HOST then [] else h.0 + [COLON, SPACE] + h.1 + CRLF
  {
    var h := headers[i];
    assert headers[..i + 1] == headers[..i] + [h];
    NotHostSnoc(headers[..i], h);
    if Lower(h.0) == LOWER_HOST {
      assert NotHost(headers[..i]) + [] == NotHost(headers[..i]);
    } else {
      NextHeader(first, NotHost(headers[..i]), h.0, h.1);
      var text := Lines(first + FieldLines(NotHost(headers[..i])));
      assert text + (h.0 + [COLON, SPACE] + h.1 + CRLF) == text + h.0 + [COLON, SPACE] + h.1 + CRLF;
    }
  }

  lemma AllSent(verb: Text, path: Text, host: Text, headers: Pairs)
    ensures Lines(Opening(verb, path, host) + FieldLines(NotHost(headers))) + CRLF == RequestText(verb, path, host, headers)
  {
    FieldLinesAppend([(HOST, host), (CONNECTION, CLOSE)], NotHost(headers));
    assert Opening(verb, path, host) + FieldLines(NotHost(headers)) ==
           [RequestLine(verb, path)] + FieldLines(SentHeaders(host, headers));
  }

  /** `build_req`: `path` is absent when the URI has none, `host` is the unwrapped URI host. */
  method BuildRequest(verb: Text, path: Option<Text>, host: Text, headers: Pairs) returns (header: Text)
    ensures header == RequestText(verb, if path.Some? then path.value else Ascii("/"), host, headers)
  {
    HttpParse.Spelling();
    var req := if path.Some? then path.value else [SLASH];
    header := verb + [SPACE] + req + HTTP_10 + CRLF;
    header := header + HOST + [COLON, SPACE] + host + CRLF;
    header := header + CONNECTION + [COLON, SPACE] + CLOSE + CRLF;
    ghost var first := Opening(verb, req, host);
    Preamble(verb, req, host);
    assert first + FieldLines(NotHost(headers[..0])) == first;
    for i := 0 to |headers|
      invariant header == Lines(first + FieldLines(NotHost(headers[..i])))
    {
      NextSent(first, headers, i);
      var (name, value) := headers[i];
      if Lower(name) == LOWER_HOST {
        continue;
      }
      header := header + (name + [COLON, SPACE] + value + CRLF);
    }
    assert headers[..|headers|] == headers;
    AllSent(verb, req, host, headers);
    header := header + CRLF;
  }

  lemma Preamble(verb: Text, path: Text, host: Text)
    ensures Lines(Opening(verb, path, host)) ==
            verb + [SPACE] + path + HTTP_10 + CRLF + HOST + [COLON, SPACE] + host + CRLF
            + CONNECTION + [COLON, SPACE] + CLOSE + CRLF
  {
    var a, b, c := RequestLine(verb, path), PrintHeader(HOST, host), PrintHeader(CONNECTION, CLOSE);
    assert FieldLines([(HOST, host), (CONNECTION, CLOSE)]) == [b, c] by {
      assert [(HOST, host), (CONNECTION, CLOSE)][1..] == [(CONNECTION, CLOSE)];
      assert FieldLines([(CONNECTION, CLOSE)]) == [c];
    }
    LinesAppend([a], [b, c]);
    LinesAppend([b], [c]);
    assert Lines([a]) == a + CRLF && Lines([b]) == b + CRLF && Lines([c]) == c + CRLF;
    assert [a] + [b, c] == [a, b, c] && [b] + [c] == [b, c];
  }

  lemma NextHeader(first: seq<Text>, sent: Pairs, name: Text, value: Text)
    ensures Lines(first + FieldLines(sent + [(name, value)])) ==
            Lines(first + FieldLines(sent)) + name + [COLON, SPACE] + value + CRLF
  {
    FieldLinesAppend(sent, [(name, value)]);
    assert FieldLines([(name, value)]) == [PrintHeader(name, value)];
    assert first + (FieldLines(sent) + [PrintHeader(name, value)]) == (first + FieldLines(sent)) + [PrintHeader(name, value)];
    LinesSnoc(first + FieldLines(sent), PrintHeader(name, value));
  }

  // ---------------------------------------------------------------- a server's view of it

  /** No CR and no LF. */
  predicate Plain(t: Text) { CR !in t && LF !in t }

  lemma PlainIsOneLine(t: Text)
    requires CR !in t || LF !in t
    ensures OneLine(t)
  {
    forall i: nat ensures !At(t, CRLF, i) { AtTwo(t, i); }
  }

  /** A header line as a server reads it: the name before the first colon, the value after it
      without its leading spaces. */
  function ReadField(l: Text): Option<(Text, Text)> {
    var at := Position(l, [COLON]);
    if at.Nowhere? then None else Some((l[..at.at], TrimLeft(l[at.at + 1..])))
  }

  function ReadFields(ls: seq<Text>): seq<Option<(Text, Text)>> {
    if ls == [] then [] else [ReadField(ls[0])] + ReadFields(ls[1..])
  }

  function AllSome(pairs: Pairs): seq<Option<(Text, Text)>> {
    if pairs == [] then [] else [Some(pairs[0])] + AllSome(pairs[1..])
  }

  predicate Sendable(h: (Text, Text)) {
    Plain(h.0) && Plain(h.1) && COLON !in h.0 && (h.1 == [] || h.1[0] != SPACE)
  }

  lemma ColonAt(t: Text, i: nat)
    ensures At(t, [COLON], i) <==> i < |t| && t[i] == COLON
  {
    if i < |t| { assert t[i..i + 1] == [t[i]]; }
  }

  lemma FirstColon(name: Text, tail: Text)
    requires COLON !in name
    ensures Position(name + [COLON] + tail, [COLON]) == Found(|name|)
  {
    var l := name + [COLON] + tail;
    ColonAt(l, |name|);
    forall j: nat | j < |name| ensures !At(l, [COLON], j) { ColonAt(l, j); assert l[j] == name[j]; }
    PositionIs(l, [COLON], |name|);
  }

  lemma ValueAfterSpace(value: Text)
    requires value == [] || value[0] != SPACE
    ensures TrimLeft([SPACE] + value) == value
  {
    assert ([SPACE] + value)[1..] == value && TrimLeft(value) == value;
  }

  lemma ReadFieldAt(name: Text, tail: Text)
    requires COLON !in name
    ensures ReadField(name + [COLON] + tail) == Some((name, TrimLeft(tail)))
  {
    var l := name + [COLON] + tail;
    FirstColon(name, tail);
    assert l[..|name|] == name && l[|name| + 1..] == tail;
  }

  lemma ReadPrinted(name: Text, value: Text)
    requires Sendable((name, value))
    ensures ReadField(PrintHeader(name, value)) == Some((name, value))
  {
    ReadFieldAt(name, [SPACE] + value);
    ValueAfterSpace(value);
  }

  lemma PrintedIsALine(name: Text, value: Text)
    requires Sendable((name, value))
    ensures OneLine(PrintHeader(name, value)) && PrintHeader(name, value) != []
  {
    assert CR !in PrintHeader(name, value);
    PlainIsOneLine(PrintHeader(name, value));
  }

  lemma {:induction false} ReadAllPrinted(pairs: Pairs)
    requires forall h :: h in pairs ==> Sendable(h)
    ensures ReadFields(FieldLines(pairs)) == AllSome(pairs) && HeadLines(FieldLines(pairs))
  {
    if pairs == [] {
    } else {
      var (name, value) := pairs[0];
      assert pairs[0] in pairs;
      ReadPrinted(name, value);
      PrintedIsALine(name, value);
      ReadAllPrinted(pairs[1..]);
      assert FieldLines(pairs)[1..] == FieldLines(pairs[1..]);
    }
  }

  /** Cutting a head back into its lines. */
  lemma {:induction false} LinesOfPrinted(ls: seq<Text>)
    requires HeadLines(ls)
    ensures BlockLines(Lines(ls) + CRLF) == ls
    decreases |ls|
  {
    var s := Lines(ls) + CRLF;
    if ls == [] {
      PositionIs(s, CRLF, 0);
    } else {
      var tail := Lines(ls[1..]) + CRLF;
      assert s == ls[0] + CRLF + tail;
      FirstBreak(ls[0], tail);
      assert s[..|ls[0]|] == ls[0] && s[|ls[0]| + 2..] == tail;
      LinesOfPrinted(ls[1..]);
    }
  }

  /** A head made of a first line and printed headers, as any reader sees it, whatever follows:
      it ends at its first CRLFCRLF, and its lines are the ones printed. */
  lemma PrintedHeadReadsBack(first: Text, pairs: Pairs, rest: Text)
    requires OneLine(first) && first != [] && forall h :: h in pairs ==> Sendable(h)
    ensures var head := Lines([first] + FieldLines(pairs)) + CRLF;
            && Position(head + rest, BLANK) == Found(|head| - 4)
            && BlockLines(head) == [first] + FieldLines(pairs)
            && ReadFields(BlockLines(head)[1..]) == AllSome(pairs)
  {
    var ls := [first] + FieldLines(pairs);
    ReadAllPrinted(pairs);
    assert HeadLines(ls);
    HeadEndsOnce(ls, rest);
    LinesOfPrinted(ls);
    assert ls[1..] == FieldLines(pairs);
    assert Lines(ls) + CRLF + rest == (Lines(ls) + CRLF) + rest;
  }

  /** Request framing round trip: a server that cuts at the first CRLFCRLF, whatever follows, then
      at line breaks and first colons, recovers the request line, Host, Connection: close, and
      exactly the caller's headers not called host in any case, in order. */
  lemma RequestRoundTrip(verb: Text, path: Text, host: Text, headers: Pairs, rest: Text)
    requires Plain(verb) && Plain(path) && Sendable((HOST, host))
    requires forall h :: h in headers ==> Sendable(h)
    ensures var text := RequestText(verb, path, host, headers);
            && Position(text + rest, BLANK) == Found(|text| - 4)
            && BlockLines(text) != [] && BlockLines(text)[0] == verb + Ascii(" ") + path + Ascii(" HTTP/1.0")
            && ReadFields(BlockLines(text)[1..]) ==
               AllSome([(Ascii("Host"), host), (Ascii("Connection"), Ascii("close"))] + WithoutHost(headers))
  {
    Spelling();
    Separators();
    NotHostExactly(headers);
    PlainIsOneLine(RequestLine(verb, path));
    assert Sendable((CONNECTION, CLOSE));
    PrintedHeadReadsBack(RequestLine(verb, path), SentHeaders(host, headers), rest);
  }

  // ------------------------------------------------------------------------ tunnel request

  /** The characters `HeaderValue::to_str` accepts. */
  predicate Visible(t: Text) {
    forall i :: 0 <= i < |t| ==> 32 <= t[i] < 127 || t[i] == 9
  }

  predicate AllVisible(headers: Pairs) {
    forall h :: h in headers ==> Visible(h.1)
  }

  function Authority(host: Text, port: nat): Text { host + [COLON] + Decimal(port) }

  /** `tunnel::new`; none when a header value is not printable, on which `format!` panics. */
  function ConnectText(host: Text, port: nat, headers: Pairs): Option<Text> {
    if !AllVisible(headers) then None
    else
      var at := Authority(host, port);
      Some(Lines([CONNECT + at + HTTP_11] + FieldLines([(HOST, at)] + headers)) + CRLF)
  }

  /** `tunnel::new` with the loop of `HeadersDisplay::fmt`. */
  method BuildConnect(host: Text, port: nat, headers: Pairs) returns (r: Option<Text>)
    ensures r == ConnectText(host, port, headers)
  {
    var at := Authority(host, port);
    ghost var first := [CONNECT + at + HTTP_11] + FieldLines([(HOST, at)]);
    var buf := CONNECT + at + HTTP_11 + CRLF + HOST + [COLON, SPACE] + at + CRLF;
    assert buf == Lines(first) by { ConnectPreamble(at); }
    assert first + FieldLines(headers[..0]) == first;
    for i := 0 to |headers|
      invariant AllVisible(headers[..i])
      invariant buf == Lines(first + FieldLines(headers[..i]))
    {
      var (key, value) := headers[i];
      if !Visible(value) {
        assert headers[i] in headers;
        return None;
      }
      assert headers[..i + 1] == headers[..i] + [(key, value)];
      NextHeader(first, headers[..i], key, value);
      buf := buf + key + [COLON, SPACE] + value + CRLF;
    }
    assert headers[..|headers|] == headers;
    FieldLinesAppend([(HOST, at)], headers);
    assert first + FieldLines(headers) == [CONNECT + at + HTTP_11] + FieldLines([(HOST, at)] + headers);
    return Some(buf + CRLF);
  }

  lemma ConnectPreamble(at: Text)
    ensures Lines([CONNECT + at + HTTP_11] + FieldLines([(HOST, at)])) ==
            CONNECT + at + HTTP_11 + CRLF + HOST + [COLON, SPACE] + at + CRLF
  {
    var a, b := CONNECT + at + HTTP_11, PrintHeader(HOST, at);
    assert FieldLines([(HOST, at)]) == [b];
    LinesAppend([a], [b]);
    assert Lines([a]) == a + CRLF && Lines([b]) == b + CRLF;
  }

  /** What is printed for a host and a port: the host, a colon, and the port in decimal without
      leading zeros; with a host that has no colon itself, the first colon separates them. */
  predicate NamesTarget(at: Text, host: Text, port: nat) {
    && host + Ascii(":") <= at
    && var digits := at[|host| + 1..];
       && digits != [] && (|digits| > 1 ==> digits[0] as int != '0' as int)
       && AllDigits(digits) && ReadNumber(digits, 0) == port
       && (COLON !in host ==> Position(at, Ascii(":")) == Found(|host|))
  }

  lemma {:induction false} DecimalReads(n: nat)
    ensures var t := Decimal(n);
            && AllDigits(t) && ReadNumber(t, 0) == n && (|t| > 1 ==> t[0] as int != '0' as int)
            && (n > 0 ==> t[0] as int != '0' as int)
  {
    var t := Decimal(n);
    ReadNumberLast(t, 0);
    if n < 10 {
      assert t[..0] == [];
    } else {
      DecimalReads(n / 10);
      assert t[..|t| - 1] == Decimal(n / 10);
    }
  }

  lemma AuthorityNamesTarget(host: Text, port: nat)
    ensures NamesTarget(Authority(host, port), host, port)
  {
    Separators();
    var at := Authority(host, port);
    assert at[|host| + 1..] == Decimal(port);
    DecimalReads(port);
    if COLON !in host { FirstColon(host, Decimal(port)); }
  }

  /** The CONNECT request is framed for every proxy: it is one head, naming the target and
      carrying the headers in order.  Only the names have to be free of colons and breaks, and the
      values of leading spaces; the rest `to_str` guarantees, which accepts visible ASCII and tabs. */
  lemma ConnectRoundTrip(host: Text, port: nat, headers: Pairs, rest: Text) returns (at: Text)
    requires Plain(host) && host != [] && host[0] != SPACE
    requires forall h :: h in headers ==> Plain(h.0) && COLON !in h.0 && (h.1 == [] || h.1[0] != SPACE)
    ensures NamesTarget(at, host, port)
    ensures ConnectText(host, port, headers).Some? <==>
            forall h :: h in headers ==> forall i :: 0 <= i < |h.1| ==> ' ' as int <= h.1[i] as int <= '~' as int || h.1[i] == 9
    ensures var r := ConnectText(host, port, headers);
            r.Some? ==>
              && Position(r.value + rest, BLANK) == Found(|r.value| - 4)
              && BlockLines(r.value) != [] && BlockLines(r.value)[0] == Ascii("CONNECT ") + at + Ascii(" HTTP/1.1")
              && ReadFields(BlockLines(r.value)[1..]) == AllSome([(Ascii("Host"), at)] + headers)
  {
    at := Authority(host, port);
    AuthorityNamesTarget(host, port);
    if AllVisible(headers) {
      ConnectReadsBack(host, port, headers, rest);
    }
  }

  lemma ConnectReadsBack(host: Text, port: nat, headers: Pairs, rest: Text)
    requires Plain(host) && host != [] && host[0] != SPACE && AllVisible(headers)
    requires forall h :: h in headers ==> Plain(h.0) && COLON !in h.0 && (h.1 == [] || h.1[0] != SPACE)
    ensures var r, at := ConnectText(host, port, headers), Authority(host, port);
            && r.Some?
            && Position(r.value + rest, BLANK) == Found(|r.value| - 4)
            && BlockLines(r.value) != [] && BlockLines(r.value)[0] == Ascii("CONNECT ") + at + Ascii(" HTTP/1.1")
            && ReadFields(BlockLines(r.value)[1..]) == AllSome([(Ascii("Host"), at)] + headers)
  {
    Spelling();
    var at := Authority(host, port);
    PlainIsOneLine(CONNECT + at + HTTP_11);
    assert Sendable((HOST, at));
    VisibleIsSendable(headers);
    PrintedHeadReadsBack(CONNECT + at + HTTP_11, [(HOST, at)] + headers, rest);
  }

  lemma VisibleIsSendable(headers: Pairs)
    requires AllVisible(headers)
    requires forall h :: h in headers ==> Plain(h.0) && COLON !in h.0 && (h.1 == [] || h.1[0] != SPACE)
    ensures forall h :: h in headers ==> Sendable(h)
  {
    forall h | h in headers ensures Sendable(h) {
      assert Visible(h.1);
    }
  }
}
