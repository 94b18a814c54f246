# A verified model of simple-http

simple-http is a small HTTP client whose substance is hand-written, poll-driven state: a
happy-eyeballs connector, a CONNECT tunnel, an incremental response reader and a shared resolver
cache. This project models those four pieces in Dafny and proves what they promise for every
input, every environment and every run. `dafny verify dfyconfig.toml` checks all of it.

## How the model is built

- **Environments are oracles over all functions.** A `Network` says what the n-th call of `connect`
  meets; a `Schedule` says what each operation on a stream meets: nothing yet, some bytes, or an
  I/O error. A theorem about every such function is a theorem about every chunking, every pattern
  of `NotReady` and every failure.
- **Objects against functions.** Each future that the source mutates in place is a class
  (`ConnectorObjects`, `Tunnel`, `Body`, `Resolver`, `Head`, `Response`) whose methods are proved to compute
  a total function of the old state; the theorems are about runs of those functions.
- **Panics are results.** An `expect`, an `unwrap`, an out-of-range slice or an arithmetic
  underflow of the source is an explicit outcome, so "does not panic" is a theorem and, where it
  is false, has an exact condition.
- `checked` is the build profile: whether arithmetic overflow panics. It matters only in `rtrim`.

| file | models |
|---|---|
| Dns.dfy | addresses, the split by family (src/http/dns.rs) |
| Connector.dfy | one poll of the race, as a function (src/http/mod.rs) |
| ConnectorLanes.dfy, ConnectorRaces.dfy | the invariants of one address list and of the race |
| ConnectorTheorems.dfy, ConnectorVerdict.dfy | what every run of the race keeps, and how it ends |
| ConnectorClock.dfy | who is dialed first, when the fallback starts, who wins a tie, what is kept |
| ConnectorReach.dfy | the result against what the network does, and which addresses can be reached |
| ConnectorHttp.dfy | `HttpConnector::connect`, `HttpConnecting` |
| ConnectorObjects.dfy | the connector's futures as mutable objects |
| Tunnel.dfy, TunnelRuns.dfy | the CONNECT tunnel and its runs (src/proxy/tunnel.rs) |
| Bytes.dfy, Trim.dfy, HttpParse.dfy, Head.dfy | searching, trimming, the parsers, the line iterator (src/httparse.rs) |
| Wire.dfy, Receive.dfy, Response.dfy, Lookup.dfy | receiving and building a response, and its headers (src/lib.rs, src/response.rs) |
| Body.dfy | the body stream (src/body.rs) |
| Request.dfy | `build_req` and the CONNECT request |
| Resolver.dfy | the shared resolver cache (src/http/ares.rs) |

## What the proofs found

Where the code does not do what it is evidently for, the model keeps the code, and a theorem says
exactly when the two agree.

- `connect(..)?` abandons the rest of an address list: in a failing run every address was tried
  and refused if and only if no socket failed to be set up and the fallback timer did not break
  (`ExhaustiveFailure`; `SetupFailureAbandonsTheRest` and `BrokenTimerDropsTheFallback` are
  concrete runs).
- An empty DNS answer is the one thing that reaches the `expect` of src/http/mod.rs:335.
- The tunnel reads a reply exactly, under every chunking, if and only if the reply says 200, is
  longer than 12 bytes and its only CRLFCRLF is its end. Bytes sent by the peer right after its
  head make the result depend on how they are packed.
- `rtrim` removes two bytes per trailing space: it trims if and only if the number of trailing
  spaces is even and something is left (or overflow is unchecked). A printed header with an empty
  value panics in every build.
- `parse_header` returns the meant value if and only if the line has no second colon (so a URL in a
  value is cut), and `rtrim` works on both parts.
- Reading a response head panics on input a server can send, and exactly on this: its first line is
  empty, or starts with a word of fewer than 4 bytes or the bare word "HTTP"; or the status line is
  accepted and, after accepted header lines, one follows whose name, or value up to a second colon,
  has a space at every second byte from its end (an even number of bytes only when overflow is
  checked). `VerdictExactly` says this of the whole stream, and which heads are read.
- `parse_status` keeps the first word of the reason, and `request` stores the version where it means
  the reason: the second field of `Header::Status` is the version.
- Received header names are lowercased but `get` compares exactly: it finds what a lookup without
  regard to case finds if and only if the name asked for is in lower case, or there is none.
- The body's counter ignores the bytes that came with the head, and the subtraction at
  src/body.rs:67 can underflow: draining is free of panics under every chunking if and only if the
  connection cannot deliver more than the limit, or the limit is zero. What a consumer ends up with
  is the body cut at its length, under every chunking, if and only if no length is announced, or the
  whole body is within it, or nothing came with the head and the length is zero.
- The time kept with a cache entry is that of its insertion and is compared as "in the past":
  entries never expire, and are unusable only at the very instant they were added.

## Model

| member | source | states |
|---|---|---|
| Dns.SplitConserves | src/http/dns.rs:204-215 | the two families together are the answer as a multiset |
| Dns.SplitIsStable | src/http/dns.rs:211-212 | each family is read off the answer at increasing positions |
| Dns.SplitEmptiness | src/http/dns.rs:204-219 | the first list is empty iff the answer is; the second iff there is at most one family, and then the first is the answer |
| ConnectorLanes.PollKeepsLane | src/http/mod.rs:311-337 | a poll of one address list keeps attempted ++ to-try == list with at most one open attempt; Ready means all earlier ones were refused; Err means all were refused, or those before one that could not be set up |
| ConnectorRaces.StartsRacing | src/http/mod.rs:253-287 | a new connector for a non-empty answer satisfies the race invariant |
| ConnectorRaces.PollTcpKeepsRacing | src/http/mod.rs:377-420 | one poll keeps the race invariant, through drop, put-back and promotion of the fallback, and never panics |
| ConnectorTheorems.ConservationOfAddresses | src/http/mod.rs:253-337 | in every state that can be polled again, each list still held is its refused addresses, at most one open attempt, and the untried rest |
| ConnectorTheorems.AttemptsFollowTheAnswer | src/http/mod.rs:311-337 | in every run, the addresses dialed in each list are a prefix of it |
| ConnectorTheorems.PanicsExactlyOnEmptyAnswer | src/http/mod.rs:319-335 | no run with a non-empty answer polls a settled future or reaches the `expect`, even with synchronous failures; every run with an empty one does |
| ConnectorTheorems.FailureSpendsBothLists | src/http/mod.rs:377-420 | an error means both lists are spent, in one of the listed ways |
| ConnectorTheorems.ExhaustiveFailure | src/http/mod.rs:311-420 | in a failing run all addresses of both families were tried in order and refused iff no socket failed to be set up and the timer did not break |
| ConnectorTheorems.BrokenTimerDropsTheFallback | src/http/mod.rs:408-411 | a concrete run in which the timer breaks and an accepting fallback address is never dialed |
| ConnectorTheorems.WinnerIsFirstOfItsList | src/http/mod.rs:377-420 | a stream belongs to an address of the answer, and everything before it in its list was refused |
| ConnectorTheorems.NoEarlyFallback | src/http/mod.rs:385-417 | no fallback address is dialed before the delay elapsed, unless the preferred list was already given up (section 6 of RFC 6555) |
| ConnectorClock.FallbackStartsOnTime | src/http/mod.rs:385-417 | in every run the second list is tried only if the first was lost or the delay is over, and every undecided race has tried it by then; a timer that breaks never starts it |
| ConnectorClock.FirstAddressGoesFirst | src/http/dns.rs:204-215 | the first call of `connect` in any race is for the first address of the answer |
| ConnectorClock.PreferredWinsTies | src/http/mod.rs:380-384 | a preferred attempt that is ready wins, and neither timer nor fallback is looked at |
| ConnectorClock.OnlyTheWinnerIsKept | src/http/mod.rs:380-393 | a race that returned a stream holds the attempt that won and no other; polled again it panics |
| ConnectorTheorems.NoLostWakeup | src/http/mod.rs:378-411 | whenever a poll returns NotReady, every future still held, at least one, was polled unready during that call |
| ConnectorVerdict.EveryRaceEnds | src/http/mod.rs:311-420 | a race is over after at most one more poll than all its attempts together stall |
| ConnectorVerdict.VerdictIgnoresTheClock | src/http/mod.rs:377-420 | barring local trouble, a race succeeds iff one of the first \|answer\| calls of `connect` would be accepted, whatever stalls and whenever the timer fires |
| ConnectorReach.WonExactlyIfReachable | src/http/mod.rs:377-420 | when every address accepts or refuses whenever it is tried, a race that ends without local trouble is won iff some address of the answer accepts |
| ConnectorReach.ResultIsTheLastEvent | src/http/mod.rs:311-420 | a stream is the attempt just accepted; an error is that of the attempt just refused or the socket just not set up |
| ConnectorVerdict.OneListIsSequential | src/http/mod.rs:259-286 | with no timeout or a single family, repeated polling returns what a blocking connect returns, for every pattern of unready polls and set-up failures |
| ConnectorVerdict.SequentialIsFirstSuccess | src/http/mod.rs:318-336 | that is the first address that accepts, else the error that stopped the walk |
| ConnectorVerdict.SetupFailureAbandonsTheRest | src/http/mod.rs:331 | a concrete run in which an address that would accept is never tried |
| ConnectorHttp.HttpRunsTheRace | src/http/mod.rs:186-236 | over every run, `HttpConnecting` first waits for the lookup, dialing nothing, and then is exactly the race, whose stream is returned once configured and replaced by the error if it cannot be |
| ConnectorHttp.WhichUrlsAreRefused | src/http/mod.rs:84-96 | with `enforce_http` all but http, otherwise those without a scheme, and then those without a host, each with its own error; nothing is dialed, and polling again panics |
| ConnectorHttp.OtherUrlsAreRaced | src/http/mod.rs:84-111 | every other URL is looked up by its host and raced at the port given, or 443 for https and 80 otherwise |
| ConnectorHttp.FailureHasACause | src/http/mod.rs:84-236 | every failure is a URL refused for the stated reason, a failed lookup, the winning socket of this run failing to be configured, or this run's race lost on both lists with the race's error |
| ConnectorHttp.ConnectorPanicsExactlyOnEmptyLookup | src/http/mod.rs:186-237 | the connector panics exactly when a lookup succeeds with no address |
| ConnectorHttp.DialsTheRequestedPort | src/http/mod.rs:84-111 | everything dialed is an address of the lookup at the requested port, or 443 for https and 80 otherwise |
| ConnectorHttp.ConnectedHasHost | src/http/mod.rs:84-111 | a connection is only made for a destination with a host, so the `unwrap` of src/lib.rs:117 cannot panic |
| ConnectorObjects.ConnectingTcpRemote.Poll | src/http/mod.rs:311-337 | the object's loop computes `PollRemote` |
| ConnectorObjects.ConnectingTcp.constructor | src/http/mod.rs:253-287 | the new object's state is `NewTcp` |
| ConnectorObjects.ConnectingTcp.Poll | src/http/mod.rs:377-420 | taking and putting back the fallback computes `PollTcp` |
| ConnectorObjects.HttpConnecting.Poll | src/http/mod.rs:186-236 | the object's loop computes `PollHttp`, touching only its own objects and new ones, so it can be polled again |
| ConnectorObjects.RunRace | src/http/mod.rs:377-420 | polling the race object to its end is the run the theorems are about |
| ConnectorObjects.RunConnector | src/http/mod.rs:186-236 | polling the connector object to its end is the run the theorems are about |
| ConnectorObjects.Connect | src/http/mod.rs:84-236 | from the destination to the end, through the objects, is `RunHttp` of `ConnectTo` |
| Tunnel.Tunnel.PollOnce | src/proxy/tunnel.rs:73-114 | the object's loop computes `Poll`, and ends by unwritten, then unread bytes |
| TunnelRuns.Establish | src/proxy/tunnel.rs:73-114 | polling the tunnel object to its end is the run the theorems are about |
| TunnelRuns.WriteSafety | src/proxy/tunnel.rs:79-97 | in every run, faults included, the proxy has received a prefix of the request, nothing is read before it is complete, and the buffer while reading is exactly the bytes read |
| TunnelRuns.EveryEnding | src/proxy/tunnel.rs:78-112 | what each ending of every run means |
| TunnelRuns.NoLostWakeup | src/proxy/tunnel.rs:78-94 | a poll returns NotReady only after an operation of its own that found the stream unready |
| TunnelRuns.ReadyOnlyOnce | src/proxy/tunnel.rs:74-76 | after the stream has been handed out, polling panics |
| TunnelRuns.FairRunEnds | src/proxy/tunnel.rs:78-112 | a run without faults is over once the stream was ready more often than there are bytes to move, if the reply is decisive |
| TunnelRuns.RejectionIsDecidedByTwelveBytes | src/proxy/tunnel.rs:94-109 | "unsuccessful tunnel" iff the reply has at least 13 bytes and does not start with 200; a closed reply of at most 12 is an EOF error |
| TunnelRuns.GoodHeadMeans | src/proxy/tunnel.rs:98-100 | accepted at its end and nowhere earlier: more than 12 bytes, 200, its only CRLFCRLF its end |
| TunnelRuns.GoodHeadUnderEveryChunking | src/proxy/tunnel.rs:78-112 | such a reply is read exactly, under every chunking and every interleaving of NotReady (section 4.3.6 of RFC 7231) |
| TunnelRuns.ChunkingIndependentExactly | src/proxy/tunnel.rs:97-107 | and only such a reply is |
| Request.BuildConnect | src/proxy/tunnel.rs:43-67 | the formatted request is `ConnectText`, none when a header value is not printable |
| Request.ConnectRoundTrip | src/proxy/tunnel.rs:43-67 | the CONNECT request is one head for every reader, with the target in its first line and Host, from which host and port are read back, and the headers in order; it fails exactly on values that are not visible ASCII or tabs |
| Request.BuildRequest | src/lib.rs:110-133 | the loop builds `RequestText` |
| Request.RequestRoundTrip | src/lib.rs:110-133 | the only CRLFCRLF is the end; lines and first colons give back the request line, Host, Connection: close, and the headers not called host in any case, in order |
| Request.NotHostExactly | src/lib.rs:122-125 | exactly the headers called host, in any case, are left out, and the order is kept |
| Trim.LTrim | src/httparse.rs:4-10 | the loop removes exactly the leading spaces |
| Trim.RTrimLoop | src/httparse.rs:12-18 | the loop computes `RTrim` |
| Trim.RTrimExact | src/httparse.rs:12-18 | `rtrim` trims iff the trailing spaces are even in number and something is left, or overflow is unchecked |
| Trim.RTrimPanicsExactly | src/httparse.rs:12-18 | `rtrim` panics iff every second byte from the end is a space, and the number of bytes is odd or overflow is checked |
| Trim.RTrimCuts | src/httparse.rs:12-18 | otherwise the text is cut by two bytes as often as a space is met from its end, and no more often |
| Trim.TrimLeftDropsSpaces | src/httparse.rs:4-10 | only spaces are dropped from the left, and all of them |
| Trim.TrimExact | src/httparse.rs:45-48 | `ltrim(rtrim(v))` is the trimmed text under exactly the same condition |
| HttpParse.HeaderExact | src/httparse.rs:43-49 | the parser returns the trimmed name and value iff there is no second colon and `rtrim` works on both |
| HttpParse.HeaderRoundTrip | src/httparse.rs:43-49 | printing and parsing a header is the identity on exactly the printable ones; an empty value panics |
| HttpParse.HeaderOutcome | src/httparse.rs:43-49 | a header line panics iff `rtrim` runs out on the name or on the value up to a second colon, is accepted iff it has a colon and does not, and is refused with its name otherwise |
| HttpParse.StatusOutcome | src/httparse.rs:51-87 | a status line panics iff its first word has under 4 bytes or is "HTTP", and exactly which lines are accepted |
| HttpParse.StatusRefusals | src/httparse.rs:51-87 | exactly which status lines are refused, with which error and which of their words |
| HttpParse.StatusSound | src/httparse.rs:51-87 | every accepted status line has the stated shape and a code in 100..599 |
| HttpParse.StatusRoundTrip | src/httparse.rs:51-87 | printing and parsing gives back code and version, and the reason iff it has no space |
| Head.HeaderLines.Next | src/httparse.rs:92-115 | the closure's step is `NextItem` |
| Head.BlockIsItsLines | src/httparse.rs:92-95 | a framed block is its lines rejoined with CRLF |
| Head.IteratorMatchesFraming | src/httparse.rs:89-116 | on a framed block: one item per non-empty line, stopping exactly at its end |
| Head.HeadOutcome | src/lib.rs:81-99 | a framed block panics iff it has no lines, or its status line does, or that is accepted and some header line does after accepted ones; it is read iff all lines are accepted |
| Head.StatusBound | src/lib.rs:83-98 | a head that is read at all has a status in 100..599, never the initial 0 |
| Head.LowerExactly | src/lib.rs:96 | lowercasing leaves no upper-case letter, changes nothing but case, and makes two names equal iff they are the same but for case |
| Head.IteratorRoundTrip | src/httparse.rs:89-116 | iterating over a printed head yields status and headers in order and leaves what follows (sections 3.1.2 and 3.2 of RFC 7230) |
| Head.HeadRoundTrip | src/lib.rs:83-101 | what a server prints is what `request` collects, names lowercased |
| Receive.ReceiveHead | src/lib.rs:67-103 | for every chunking the loop computes `Understand` of the whole stream, and head ++ rest ++ unread is the stream |
| Receive.ParseBlock | src/lib.rs:83-99 | the loop over the iterator computes `ReadHead` |
| Receive.ReadResponse | src/lib.rs:67-107 | every response built has a status `from_u16` accepts, its headers grouped, and a body made of the leftover bytes and the connection |
| Receive.VerdictExactly | src/lib.rs:71-101 | exactly which streams have no head in the buffer, which make the client panic, and which give it a head |
| Receive.PrintedHeadIsUnderstood | src/lib.rs:71-101 | a printed head followed by anything is taken exactly if it fits in 4096 bytes, and refused otherwise |
| Receive.Exchange | src/lib.rs:67-107 | reading a response off a connection and collecting its body gives back the printed code and headers and a prefix of the body, for every chunking and suspension; all of it, and the end, if during the `n` polls the connection is ready more often than the body has bytes |
| Response.HeaderMap.constructor | src/response.rs:12-24 | every name has exactly its values, in order |
| Response.ValuesInOrder | src/response.rs:15-21 | these values are those of all pairs with the name, in order |
| Response.HeaderMap.Get | src/response.rs:26-30 | the value of the first pair with that name, if any |
| Lookup.ReceivedLookupExactly | src/response.rs:26-30 | `get` on a received response finds what a lookup without regard to case finds iff the name asked for has no upper-case letter, or there is none |
| Lookup.AnnouncedLengthIsTheLimit | src/lib.rs:96-105 | the first parsable length in a printed head, whatever the case of its name, limits the body |
| Response.ContentLength | src/lib.rs:105 | the first content-length value that parses; others are passed over |
| Response.ParseUsizeExactly | src/lib.rs:105 | a length parses iff it is digits after at most one plus sign and fits in 64 bits, to the number they stand for |
| Response.LengthRoundTrip | src/lib.rs:105 | a printed length parses back iff it fits in 64 bits |
| Body.Body.PollNextItem | src/body.rs:50-83 | the object's poll computes `PollNext` |
| Body.Collect | examples/simple.rs:18-24 | the consumer's loop computes `Drain` |
| Body.BodyConservation | src/body.rs:50-83 | at every point of every run, what was delivered is the rest and then the bytes read, cut at the limit |
| Body.ErrorsEndTheStream | src/body.rs:50-82 | an I/O error is passed on with its code and ends the stream for good |
| Body.PollsReadOnce | src/body.rs:57-75 | the rest comes first; every other poll makes one read of at most 4096 bytes and is unready iff that read is |
| Body.WithinLimitNothingIsLost | src/body.rs:50-83 | within the limit nothing is lost and nothing panics |
| Body.PanicFreeExactly | src/body.rs:65-68 | no chunking panics iff the connection cannot exceed the limit, or the limit is zero |
| Body.AlwaysWholeExactly | src/body.rs:50-83 | every fair run ends with exactly the body cut at its length iff no length is announced, or the whole body is within it, or there is no rest and the length is zero |
| Resolver.CAresResolverFuture.constructor | src/http/ares.rs:101-111 | the new future is `Resolve` of the cache |
| Resolver.CAresResolverFuture.PollOnce | src/http/ares.rs:22-54 | swapping the state out and back computes `Poll` on future and cache |
| Resolver.CacheAnswersAreLatest | src/http/ares.rs:62-78 | over every interleaving, a lookup is served iff a query for that name was completed strictly before now, with the most recent answer |
| Resolver.HitsComeFromTheSameName | src/http/ares.rs:101-111 | an answer is never attributed to another name |
| Resolver.LookupsAreServedExactly | src/http/ares.rs:101-111 | over every interleaving, a new lookup is served from the cache iff a query for its name was completed strictly before now, with the latest answer, and queries otherwise |
| Resolver.FuturesYieldTheirAnswer | src/http/ares.rs:22-54 | a future yields the addresses of its hit, or else the answer or error its query gets |
| Resolver.YieldedAddressesWereAnswered | src/http/ares.rs:22-54 | all addresses yielded in any run are those of a hit or a completed query of the same future and name, noted before |
| Resolver.YieldedErrorsWereReplies | src/http/ares.rs:34-36 | all errors yielded in any run are replies to the same future's query |
| Resolver.EachFutureYieldsOnce | src/http/ares.rs:22-54 | a future yields at most one result, is done exactly then, and polling it again panics |

## Left out

- Sockets, `TcpBuilder`, reactor handles, binding and keep-alive: `connect` returns an attempt or an error, and configuring the winning socket is one oracle.
- TLS, proxy selection and URI parsing (src/https, src/proxy/mod.rs, src/connect.rs): delegation to libraries that are not part of this model.
- The `getaddrinfo` resolvers and their executors: resolution is an oracle that answers with a list or an error.
- Wall-clock time: the 300 ms delay is a timer that is unready any number of times and then fires or breaks for good.
- Writing the request body: the loop of src/lib.rs:58-65 only forwards chunks.
- UTF-8 lossy conversion and Unicode lowercasing: texts are bytes, and `to_lowercase` is the ASCII one.
- An awaited read: it is taken to return when it has completed, so a turn on which it would be unready counts as the delivery that ended the wait.
- Capacity of the tunnel's read buffer: a read may deliver any number of bytes up to what is available.
- Lock poisoning in the cache: each locked operation is one atomic step.
- ConnectorLanes.PollKeepsLane: says nothing of a remote polled again after an error, since no caller does that.
- TunnelRuns.FairRunEnds: a peer that falls silent in the middle of an undecided reply is waited for without end, as in the source.
