/** The shared resolver cache of src/http/ares.rs: many lookups in flight, one locked map.

    `ResolverCache` and `CAresResolverFuture` are objects; every method runs under the lock, so it
    is one atomic step.  `Tick` interleaves such steps of any number of futures in any order. */
module Resolver {
  import opened Wrappers
  import opened Dns

  type Name = string
  type Cache = map<Name, (seq<IpAddr>, nat)>

  /** What a poll of the DNS query of a future yields. */
  datatype Reply = Unready | Resolved(ips: seq<IpAddr>) | Unresolved(code: int)

  datatype Future =
    | FromResolver(name: Name)
    | FromCache(ips: seq<IpAddr>)
    | Done

  datatype Polled = NotReady | Ready(ips: seq<IpAddr>) | Failed(code: int) | Panicked

  /** `lookup` (lines 63-72).  The time kept with an entry is that of its insertion, and the entry
      is used once that time is past: entries do not expire. */
  function Lookup(cache: Cache, name: Name, now: nat): Option<seq<IpAddr>> {
    if name in cache && cache[name].1 < now then Some(cache[name].0) else None
  }

  /** `resolve` (lines 101-111). */
  function Resolve(cache: Cache, name: Name, now: nat): Future {
    match Lookup(cache, name, now)
    case Some(ips) => FromCache(ips)
    case None => FromResolver(name)
  }

  /** `poll` (lines 22-54): the future, the cache, and the result. */
  function Poll(f: Future, cache: Cache, now: nat, reply: Reply): (Future, Cache, Polled) {
    match f
    case FromResolver(name) =>
      (match reply
       case Unready => (f, cache, NotReady)
       case Resolved(ips) => (Done, cache[name := (ips, now)], Ready(ips))
       case Unresolved(code) => (Done, cache, Failed(code)))
    case FromCache(ips) => (Done, cache, Ready(ips))
    case Done => (Done, cache, Panicked)
  }

  class ResolverCache {
    var cache: Cache

    constructor ()
      ensures cache == map[]
    {
      cache := map[];
    }

    method LookupEntry(name: Name, now: nat) returns (r: Option<seq<IpAddr>>)
      ensures r == Lookup(cache, name, now)
    {
      if name !in cache {
        return None;
      }
      var (vec, ttl) := cache[name];
      if ttl < now {
        return Some(vec);
      } else {
        return None;
      }
    }

    method Add(name: Name, addrs: seq<IpAddr>, now: nat)
      modifies this
      ensures cache == old(cache)[name := (addrs, now)]
    {
      cache := cache[name := (addrs, now)];
    }
  }

  class CAresResolverFuture {
    var state: Future
    const shared: ResolverCache

    /** `CAresResolverImpl::resolve`. */
    constructor (shared: ResolverCache, name: Name, now: nat)
      ensures this.shared == shared && state == Resolve(shared.cache, name, now)
    {
      this.shared := shared;
      state := Done;
      new;
      var hit := shared.LookupEntry(name, now);
      state := if hit.Some? then FromCache(hit.value) else FromResolver(name);
    }

    method PollOnce(now: nat, reply: Reply) returns (r: Polled)
      modifies this, shared
      ensures (state, shared.cache, r) == Poll(old(state), old(shared.cache), now, reply)
    {
      var taken := state;
      state := Done;
      match taken {
        case FromResolver(name) =>
          match reply {
            case Resolved(ips) =>
              shared.Add(name, ips, now);
              return Ready(ips);
            case Unresolved(code) =>
              return Failed(code);
            case Unready =>
              state := taken;
              return NotReady;
          }
        case FromCache(ips) =>
          return Ready(ips);
        case Done =>
          return Panicked;
      }
    }
  }

  // ---------------------------------------------------------------------- the whole system

  /** One atomic step of the system: some caller starts a lookup, or some future is polled. */
  datatype Tick = Start(name: Name, now: nat) | PollNo(id: nat, now: nat, reply: Reply)

  /** What has been observed, oldest first. */
  datatype Note =
    | Completed(id: nat, name: Name, ips: seq<IpAddr>, at: nat)  // a query was answered
    | Hit(id: nat, name: Name, ips: seq<IpAddr>, at: nat)        // a lookup was served by the cache
    | Yielded(id: nat, result: Polled)                            // a future was polled to an end

  datatype System = System(cache: Cache, futures: seq<Future>, names: seq<Name>, clock: nat, notes: seq<Note>)

  const IDLE := System(map[], [], [], 0, [])

  /** Time does not run backwards, and only futures that exist are polled. */
  predicate Enabled(s: System, t: Tick) {
    s.clock <= t.now && (t.PollNo? ==> t.id < |s.futures|)
  }

  function Next(s: System, t: Tick): System
    requires Enabled(s, t) && |s.futures| == |s.names|
  {
    match t
    case Start(name, now) =>
      var f := Resolve(s.cache, name, now);
      System(s.cache, s.futures + [f], s.names + [name], now,
             s.notes + if f.FromCache? then [Hit(|s.futures|, name, f.ips, now)] else [])
    case PollNo(id, now, reply) =>
      var (f, cache, r) := Poll(s.futures[id], s.cache, now, reply);
      var done := s.futures[id].FromResolver? && r.Ready?;
      System(cache, s.futures[id := f], s.names, now,
             s.notes + (if done then [Completed(id, s.names[id], r.ips, now)] else [])
                     + (if r.NotReady? then [] else [Yielded(id, r)]))
  }

  /** The states a schedule of steps can lead to; disabled steps cannot happen and are skipped. */
  function RunAll(ticks: seq<Tick>): (s: System)
    ensures |s.futures| == |s.names|
  {
    if ticks == [] then IDLE
    else
      var s := RunAll(ticks[..|ticks| - 1]);
      var t := ticks[|ticks| - 1];
      if Enabled(s, t) then Next(s, t) else s
  }

  /** The most recently completed query for a name. */
  function Latest(notes: seq<Note>, name: Name): (r: Option<Note>)
    ensures r.Some? ==> r.value.Completed? && r.value.name == name
  {
    if notes == [] then None
    else
      var last := notes[|notes| - 1];
      if last.Completed? && last.name == name then Some(last) else Latest(notes[..|notes| - 1], name)
  }

  /** How often a future has yielded a result (an error included). */
  function Yields(notes: seq<Note>, id: nat): nat {
    if notes == [] then 0
    else
      var last := notes[|notes| - 1];
      Yields(notes[..|notes| - 1], id) + if last.Yielded? && last.id == id && !last.result.Panicked? then 1 else 0
  }

  lemma LatestOf(notes: seq<Note>, n: Note, name: Name)
    ensures Latest(notes + [n], name) == if n.Completed? && n.name == name then Some(n) else Latest(notes, name)
  {
    assert (notes + [n])[..|notes|] == notes;
  }

  lemma YieldsOf(notes: seq<Note>, n: Note, id: nat)
    ensures Yields(notes + [n], id) ==
            Yields(notes, id) + if n.Yielded? && n.id == id && !n.result.Panicked? then 1 else 0
  {
    assert (notes + [n])[..|notes|] == notes;
  }

  // ----------------------------------------------------------------------------- invariants

  /** The cache is exactly what the completed queries say, name by name. */
  ghost predicate CacheAgrees(s: System) {
    forall name ::
      match Latest(s.notes, name)
      case None => name !in s.cache
      case Some(n) => name in s.cache && s.cache[name] == (n.ips, n.at) && n.at <= s.clock
  }

  /** A hit repeats the answer that was the latest for that very name when it was served, and was
      completed strictly before. */
  predicate HitsAgree(notes: seq<Note>) {
    forall i :: 0 <= i < |notes| && notes[i].Hit? ==>
      var n := Latest(notes[..i], notes[i].name);
      n.Some? && n.value.ips == notes[i].ips && n.value.at < notes[i].at
  }

  predicate FutureAgrees(s: System, id: nat)
    requires id < |s.futures| == |s.names|
  {
    match s.futures[id]
    case FromResolver(name) => name == s.names[id] && Yields(s.notes, id) == 0
    case FromCache(ips) => Yields(s.notes, id) == 0 && exists i :: 0 <= i < |s.notes| && IsHit(s.notes[i], id, s.names[id], ips)
    case Done => Yields(s.notes, id) == 1
  }

  predicate IsHit(n: Note, id: nat, name: Name, ips: seq<IpAddr>) {
    n.Hit? && n.id == id && n.name == name && n.ips == ips
  }

  ghost predicate FuturesAgree(s: System) {
    && |s.futures| == |s.names|
    && (forall id :: 0 <= id < |s.futures| ==> FutureAgrees(s, id))
    && (forall id: nat :: id >= |s.futures| ==> Yields(s.notes, id) == 0)
  }

  lemma NextKeepsCache(s: System, t: Tick)
    requires Enabled(s, t) && CacheAgrees(s) && FuturesAgree(s)
    ensures CacheAgrees(Next(s, t))
  {
    var s' := Next(s, t);
    forall name ensures
      match Latest(s'.notes, name)
      case None => name !in s'.cache
      case Some(n) => name in s'.cache && s'.cache[name] == (n.ips, n.at) && n.at <= s'.clock
    {
      LatestAfter(s, t, name);
    }
  }

  /** A step leaves the latest answer for a name alone, unless it completes a query for it. */
  lemma LatestAfter(s: System, t: Tick, name: Name)
    requires Enabled(s, t) && FuturesAgree(s)
    ensures Latest(Next(s, t).notes, name) ==
            if t.PollNo? && s.futures[t.id] == FromResolver(name) && t.reply.Resolved?
            then Some(Completed(t.id, name, t.reply.ips, t.now)) else Latest(s.notes, name)
  {
    match t
    case Start(n, now) =>
      var f := Resolve(s.cache, n, now);
      if f.FromCache? { LatestOf(s.notes, Hit(|s.futures|, n, f.ips, now), name); }
      else { assert s.notes + [] == s.notes; }
    case PollNo(id, now, reply) =>
      assert FutureAgrees(s, id);
      var (f, cache, r) := Poll(s.futures[id], s.cache, now, reply);
      var done := s.futures[id].FromResolver? && r.Ready?;
      var mid := s.notes + if done then [Completed(id, s.names[id], r.ips, now)] else [];
      if done { LatestOf(s.notes, Completed(id, s.names[id], r.ips, now), name); }
      else { assert mid == s.notes; }
      if r.NotReady? { assert mid + [] == mid; } else { LatestOf(mid, Yielded(id, r), name); }
  }

  lemma NextKeepsHits(s: System, t: Tick)
    requires Enabled(s, t) && CacheAgrees(s) && FuturesAgree(s) && HitsAgree(s.notes)
    ensures HitsAgree(Next(s, t).notes)
  {
    var notes := Next(s, t).notes;
    forall i | 0 <= i < |notes| && notes[i].Hit?
      ensures var n := Latest(notes[..i], notes[i].name);
              n.Some? && n.value.ips == notes[i].ips && n.value.at < notes[i].at
    {
      assert s.notes <= notes;
      if i < |s.notes| {
        assert notes[..i] == s.notes[..i] && notes[i] == s.notes[i];
      } else {
        assert t.Start? && i == |s.notes|;
        assert notes[..i] == s.notes;
        assert notes[i].name in s.cache;
      }
    }
  }

  lemma YieldsAfter(s: System, t: Tick, id: nat)
    requires Enabled(s, t) && FuturesAgree(s)
    ensures Yields(Next(s, t).notes, id) ==
            Yields(s.notes, id) + if t.PollNo? && t.id == id && Poll(s.futures[id], s.cache, t.now, t.reply).2.NotReady? == false
                                     && !s.futures[id].Done? then 1 else 0
  {
    match t
    case Start(n, now) =>
      var f := Resolve(s.cache, n, now);
      if f.FromCache? { YieldsOf(s.notes, Hit(|s.futures|, n, f.ips, now), id); }
      else { assert s.notes + [] == s.notes; }
    case PollNo(k, now, reply) =>
      var (f, cache, r) := Poll(s.futures[k], s.cache, now, reply);
      var done := s.futures[k].FromResolver? && r.Ready?;
      var mid := s.notes + if done then [Completed(k, s.names[k], r.ips, now)] else [];
      if done { YieldsOf(s.notes, Completed(k, s.names[k], r.ips, now), id); }
      else { assert mid == s.notes; }
      if r.NotReady? { assert mid + [] == mid; } else { YieldsOf(mid, Yielded(k, r), id); }
  }

  lemma NextKeepsFutures(s: System, t: Tick)
    requires Enabled(s, t) && FuturesAgree(s)
    ensures FuturesAgree(Next(s, t))
  {
    var s' := Next(s, t);
    assert s.notes <= s'.notes;
    forall id | 0 <= id < |s'.futures| ensures FutureAgrees(s', id) {
      YieldsAfter(s, t, id);
      if id < |s.futures| {
        assert FutureAgrees(s, id);
        if s.futures[id].FromCache? {
          var i :| 0 <= i < |s.notes| && IsHit(s.notes[i], id, s.names[id], s.futures[id].ips);
          assert s'.notes[i] == s.notes[i];
        }
      } else if s'.futures[id].FromCache? {
        assert IsHit(s'.notes[|s.notes|], id, s'.names[id], s'.futures[id].ips);
      }
    }
    forall id: nat | id >= |s'.futures| ensures Yields(s'.notes, id) == 0 {
      YieldsAfter(s, t, id);
    }
  }

  lemma {:induction false} RunKeeps(ticks: seq<Tick>)
    ensures var s := RunAll(ticks); CacheAgrees(s) && FuturesAgree(s) && HitsAgree(s.notes)
  {
    if ticks == [] {
    } else {
      RunKeeps(ticks[..|ticks| - 1]);
      var s, t := RunAll(ticks[..|ticks| - 1]), ticks[|ticks| - 1];
      if Enabled(s, t) {
        NextKeepsCache(s, t);
        NextKeepsHits(s, t);
        NextKeepsFutures(s, t);
      }
    }
  }

  /** A hit belongs to a future that holds its answer until it is done. */
  predicate HitsHeld(s: System) {
    forall i :: 0 <= i < |s.notes| && s.notes[i].Hit? ==> HeldBy(s, s.notes[i])
  }

  predicate HeldBy(s: System, n: Note)
    requires n.Hit?
  {
    n.id < |s.futures| && (s.futures[n.id].Done? || s.futures[n.id] == FromCache(n.ips))
  }

  lemma NextKeepsHeld(s: System, t: Tick)
    requires Enabled(s, t) && FuturesAgree(s) && HitsHeld(s)
    ensures HitsHeld(Next(s, t))
  {
    var s' := Next(s, t);
    forall i | 0 <= i < |s'.notes| && s'.notes[i].Hit? ensures HeldBy(s', s'.notes[i]) {
      if i < |s.notes| { assert s'.notes[i] == s.notes[i] && HeldBy(s, s.notes[i]); }
    }
  }

  /** A future that yielded addresses was served by the cache or had its query answered before,
      under its own name and with these addresses. */
  predicate AnsweredBefore(s: System, i: nat)
    requires i < |s.notes| && s.notes[i].Yielded? && s.notes[i].result.Ready? && s.notes[i].id < |s.names|
  {
    exists j :: 0 <= j < i && IsAnswer(s.notes[j], s.notes[i].id, s.names[s.notes[i].id], s.notes[i].result.ips)
  }

  predicate IsAnswer(n: Note, id: nat, name: Name, ips: seq<IpAddr>) {
    (n.Hit? || n.Completed?) && n.id == id && n.name == name && n.ips == ips
  }

  predicate IsReadyNote(n: Note) { n.Yielded? && n.result.Ready? }

  predicate YieldsAgree(s: System) {
    forall i :: 0 <= i < |s.notes| && IsReadyNote(s.notes[i]) ==> s.notes[i].id < |s.names| && AnsweredBefore(s, i)
  }

  lemma NextKeepsYields(s: System, t: Tick)
    requires Enabled(s, t) && FuturesAgree(s) && YieldsAgree(s)
    ensures YieldsAgree(Next(s, t))
  {
    var s' := Next(s, t);
    assert s.notes <= s'.notes && s.names <= s'.names;
    forall i | 0 <= i < |s'.notes| && IsReadyNote(s'.notes[i])
      ensures s'.notes[i].id < |s'.names| && AnsweredBefore(s', i)
    {
      if i < |s.notes| {
        assert IsReadyNote(s.notes[i]) && AnsweredBefore(s, i);
        var j :| 0 <= j < i && IsAnswer(s.notes[j], s.notes[i].id, s.names[s.notes[i].id], s.notes[i].result.ips);
        assert IsAnswer(s'.notes[j], s'.notes[i].id, s'.names[s'.notes[i].id], s'.notes[i].result.ips);
      } else {
        NewYieldAgrees(s, t, i);
      }
    }
  }

  lemma NewYieldAgrees(s: System, t: Tick, i: nat)
    requires Enabled(s, t) && FuturesAgree(s) && |s.notes| <= i < |Next(s, t).notes| && IsReadyNote(Next(s, t).notes[i])
    ensures Next(s, t).notes[i].id < |Next(s, t).names| && AnsweredBefore(Next(s, t), i)
  {
    var s' := Next(s, t);
    assert FutureAgrees(s, t.id);
    var id, ips := t.id, s'.notes[i].result.ips;
    if s.futures[id].FromCache? {
      var j :| 0 <= j < |s.notes| && IsHit(s.notes[j], id, s.names[id], s.futures[id].ips);
      assert IsAnswer(s'.notes[j], id, s'.names[id], ips);
    } else {
      assert IsAnswer(s'.notes[i - 1], id, s'.names[id], ips);
    }
  }

  lemma {:induction false} RunKeepsYields(ticks: seq<Tick>)
    ensures HitsHeld(RunAll(ticks)) && YieldsAgree(RunAll(ticks))
  {
    if ticks == [] {
    } else {
      RunKeepsYields(ticks[..|ticks| - 1]);
      RunKeeps(ticks[..|ticks| - 1]);
      var s, t := RunAll(ticks[..|ticks| - 1]), ticks[|ticks| - 1];
      if Enabled(s, t) {
        NextKeepsHeld(s, t);
        NextKeepsYields(s, t);
      }
    }
  }

  // ------------------------------------------------------------------------------- theorems

  /** A lookup is served from the cache exactly when a query for that name was completed before,
      with the most recent answer; otherwise it queries. */
  lemma LookupsAreServedExactly(ticks: seq<Tick>, name: Name, now: nat)
    requires RunAll(ticks).clock <= now
    ensures var s := RunAll(ticks);
            var n := Latest(s.notes, name);
            Next(s, Start(name, now)).futures ==
            s.futures + [if n.Some? && n.value.at < now then FromCache(n.value.ips) else FromResolver(name)]
  {
    RunKeeps(ticks);
  }

  /** What a future yields: the addresses of its hit if the cache served it, and otherwise what
      its query is answered with, addresses or error code. */
  lemma FuturesYieldTheirAnswer(ticks: seq<Tick>, id: nat, now: nat, reply: Reply)
    requires id < |RunAll(ticks).futures| && Yields(RunAll(ticks).notes, id) == 0
    ensures var s := RunAll(ticks);
            var r := Poll(s.futures[id], s.cache, now, reply).2;
            && (forall i :: 0 <= i < |s.notes| && s.notes[i].Hit? && s.notes[i].id == id ==> r == Ready(s.notes[i].ips))
            && ((forall i :: 0 <= i < |s.notes| && s.notes[i].Hit? ==> s.notes[i].id != id) ==>
                  match reply
                  case Unready => r == NotReady
                  case Resolved(ips) => r == Ready(ips)
                  case Unresolved(code) => r == Failed(code))
  {
    RunKeeps(ticks);
    RunKeepsYields(ticks);
    var s := RunAll(ticks);
    assert FutureAgrees(s, id);
    forall i | 0 <= i < |s.notes| && s.notes[i].Hit? && s.notes[i].id == id
      ensures s.futures[id] == FromCache(s.notes[i].ips)
    {
      assert HeldBy(s, s.notes[i]);
    }
    if s.futures[id].FromCache? {
      var i :| 0 <= i < |s.notes| && IsHit(s.notes[i], id, s.names[id], s.futures[id].ips);
      assert s.notes[i].Hit? && s.notes[i].id == id;
    }
  }

  /** Over every interleaving: addresses that were yielded are those of a hit or a completed query
      of the same future, under its own name, noted before. */
  lemma YieldedAddressesWereAnswered(ticks: seq<Tick>, i: nat) returns (j: nat)
    requires i < |RunAll(ticks).notes| && IsReadyNote(RunAll(ticks).notes[i])
    ensures var s := RunAll(ticks);
            && s.notes[i].id < |s.names| && j < i
            && IsAnswer(s.notes[j], s.notes[i].id, s.names[s.notes[i].id], s.notes[i].result.ips)
  {
    RunKeepsYields(ticks);
    var s := RunAll(ticks);
    assert AnsweredBefore(s, i);
    j :| 0 <= j < i && IsAnswer(s.notes[j], s.notes[i].id, s.names[s.notes[i].id], s.notes[i].result.ips);
  }

  /** And an error that was yielded is the reply that the future's query got. */
  lemma {:induction false} YieldedErrorsWereReplies(ticks: seq<Tick>, i: nat) returns (k: nat)
    requires var notes := RunAll(ticks).notes; i < |notes| && notes[i].Yielded? && notes[i].result.Failed?
    ensures var n := RunAll(ticks).notes[i];
            k < |ticks| && ticks[k].PollNo? && ticks[k].id == n.id && ticks[k].reply == Unresolved(n.result.code)
  {
    var s, t := RunAll(ticks[..|ticks| - 1]), ticks[|ticks| - 1];
    if !Enabled(s, t) || i < |s.notes| {
      k := YieldedErrorsWereReplies(ticks[..|ticks| - 1], i);
    } else {
      k := |ticks| - 1;
    }
  }

  /** Cache agreement: over every interleaving, a lookup at a later time is answered from the
      cache if and only if a query for that very name has been completed before, and then with
      the answer of the most recent one. */
  lemma CacheAnswersAreLatest(ticks: seq<Tick>, name: Name, now: nat)
    requires RunAll(ticks).clock <= now
    ensures var s := RunAll(ticks);
            var n := Latest(s.notes, name);
            Lookup(s.cache, name, now) == if n.Some? && n.value.at < now then Some(n.value.ips) else None
  {
    RunKeeps(ticks);
  }

  /** An answer is never attributed to another name, and is never newer than the hit: what a
      future made from the cache will yield is an answer completed earlier for its own name. */
  lemma HitsComeFromTheSameName(ticks: seq<Tick>, id: nat) returns (i: nat)
    requires id < |RunAll(ticks).futures| && RunAll(ticks).futures[id].FromCache?
    ensures var s := RunAll(ticks);
            && i < |s.notes| && IsHit(s.notes[i], id, s.names[id], s.futures[id].ips)
            && var n := Latest(s.notes[..i], s.names[id]);
               n.Some? && n.value.name == s.names[id] && n.value.ips == s.futures[id].ips && n.value.at < s.notes[i].at
  {
    RunKeeps(ticks);
    var s := RunAll(ticks);
    assert FutureAgrees(s, id);
    i :| 0 <= i < |s.notes| && IsHit(s.notes[i], id, s.names[id], s.futures[id].ips);
  }

  /** Each future yields at most one result; it has yielded exactly when it is done, and polling
      it panics exactly then. */
  lemma EachFutureYieldsOnce(ticks: seq<Tick>, id: nat, now: nat, reply: Reply)
    requires id < |RunAll(ticks).futures|
    ensures var s := RunAll(ticks);
            && Yields(s.notes, id) <= 1
            && (Yields(s.notes, id) == 1 <==> s.futures[id].Done?)
            && (Poll(s.futures[id], s.cache, now, reply).2.Panicked? <==> Yields(s.notes, id) == 1)
  {
    RunKeeps(ticks);
    assert FutureAgrees(RunAll(ticks), id);
  }
}
