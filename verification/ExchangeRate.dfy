/** The exchange-rate proxy: a cache, a sliding-window rate limiter and a stale fallback. */
module ExchangeRate {
  import opened Wrappers

  datatype Rate = Rate(from: string, to: string, rate: real, asOf: string)

  /** What the provider says when it is asked: a rate, a business error, or any other failure. */
  datatype Answer = Rated(rate: Rate) | NoRate | Down

  datatype Source = CACHE | PROVIDER | STALE_CACHE

  datatype Reply = Quoted(rate: Rate, source: Source) | BusinessRuleError | DependencyUnavailable

  const MINUTE := 60_000

  /** The clock readings of one call, in the order they are taken. */
  datatype Times = Times(look: int, window: int, push: int, stored: int)

  datatype Call = Call(from: string, to: string, times: Times, answer: Answer)

  datatype Stored = Stored(rate: Rate, at: int)

  datatype State = State(cache: map<string, Stored>, recentCalls: seq<int>, hits: nat, misses: nat, staleServed: nat)

  const START := State(map[], [], 0, 0, 0)

  function Key(c: Call): string {
    c.from + "/" + c.to
  }

  // ---------- The limiter ----------

  function NewerThan(ts: seq<int>, limit: int): seq<int> {
    if ts == [] then []
    else (if ts[0] > limit then [ts[0]] else []) + NewerThan(ts[1..], limit)
  }

  /** Forgets timestamps of a minute ago and older; records this call if there is room for it. */
  function Admit(recent: seq<int>, window: int, push: int, max: int): (r: (seq<int>, bool)) {
    var kept := NewerThan(recent, window - MINUTE);
    if |kept| >= max then (kept, false) else (kept + [push], true)
  }

  // ---------- One call ----------

  function Fallback(s: State, cached: Option<Stored>): (State, Reply) {
    if cached.Some? then (s.(staleServed := s.staleServed + 1), Quoted(cached.value.rate, STALE_CACHE))
    else (s, DependencyUnavailable)
  }

  function Ask(s: State, c: Call, ttl: int, max: int): (State, Reply) {
    var key := Key(c);
    var cached := if key in s.cache then Some(s.cache[key]) else None;
    if cached.Some? && c.times.look - cached.value.at < ttl
    then (s.(hits := s.hits + 1), Quoted(cached.value.rate, CACHE))
    else
      var (recent, admitted) := Admit(s.recentCalls, c.times.window, c.times.push, max);
      var missed := s.(misses := s.misses + 1, recentCalls := recent);
      if !admitted then Fallback(missed, cached)
      else match c.answer
        case Rated(rate) => (missed.(cache := s.cache[key := Stored(rate, c.times.stored)]), Quoted(rate, PROVIDER))
        case NoRate => (missed, BusinessRuleError)
        case Down => Fallback(missed, cached)
  }

  class CachingExchangeRateProxy {
    const ttlMs: int
    const maxCallsPerMinute: int
    var cache: map<string, Stored>
    var recentCalls: seq<int>
    var hits: nat
    var misses: nat
    var staleServed: nat

    constructor (ttlMs: int, maxCallsPerMinute: int)
      ensures this.ttlMs == ttlMs && this.maxCallsPerMinute == maxCallsPerMinute && Now() == START
    {
      this.ttlMs, this.maxCallsPerMinute := ttlMs, maxCallsPerMinute;
      cache, recentCalls, hits, misses, staleServed := map[], [], 0, 0, 0;
    }

    function Now(): State
      reads this
    {
      State(cache, recentCalls, hits, misses, staleServed)
    }

    method GetRate(c: Call) returns (r: Reply)
      modifies this
      ensures (Now(), r) == Ask(old(Now()), c, ttlMs, maxCallsPerMinute)
    {
      var key := c.from + "/" + c.to;
      var cached := if key in cache then Some(cache[key]) else None;
      if cached.Some? && c.times.look - cached.value.at < ttlMs {
        hits := hits + 1;
        return Quoted(cached.value.rate, CACHE);
      }
      misses := misses + 1;
      var admitted := EnforceRateLimit(c.times.window, c.times.push);
      if admitted {
        match c.answer {
          case Rated(rate) =>
            cache := cache[key := Stored(rate, c.times.stored)];
            return Quoted(rate, PROVIDER);
          case NoRate => return BusinessRuleError;
          case Down =>
        }
      }
      if cached.Some? {
        staleServed := staleServed + 1;
        return Quoted(cached.value.rate, STALE_CACHE);
      }
      return DependencyUnavailable;
    }

    method EnforceRateLimit(window: int, push: int) returns (admitted: bool)
      modifies `recentCalls
      ensures (recentCalls, admitted) == Admit(old(recentCalls), window, push, maxCallsPerMinute)
    {
      recentCalls := NewerThan(recentCalls, window - MINUTE);
      if |recentCalls| >= maxCallsPerMinute { return false; }
      recentCalls := recentCalls + [push];
      return true;
    }
  }

  // ---------- The limiter over any sequence of attempts ----------

  datatype Attempt = Attempt(window: int, push: int)

  function Recent(attempts: seq<Attempt>, max: int): seq<int> {
    if attempts == [] then []
    else
      var last := attempts[|attempts| - 1];
      Admit(Recent(attempts[..|attempts| - 1], max), last.window, last.push, max).0
  }

  /** The times of the attempts that were let through to the provider. */
  function LetThrough(attempts: seq<Attempt>, max: int): seq<int> {
    if attempts == [] then []
    else
      var front, last := attempts[..|attempts| - 1], attempts[|attempts| - 1];
      LetThrough(front, max) + if Admit(Recent(front, max), last.window, last.push, max).1 then [last.push] else []
  }

  /** The clock never goes back. */
  predicate Monotone(attempts: seq<Attempt>) {
    && (forall i :: 0 <= i < |attempts| ==> attempts[i].window <= attempts[i].push)
    && (forall i, j :: 0 <= i < j < |attempts| ==> attempts[i].push <= attempts[j].window)
  }

  /** How many of the times lie in the minute (t, t + 60 s]. */
  function CountIn(ts: seq<int>, t: int): nat {
    if ts == [] then 0
    else (if t < ts[0] <= t + 60_000 then 1 else 0) + CountIn(ts[1..], t)
  }

  lemma {:induction false} CountInConcat(a: seq<int>, b: seq<int>, t: int)
    ensures CountIn(a + b, t) == CountIn(a, t) + CountIn(b, t)
  {
    if a == [] {
      assert a + b == b;
    } else {
      assert (a + b)[1..] == a[1..] + b;
      CountInConcat(a[1..], b, t);
    }
  }

  lemma {:induction false} CountInBounds(ts: seq<int>, t: int)
    ensures CountIn(ts, t) <= |ts|
    ensures (forall i :: 0 <= i < |ts| ==> ts[i] <= t) ==> CountIn(ts, t) == 0
  {
    if ts != [] { CountInBounds(ts[1..], t); }
  }

  lemma {:induction false} NewerThanSplits(ts: seq<int>, limit: int) returns (k: nat)
    requires forall i, j :: 0 <= i <= j < |ts| ==> ts[i] <= ts[j]
    ensures k <= |ts| && NewerThan(ts, limit) == ts[k..] && forall i :: 0 <= i < k ==> ts[i] <= limit
  {
    if ts == [] {
      k := 0;
    } else if ts[0] <= limit {
      var j := NewerThanSplits(ts[1..], limit);
      k := j + 1;
      assert ts[1..][j..] == ts[k..];
    } else {
      k := 0;
      AllNewer(ts, limit);
    }
  }

  lemma {:induction false} AllNewer(ts: seq<int>, limit: int)
    requires forall i :: 0 <= i < |ts| ==> ts[i] > limit
    ensures NewerThan(ts, limit) == ts
  {
    if ts != [] {
      AllNewer(ts[1..], limit);
      assert [ts[0]] + ts[1..] == ts;
    }
  }

  /** What the limiter still remembers is the newest part of what it let through, and everything it
      has forgotten lies a minute or more before any later attempt. */
  ghost predicate Remembers(all: seq<int>, recent: seq<int>, now: int, k: nat) {
    && k <= |all| && recent == all[k..]
    && (forall i :: 0 <= i < k ==> all[i] <= now - 60_000)
    && (forall i, j :: 0 <= i <= j < |all| ==> all[i] <= all[j])
    && forall i :: 0 <= i < |all| ==> all[i] <= now
  }

  lemma Forgets(all: seq<int>, recent: seq<int>, before: int, k: nat, now: int) returns (k': nat)
    requires Remembers(all, recent, before, k) && before <= now
    ensures k <= k' && Remembers(all, NewerThan(recent, now - 60_000), now, k')
  {
    var m := NewerThanSplits(recent, now - 60_000);
    k' := k + m;
    hide NewerThan;
    assert recent[m..] == all[k'..];
    forall i | 0 <= i < k' ensures all[i] <= now - 60_000 {
      if k <= i { assert all[i] == recent[i - k]; }
    }
  }

  lemma Records(all: seq<int>, kept: seq<int>, now: int, k: nat, push: int)
    requires Remembers(all, kept, now, k) && now <= push
    ensures Remembers(all, kept, push, k) && Remembers(all + [push], kept + [push], push, k)
  {}

  /** One more call let through keeps every minute within the limit. */
  lemma RoomForOneMore(all: seq<int>, kept: seq<int>, now: int, k: nat, push: int, max: int, t: int)
    requires Remembers(all, kept, now, k) && now <= push && |kept| < max && CountIn(all, t) <= max
    ensures CountIn(all + [push], t) <= max
  {
    CountInConcat(all, [push], t);
    assert CountIn([push], t) == if t < push <= t + 60_000 then 1 else 0 by { assert [push][1..] == []; }
    if t < push <= t + 60_000 {
      assert all == all[..k] + kept;
      CountInConcat(all[..k], kept, t);
      CountInBounds(all[..k], t);
      CountInBounds(kept, t);
    }
  }

  /** No more than the allowed number of provider calls in any minute, although old times are dropped. */
  lemma {:induction false} LimiterHolds(attempts: seq<Attempt>, max: int, t: int) returns (k: nat)
    requires Monotone(attempts)
    ensures CountIn(LetThrough(attempts, max), t) <= if max < 0 then 0 else max
    ensures attempts == [] ==> k == 0
    ensures attempts != [] ==>
      Remembers(LetThrough(attempts, max), Recent(attempts, max), attempts[|attempts| - 1].push, k)
    decreases |attempts|
  {
    k := 0;
    if attempts != [] {
      var front, last := attempts[..|attempts| - 1], attempts[|attempts| - 1];
      var k0 := LimiterHolds(front, max, t);
      var all, recent := LetThrough(front, max), Recent(front, max);
      var before := if front == [] then last.window else front[|front| - 1].push;
      var kept := NewerThan(recent, last.window - MINUTE);
      k := Forgets(all, recent, before, k0, last.window);
      Records(all, kept, last.window, k, last.push);
      if |kept| < max {
        assert Admit(recent, last.window, last.push, max) == (kept + [last.push], true);
        RoomForOneMore(all, kept, last.window, k, last.push, if max < 0 then 0 else max, t);
      } else {
        assert Admit(recent, last.window, last.push, max) == (kept, false);
        assert all + [] == all;
      }
    }
  }

  lemma {:induction false} AllCounted(ts: seq<int>, t: int)
    requires forall i :: 0 <= i < |ts| ==> t < ts[i] <= t + 60_000
    ensures CountIn(ts, t) == |ts|
  {
    if ts != [] { AllCounted(ts[1..], t); }
  }

  lemma {:induction false} NewerThanIsNewer(ts: seq<int>, limit: int)
    ensures forall i :: 0 <= i < |NewerThan(ts, limit)| ==> NewerThan(ts, limit)[i] > limit
  {
    if ts != [] { NewerThanIsNewer(ts[1..], limit); }
  }

  lemma KeptIsCounted(all: seq<int>, kept: seq<int>, now: int, k: nat)
    requires Remembers(all, kept, now, k) && forall i :: 0 <= i < |kept| ==> kept[i] > now - 60_000
    ensures CountIn(all, now - 60_000) == |kept|
  {
    hide CountIn;
    assert all == all[..k] + kept;
    assert forall i :: 0 <= i < |kept| ==> kept[i] == all[k + i];
    CountInConcat(all[..k], kept, now - 60_000);
    CountInBounds(all[..k], now - 60_000);
    AllCounted(kept, now - 60_000);
  }

  /** An attempt is let through exactly when fewer than the allowed number of calls went through in
      the 60 seconds before it. */
  lemma LetThroughExactly(attempts: seq<Attempt>, a: Attempt, max: int)
    requires Monotone(attempts + [a])
    ensures Admit(Recent(attempts, max), a.window, a.push, max).1
            <==> CountIn(LetThrough(attempts, max), a.window - 60_000) < max
  {
    hide LetThrough, Recent, NewerThan, CountIn, Remembers;
    var k := RemembersAt(attempts, a, max);
    NewerThanIsNewer(Recent(attempts, max), a.window - 60_000);
    KeptIsCounted(LetThrough(attempts, max), NewerThan(Recent(attempts, max), a.window - 60_000), a.window, k);
  }

  lemma RemembersAt(attempts: seq<Attempt>, a: Attempt, max: int) returns (k: nat)
    requires Monotone(attempts + [a])
    ensures Remembers(LetThrough(attempts, max), NewerThan(Recent(attempts, max), a.window - 60_000), a.window, k)
  {
    k := 0;
    if attempts != [] {
      hide LetThrough, Recent, NewerThan, CountIn, Remembers;
      PrefixIsMonotone(attempts, a);
      var k0 := LimiterHolds(attempts, max, 0);
      k := Forgets(LetThrough(attempts, max), Recent(attempts, max), attempts[|attempts| - 1].push, k0, a.window);
    }
  }

  lemma PrefixIsMonotone(attempts: seq<Attempt>, a: Attempt)
    requires Monotone(attempts + [a])
    ensures Monotone(attempts) && (attempts != [] ==> attempts[|attempts| - 1].push <= a.window)
  {
    assert forall i :: 0 <= i < |attempts| ==> (attempts + [a])[i] == attempts[i];
    assert (attempts + [a])[|attempts|] == a;
  }

  // ---------- Sequential runs of the whole proxy ----------

  function After(calls: seq<Call>, ttl: int, max: int): State {
    if calls == [] then START
    else Ask(After(calls[..|calls| - 1], ttl, max), calls[|calls| - 1], ttl, max).0
  }

  function LastReply(calls: seq<Call>, ttl: int, max: int): Reply
    requires calls != []
  {
    Ask(After(calls[..|calls| - 1], ttl, max), calls[|calls| - 1], ttl, max).1
  }

  /** The latest rate the provider itself gave for a key, told from the replies alone. */
  function LatestSuccess(calls: seq<Call>, key: string, ttl: int, max: int): Option<Stored> {
    if calls == [] then None
    else
      var last, reply := calls[|calls| - 1], LastReply(calls, ttl, max);
      if reply.Quoted? && reply.source == PROVIDER && last.from + "/" + last.to == key then Some(Stored(reply.rate, last.times.stored))
      else LatestSuccess(calls[..|calls| - 1], key, ttl, max)
  }

  /** The cache holds, for every key, exactly the provider's latest success. */
  lemma {:induction false} CacheIsLatest(calls: seq<Call>, key: string, ttl: int, max: int)
    ensures var s := After(calls, ttl, max);
      LatestSuccess(calls, key, ttl, max) == if key in s.cache then Some(s.cache[key]) else None
  {
    if calls != [] { CacheIsLatest(calls[..|calls| - 1], key, ttl, max); }
  }

  /** The limiter attempts a sequential run makes. */
  function Attempts(calls: seq<Call>, ttl: int, max: int): seq<Attempt> {
    if calls == [] then []
    else
      var last, reply := calls[|calls| - 1], LastReply(calls, ttl, max);
      Attempts(calls[..|calls| - 1], ttl, max)
        + if reply.Quoted? && reply.source == CACHE then [] else [Attempt(last.times.window, last.times.push)]
  }

  /** Every call is a hit or a miss, every miss tries the limiter, and stale answers are misses. */
  lemma {:induction false} EveryCallIsCounted(calls: seq<Call>, ttl: int, max: int)
    ensures var s := After(calls, ttl, max);
      && s.hits + s.misses == |calls| && s.staleServed <= s.misses
      && s.misses == |Attempts(calls, ttl, max)|
      && s.recentCalls == Recent(Attempts(calls, ttl, max), max)
  {
    hide Admit;
    if calls != [] {
      var front, last := calls[..|calls| - 1], calls[|calls| - 1];
      EveryCallIsCounted(front, ttl, max);
      var attempts := Attempts(calls, ttl, max);
      if attempts != Attempts(front, ttl, max) {
        assert attempts[..|attempts| - 1] == Attempts(front, ttl, max);
      } else {
        assert Attempts(front, ttl, max) + [] == Attempts(front, ttl, max);
      }
    }
  }

  /** The clock readings of a sequential run, in order. */
  predicate InOrder(calls: seq<Call>) {
    && (forall i :: 0 <= i < |calls| ==>
          var t := calls[i].times; t.look <= t.window <= t.push <= t.stored)
    && (forall i, j :: 0 <= i < j < |calls| ==> calls[i].times.stored <= calls[j].times.look)
  }

  lemma {:induction false} AttemptsAreMonotone(calls: seq<Call>, ttl: int, max: int)
    requires InOrder(calls)
    ensures Monotone(Attempts(calls, ttl, max))
    ensures calls != [] ==> forall a :: a in Attempts(calls, ttl, max) ==> a.push <= calls[|calls| - 1].times.push
  {
    if calls != [] {
      var front := calls[..|calls| - 1];
      AttemptsAreMonotone(front, ttl, max);
      var earlier, last := Attempts(front, ttl, max), calls[|calls| - 1];
      if front != [] {
        assert front[|front| - 1] == calls[|front| - 1];
        assert forall a :: a in earlier ==> a.push <= last.times.window;
      }
    }
  }

  /** In a sequential run, any minute sees at most the allowed number of provider calls. */
  lemma ProxyKeepsTheLimit(calls: seq<Call>, ttl: int, max: int, t: int)
    requires InOrder(calls)
    ensures CountIn(LetThrough(Attempts(calls, ttl, max), max), t) <= if max < 0 then 0 else max
  {
    AttemptsAreMonotone(calls, ttl, max);
    var _ := LimiterHolds(Attempts(calls, ttl, max), max, t);
  }

  // ---------- What a caller is told ----------

  /** Every reply follows from the history and the limiter. */
  lemma RepliesFollowTheLimiter(calls: seq<Call>, ttl: int, max: int)
    requires calls != []
    ensures var front, c := calls[..|calls| - 1], calls[|calls| - 1];
      var latest, reply := LatestSuccess(front, c.from + "/" + c.to, ttl, max), LastReply(calls, ttl, max);
      var refused := !Admit(Recent(Attempts(front, ttl, max), max), c.times.window, c.times.push, max).1;
      var young := latest.Some? && c.times.look - latest.value.at < ttl;
      && (young <==> reply.Quoted? && reply.source == CACHE)
      && (young ==> reply.rate == latest.value.rate)
      && (!young && !refused && c.answer != Down ==>
            reply == if c.answer == NoRate then BusinessRuleError else Quoted(c.answer.rate, PROVIDER))
      && (!young && (refused || c.answer == Down) ==>
            reply == if latest.Some? then Quoted(latest.value.rate, STALE_CACHE) else DependencyUnavailable)
  {
    var c := calls[|calls| - 1];
    CacheIsLatest(calls[..|calls| - 1], c.from + "/" + c.to, ttl, max);
    EveryCallIsCounted(calls[..|calls| - 1], ttl, max);
  }

  /** Every reply is decided by the history alone: the cache answers exactly when the provider's latest
      success for the pair is younger than the time to live; otherwise the provider is asked exactly when
      fewer than the allowed number of calls went to it in the 60 seconds before, and its answer counts;
      only when the limit is used up or the provider fails does the latest success stand in. */
  lemma RepliesAreJustified(calls: seq<Call>, ttl: int, max: int)
    requires calls != [] && InOrder(calls)
    ensures var front, c := calls[..|calls| - 1], calls[|calls| - 1];
      var latest, reply := LatestSuccess(front, c.from + "/" + c.to, ttl, max), LastReply(calls, ttl, max);
      var asked := LetThrough(Attempts(front, ttl, max), max);
      var refused := CountIn(asked, c.times.window - 60_000) >= max;
      var young := latest.Some? && c.times.look - latest.value.at < ttl;
      && (young <==> reply.Quoted? && reply.source == CACHE)
      && (young ==> reply.rate == latest.value.rate)
      && (!young && !refused && c.answer != Down ==>
            reply == if c.answer == NoRate then BusinessRuleError else Quoted(c.answer.rate, PROVIDER))
      && (!young && (refused || c.answer == Down) ==>
            reply == if latest.Some? then Quoted(latest.value.rate, STALE_CACHE) else DependencyUnavailable)
  {
    hide LetThrough, Recent, CountIn, LatestSuccess, LastReply, Attempts, Admit;
    var front, c := calls[..|calls| - 1], calls[|calls| - 1];
    var a := Attempt(c.times.window, c.times.push);
    RepliesFollowTheLimiter(calls, ttl, max);
    NextAttemptIsMonotone(calls, ttl, max);
    LetThroughExactly(Attempts(front, ttl, max), a, max);
  }

  /** Were the last call to reach the limiter, its attempt would continue the clock. */
  lemma NextAttemptIsMonotone(calls: seq<Call>, ttl: int, max: int)
    requires calls != [] && InOrder(calls)
    ensures var front, t := calls[..|calls| - 1], calls[|calls| - 1].times;
      Monotone(Attempts(front, ttl, max) + [Attempt(t.window, t.push)])
  {
    hide Attempts;
    var front := calls[..|calls| - 1];
    AttemptsAreMonotone(front, ttl, max);
    if front == [] {
      NoCallsNoAttempts(ttl, max);
    } else {
      assert front[|front| - 1] == calls[|front| - 1];
    }
  }

  lemma NoCallsNoAttempts(ttl: int, max: int)
    ensures Attempts([], ttl, max) == []
  {}

  /** The times let through are those of the calls the provider was asked in. */
  lemma {:induction false} AskedMeansProvider(calls: seq<Call>, ttl: int, max: int)
    requires calls != []
    ensures var front, c := calls[..|calls| - 1], calls[|calls| - 1];
      var before, after := LetThrough(Attempts(front, ttl, max), max), LetThrough(Attempts(calls, ttl, max), max);
      var reply := LastReply(calls, ttl, max);
      && (after == before || after == before + [c.times.push])
      && (reply == BusinessRuleError || (reply.Quoted? && reply.source == PROVIDER) ==> after == before + [c.times.push])
      && (reply.Quoted? && reply.source == CACHE ==> after == before)
  {
    var front, c := calls[..|calls| - 1], calls[|calls| - 1];
    EveryCallIsCounted(front, ttl, max);
    var earlier := Attempts(front, ttl, max);
    var a := Attempt(c.times.window, c.times.push);
    assert (earlier + [a])[..|earlier + [a]| - 1] == earlier;
    assert LetThrough(earlier, max) + [] == LetThrough(earlier, max) && earlier + [] == earlier;
  }
}
