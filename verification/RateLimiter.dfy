/**
 The sliding-window rate limiter: per-key lists of admission times, pruned on
 every request. Runs are sequences of requests and resets over a clock that
 does not run backwards.
 */
module RateLimiter {
  type Key = string
  type Table = map<Key, seq<real>>

  datatype Config = Config(requestsPerWindow: int, windowSeconds: real)

  /** The response headers; the limit itself is the configuration's. */
  datatype Decision =
    | Allowed(remaining: int, reset: int)
    | Denied(reset: int, retryAfter: int)

  /** Python's int(): truncation toward zero. */
  function Truncate(x: real): int {
    if x >= 0.0 then x.Floor else -(-x).Floor
  }

  function TimesOf(table: Table, key: Key): seq<real> {
    if key in table then table[key] else []
  }

  /** The times later than `start`, in order. */
  function Recent(times: seq<real>, start: real): seq<real> {
    if times == [] then [] else
      var before, last := Recent(times[..|times| - 1], start), times[|times| - 1];
      if last > start then before + [last] else before
  }

  function Min(times: seq<real>): real
    requires times != []
  {
    if |times| == 1 then times[0] else
      var m, last := Min(times[..|times| - 1]), times[|times| - 1];
      if last < m then last else m
  }

  lemma {:induction false} MinIsLeast(times: seq<real>)
    requires times != []
    ensures Min(times) in times
    ensures forall t :: t in times ==> Min(times) <= t
  {
    if |times| > 1 {
      var rest, last := SplitLast(times);
      MinIsLeast(rest);
    }
  }

  /** When the window reopens: the oldest counted admission leaves it. */
  function Reopens(cfg: Config, recent: seq<real>, now: real): real {
    (if recent == [] then now else Min(recent)) + cfg.windowSeconds
  }

  predicate HasRoom(cfg: Config, recent: seq<real>) {
    |recent| < cfg.requestsPerWindow
  }

  /** The decision on a request, given the admission times still in the window. */
  function Decide(cfg: Config, recent: seq<real>, now: real): Decision {
    if !HasRoom(cfg, recent) then
      Denied(Truncate(Reopens(cfg, recent, now)), Truncate(Reopens(cfg, recent, now) - now))
    else
      Allowed(if cfg.requestsPerWindow - |recent| > 0 then cfg.requestsPerWindow - |recent| else 0,
              Truncate(Reopens(cfg, recent, now)))
  }

  class SlidingWindowRateLimiter {
    const config: Config
    var requests: Table

    constructor (config: Config)
      ensures this.config == config && requests == map[]
    {
      this.config := config;
      requests := map[];
    }

    method IsAllowed(key: Key, now: real) returns (d: Decision)
      modifies this
      ensures d == Decide(config, Recent(TimesOf(old(requests), key), now - config.windowSeconds), now)
      ensures requests == Next(config, old(requests), Request(key, now))
    {
      var windowStart := now - config.windowSeconds;
      var requestTimes := Recent(TimesOf(requests, key), windowStart);
      requests := requests[key := requestTimes];
      var count := |requestTimes|;
      var remaining := if config.requestsPerWindow - count > 0 then config.requestsPerWindow - count else 0;
      if count >= config.requestsPerWindow {
        var oldest := if requestTimes == [] then now else Min(requestTimes);
        var retryAfter := oldest + config.windowSeconds - now;
        assert requestTimes + [] == requestTimes;
        return Denied(Truncate(oldest + config.windowSeconds), Truncate(retryAfter));
      }
      var resetTime := now + config.windowSeconds;
      if requestTimes != [] {
        var oldest := Min(requestTimes);
        resetTime := oldest + config.windowSeconds;
      }
      requests := requests[key := requests[key] + [now]];
      return Allowed(remaining, Truncate(resetTime));
    }

    method ResetKey(key: Key)
      modifies this
      ensures requests == Next(config, old(requests), Reset(key))
    {
      requests := requests - {key};
    }

    method ResetEverything()
      modifies this
      ensures requests == Next(config, old(requests), ResetAll)
    {
      requests := map[];
    }
  }

  // ----- runs

  datatype Event = Request(key: Key, now: real) | Reset(key: Key) | ResetAll

  datatype History = Start | Then(before: History, last: Event)

  function Next(cfg: Config, table: Table, e: Event): Table {
    match e
    case Request(key, now) =>
      var kept := Recent(TimesOf(table, key), now - cfg.windowSeconds);
      table[key := if HasRoom(cfg, kept) then kept + [now] else kept]
    case Reset(key) => table - {key}
    case ResetAll => map[]
  }

  function Run(cfg: Config, h: History): Table {
    match h
    case Start => map[]
    case Then(before, last) => Next(cfg, Run(cfg, before), last)
  }

  /** What the limiter still counts for `key` when a request arrives after `h`. */
  function InWindow(cfg: Config, h: History, key: Key, now: real): seq<real> {
    Recent(TimesOf(Run(cfg, h), key), now - cfg.windowSeconds)
  }

  function Verdict(cfg: Config, h: History, key: Key, now: real): Decision {
    Decide(cfg, InWindow(cfg, h, key, now), now)
  }

  predicate Admitted(cfg: Config, h: History, key: Key, now: real) {
    HasRoom(cfg, InWindow(cfg, h, key, now))
  }

  ghost predicate Clears(e: Event, key: Key) {
    e == Reset(key) || e == ResetAll
  }

  ghost predicate Admits(cfg: Config, h: History, e: Event, key: Key) {
    e.Request? && e.key == key && Admitted(cfg, h, key, e.now)
  }

  /** Every admission of `key` since it was last reset: the full, unpruned history. */
  ghost function Log(cfg: Config, h: History, key: Key): seq<real> {
    match h
    case Start => []
    case Then(before, last) =>
      if Clears(last, key) then []
      else if Admits(cfg, before, last, key) then Log(cfg, before, key) + [last.now]
      else Log(cfg, before, key)
  }

  /** The clock does not run backwards and has not passed `now`. */
  ghost predicate Monotone(h: History, now: real) {
    match h
    case Start => true
    case Then(before, last) =>
      if last.Request? then last.now <= now && Monotone(before, last.now) else Monotone(before, now)
  }

  /** How many times lie in the interval (lo, hi]. */
  ghost function Count(times: seq<real>, lo: real, hi: real): nat {
    if times == [] then 0 else
      var last := times[|times| - 1];
      Count(times[..|times| - 1], lo, hi) + if lo < last <= hi then 1 else 0
  }

  lemma {:induction false} RecentOfRecent(times: seq<real>, a: real, b: real)
    requires a <= b
    ensures Recent(Recent(times, a), b) == Recent(times, b)
  {
    if times != [] {
      var rest, last := times[..|times| - 1], times[|times| - 1];
      RecentOfRecent(rest, a, b);
      if last > a {
        RecentAppend(Recent(rest, a), last, b);
      }
    }
  }

  lemma RecentAppend(times: seq<real>, x: real, start: real)
    ensures Recent(times + [x], start) == if x > start then Recent(times, start) + [x] else Recent(times, start)
  {
    assert (times + [x])[..|times|] == times;
  }

  lemma {:induction false} RecentIsCount(times: seq<real>, lo: real, hi: real)
    requires forall t :: t in times ==> t <= hi
    ensures |Recent(times, lo)| == Count(times, lo, hi)
  {
    if times != [] {
      var rest, last := SplitLast(times);
      RecentIsCount(rest, lo, hi);
    }
  }

  lemma SplitLast(times: seq<real>) returns (rest: seq<real>, last: real)
    requires times != []
    ensures rest == times[..|times| - 1] && last == times[|times| - 1]
    ensures last in times && forall t :: t in times <==> t in rest || t == last
  {
    rest, last := times[..|times| - 1], times[|times| - 1];
    assert times == rest + [last];
  }

  lemma {:induction false} RecentMembers(times: seq<real>, start: real, t: real)
    ensures t in Recent(times, start) <==> t in times && t > start
  {
    if times != [] {
      var rest, last := SplitLast(times);
      RecentMembers(rest, start, t);
    }
  }

  lemma {:induction false} LogIsPast(cfg: Config, h: History, key: Key, now: real)
    requires Monotone(h, now)
    ensures forall t :: t in Log(cfg, h, key) ==> t <= now
  {
    if h.Then? {
      LogIsPast(cfg, h.before, key, if h.last.Request? then h.last.now else now);
    }
  }

  /** How one event changes the times kept for a key. */
  ghost function TimesAfter(cfg: Config, times: seq<real>, e: Event, key: Key): seq<real> {
    if Clears(e, key) then []
    else if e.Request? && e.key == key then
      var kept := Recent(times, e.now - cfg.windowSeconds);
      if HasRoom(cfg, kept) then kept + [e.now] else kept
    else times
  }

  lemma NextTimes(cfg: Config, table: Table, e: Event, key: Key)
    ensures TimesOf(Next(cfg, table, e), key) == TimesAfter(cfg, TimesOf(table, key), e, key)
  {}

  lemma PruneThenAppend(times: seq<real>, log: seq<real>, cut: real, start: real, x: real)
    requires cut <= start && Recent(times, start) == Recent(log, start)
    ensures Recent(Recent(times, cut), start) == Recent(log, start)
    ensures Recent(Recent(times, cut) + [x], start) == Recent(log + [x], start)
  {
    RecentOfRecent(times, cut, start);
    RecentAppend(Recent(times, cut), x, start);
    RecentAppend(log, x, start);
  }

  /** Pruning loses nothing: seen from now on, the table and the full log agree. */
  lemma {:induction false} TableAgreesWithLog(cfg: Config, h: History, key: Key, now: real, start: real)
    requires Monotone(h, now) && start >= now - cfg.windowSeconds
    ensures Recent(TimesOf(Run(cfg, h), key), start) == Recent(Log(cfg, h, key), start)
  {
    if h.Then? {
      var e := h.last;
      var times, log := TimesOf(Run(cfg, h.before), key), Log(cfg, h.before, key);
      TableAgreesWithLog(cfg, h.before, key, if e.Request? then e.now else now, start);
      NextTimes(cfg, Run(cfg, h.before), e, key);
      StepAgrees(cfg, times, log, e, key, start);
    }
  }

  lemma StepAgrees(cfg: Config, times: seq<real>, log: seq<real>, e: Event, key: Key, start: real)
    requires Recent(times, start) == Recent(log, start)
    requires e.Request? ==> start >= e.now - cfg.windowSeconds
    ensures !Clears(e, key) ==>
              Recent(TimesAfter(cfg, times, e, key), start) ==
              Recent(if e.Request? && e.key == key && HasRoom(cfg, Recent(times, e.now - cfg.windowSeconds))
                     then log + [e.now] else log, start)
  {
    if e.Request? && e.key == key {
      PruneThenAppend(times, log, e.now - cfg.windowSeconds, start, e.now);
    }
  }

  lemma WindowIsLog(cfg: Config, h: History, key: Key, now: real)
    requires Monotone(h, now)
    ensures InWindow(cfg, h, key, now) == Recent(Log(cfg, h, key), now - cfg.windowSeconds)
    ensures |InWindow(cfg, h, key, now)| == Count(Log(cfg, h, key), now - cfg.windowSeconds, now)
  {
    TableAgreesWithLog(cfg, h, key, now, now - cfg.windowSeconds);
    LogIsPast(cfg, h, key, now);
    RecentIsCount(Log(cfg, h, key), now - cfg.windowSeconds, now);
  }

  /** A request is denied exactly when the full log has N admissions in the window that ends now. */
  lemma DeniedIffWindowFull(cfg: Config, h: History, key: Key, now: real)
    requires Monotone(h, now)
    ensures Verdict(cfg, h, key, now).Denied? <==>
            Count(Log(cfg, h, key), now - cfg.windowSeconds, now) >= cfg.requestsPerWindow
  {
    WindowIsLog(cfg, h, key, now);
  }

  lemma {:induction false} WiderCountsMore(times: seq<real>, lo: real, hi: real, lo': real, hi': real)
    requires lo' <= lo && forall t :: t in times ==> t <= hi'
    ensures Count(times, lo, hi) <= Count(times, lo', hi')
  {
    if times != [] {
      var rest, last := SplitLast(times);
      WiderCountsMore(rest, lo, hi, lo', hi');
    }
  }

  /** Safety: no interval (t - W, t] holds more than N admissions of a key. */
  lemma {:induction false} NeverMoreThanN(cfg: Config, h: History, key: Key, now: real, t: real)
    requires Monotone(h, now)
    ensures Count(Log(cfg, h, key), t - cfg.windowSeconds, t)
         <= if cfg.requestsPerWindow > 0 then cfg.requestsPerWindow else 0
  {
    if h.Then? {
      var e, log := h.last, Log(cfg, h.before, key);
      NeverMoreThanN(cfg, h.before, key, if e.Request? then e.now else now, t);
      if e.Request? && Log(cfg, h, key) == log + [e.now] {
        assert (log + [e.now])[..|log|] == log;
        if t - cfg.windowSeconds < e.now <= t {
          WindowIsLog(cfg, h.before, key, e.now);
          LogIsPast(cfg, h.before, key, e.now);
          WiderCountsMore(log, t - cfg.windowSeconds, t, e.now - cfg.windowSeconds, e.now);
        }
      }
    }
  }

  /** The events that concern one key. */
  ghost function OnlyKey(h: History, key: Key): History {
    match h
    case Start => Start
    case Then(before, last) =>
      if last == ResetAll || last.key == key then Then(OnlyKey(before, key), last) else OnlyKey(before, key)
  }

  /** Keys never affect each other: the verdict is the one the key would get alone. */
  lemma {:induction false} KeysAreIndependent(cfg: Config, h: History, key: Key, now: real)
    ensures TimesOf(Run(cfg, h), key) == TimesOf(Run(cfg, OnlyKey(h, key)), key)
    ensures Verdict(cfg, h, key, now) == Verdict(cfg, OnlyKey(h, key), key, now)
  {
    if h.Then? {
      KeysAreIndependent(cfg, h.before, key, now);
    }
  }

  // ----- the retry time

  /** The exact moment a denied key becomes free again, before truncation to whole seconds. */
  ghost function FreeAt(cfg: Config, h: History, key: Key, now: real): real {
    Reopens(cfg, Recent(Log(cfg, h, key), now - cfg.windowSeconds), now)
  }

  lemma {:induction false} RecentKeepsAll(times: seq<real>, a: real, b: real)
    requires a <= b && forall t :: t in times && t > a ==> t > b
    ensures Recent(times, a) == Recent(times, b)
  {
    if times != [] {
      var rest, last := SplitLast(times);
      RecentKeepsAll(rest, a, b);
    }
  }

  lemma {:induction false} RecentDropsOne(times: seq<real>, a: real, b: real, x: real)
    requires a <= b && x in times && a < x <= b
    ensures |Recent(times, b)| < |Recent(times, a)|
  {
    var rest, last := SplitLast(times);
    if x in rest {
      RecentDropsOne(rest, a, b, x);
    } else {
      RecentShrinks(rest, a, b);
    }
  }

  lemma {:induction false} RecentShrinks(times: seq<real>, a: real, b: real)
    requires a <= b
    ensures |Recent(times, b)| <= |Recent(times, a)|
  {
    if times != [] {
      RecentShrinks(times[..|times| - 1], a, b);
    }
  }

  /** A window that moves on stays as full as it was until its oldest entry leaves. */
  lemma WindowSlides(log: seq<real>, a: real, b: real)
    requires a <= b && Recent(log, a) != []
    ensures |Recent(log, b)| < |Recent(log, a)| <==> b >= Min(Recent(log, a))
    ensures b < Min(Recent(log, a)) ==> Recent(log, b) == Recent(log, a)
  {
    var oldest := Min(Recent(log, a));
    MinIsLeast(Recent(log, a));
    RecentMembers(log, a, oldest);
    if b >= oldest {
      RecentDropsOne(log, a, b, oldest);
    } else {
      forall x | x in log && x > a ensures x > b { RecentMembers(log, a, x); }
      RecentKeepsAll(log, a, b);
    }
  }

  /** A denied key has exactly N admissions in the window, and it is free when the oldest leaves. */
  lemma DeniedWindow(cfg: Config, h: History, key: Key, now: real) returns (recent: seq<real>)
    requires Monotone(h, now) && !Admitted(cfg, h, key, now) && cfg.requestsPerWindow >= 1
    ensures recent == InWindow(cfg, h, key, now) == Recent(Log(cfg, h, key), now - cfg.windowSeconds)
    ensures |recent| == cfg.requestsPerWindow
    ensures FreeAt(cfg, h, key, now) == Min(recent) + cfg.windowSeconds
    ensures now - cfg.windowSeconds < Min(recent) <= now
  {
    recent := InWindow(cfg, h, key, now);
    WindowIsLog(cfg, h, key, now);
    NeverMoreThanN(cfg, h, key, now, now);
    LogIsPast(cfg, h, key, now);
    MinIsRecent(Log(cfg, h, key), now - cfg.windowSeconds, recent);
  }

  lemma MinIsRecent(times: seq<real>, start: real, recent: seq<real>)
    requires recent == Recent(times, start) && recent != []
    ensures Min(recent) in times && Min(recent) > start
  {
    MinIsLeast(recent);
    RecentMembers(times, start, Min(recent));
  }

  /** The reported wait is positive and at most one window, and the header is its whole part. */
  lemma RetryAfterIsInRange(cfg: Config, h: History, key: Key, now: real)
    requires Monotone(h, now) && !Admitted(cfg, h, key, now) && cfg.requestsPerWindow >= 1
    ensures 0.0 < FreeAt(cfg, h, key, now) - now <= cfg.windowSeconds
    ensures Verdict(cfg, h, key, now).retryAfter == (FreeAt(cfg, h, key, now) - now).Floor
  {
    var recent := DeniedWindow(cfg, h, key, now);
  }

  /** With no admission or reset of the key in between, a later attempt succeeds exactly from `FreeAt` on. */
  lemma AllowedIffFree(cfg: Config, h: History, key: Key, now: real, later: History, t: real)
    requires Monotone(h, now) && !Admitted(cfg, h, key, now) && cfg.requestsPerWindow >= 1
    requires now <= t && Monotone(later, t) && Log(cfg, later, key) == Log(cfg, h, key)
    ensures Admitted(cfg, later, key, t) <==> t >= FreeAt(cfg, h, key, now)
  {
    var recent := DeniedWindow(cfg, h, key, now);
    WindowIsLog(cfg, later, key, t);
    WindowSlides(Log(cfg, h, key), now - cfg.windowSeconds, t - cfg.windowSeconds);
  }

  /** `later` continues `h`, with requests from `from` on and no reset of the key. */
  ghost predicate Continues(later: History, h: History, key: Key, from: real) {
    later == h ||
    match later
    case Start => false
    case Then(before, last) =>
      !Clears(last, key) && (last.Request? ==> from <= last.now) && Continues(before, h, key, from)
  }

  /** Whatever happens in between, short of a reset of the key, nothing is admitted before `FreeAt`. */
  lemma {:induction false} NothingBeforeFree(
    cfg: Config, h: History, key: Key, now: real, later: History, t: real)
    requires Monotone(h, now) && !Admitted(cfg, h, key, now) && cfg.requestsPerWindow >= 1
    requires Continues(later, h, key, now) && (later == h || Monotone(later, t))
    requires now <= t < FreeAt(cfg, h, key, now)
    ensures Log(cfg, later, key) == Log(cfg, h, key) && !Admitted(cfg, later, key, t)
  {
    if later == h {
      MonotoneLater(h, now, t);
    } else {
      NothingBeforeFree(cfg, h, key, now, later.before, if later.last.Request? then later.last.now else t);
    }
    AllowedIffFree(cfg, h, key, now, later, t);
  }

  lemma {:induction false} MonotoneLater(h: History, now: real, later: real)
    requires Monotone(h, now) && now <= later
    ensures Monotone(h, later)
  {
    if h.Then? && !h.last.Request? {
      MonotoneLater(h.before, now, later);
    }
  }

  /** int() drops the fraction, towards zero. */
  lemma TruncatesTowardZero(x: real)
    ensures var t := Truncate(x) as real;
            if x >= 0.0 then 0.0 <= t <= x < t + 1.0 else t - 1.0 < x <= t <= 0.0
  {}

  /** The log of a key after one more request on it. */
  ghost function LogAfter(cfg: Config, h: History, key: Key, now: real): seq<real> {
    Log(cfg, Then(h, Request(key, now)), key)
  }

  lemma MinWithLatest(recent: seq<real>, now: real)
    requires forall t :: t in recent ==> t <= now
    ensures Min(recent + [now]) == if recent == [] then now else Min(recent)
  {
    MinIsLeast(recent + [now]);
    if recent != [] {
      MinIsLeast(recent);
      assert Min(recent) in recent + [now];
      assert (recent + [now])[..|recent|] == recent;
    }
  }

  /** A time counted last is the oldest one only if it is alone. */
  lemma OldestStays(before: seq<real>, now: real, start: real)
    requires start < now && forall t :: t in before ==> t <= now
    ensures var recent := Recent(before, start);
            Recent(before + [now], start) != []
            && Min(Recent(before + [now], start)) == if recent == [] then now else Min(recent)
  {
    var recent := Recent(before, start);
    RecentAppend(before, now, start);
    forall t | t in recent ensures t <= now { RecentMembers(before, start, t); }
    MinWithLatest(recent, now);
  }

  /** What the log is after the request, and that some time in the window is then counted. */
  lemma LogGrows(cfg: Config, h: History, key: Key, now: real) returns (before: seq<real>, log: seq<real>)
    requires Monotone(h, now) && cfg.windowSeconds > 0.0 && cfg.requestsPerWindow >= 1
    ensures before == Log(cfg, h, key) && log == LogAfter(cfg, h, key, now)
    ensures log == before + [now] || (log == before && Recent(before, now - cfg.windowSeconds) != [])
    ensures forall t :: t in before ==> t <= now
  {
    before, log := Log(cfg, h, key), LogAfter(cfg, h, key, now);
    WindowIsLog(cfg, h, key, now);
    LogIsPast(cfg, h, key, now);
  }

  lemma ReopensWithOldest(cfg: Config, before: seq<real>, log: seq<real>, now: real, start: real)
    requires start == now - cfg.windowSeconds && cfg.windowSeconds > 0.0 && forall t :: t in before ==> t <= now
    requires log == before + [now] || (log == before && Recent(before, start) != [])
    ensures Recent(log, start) != []
    ensures Reopens(cfg, Recent(before, start), now) == Min(Recent(log, start)) + cfg.windowSeconds
  {
    if log == before + [now] {
      OldestStays(before, now, start);
    }
  }

  lemma ReopensIsRelief(
    cfg: Config, before: seq<real>, log: seq<real>, now: real, t: real, start: real, later: real)
    requires start == now - cfg.windowSeconds && later == t - cfg.windowSeconds
    requires cfg.windowSeconds > 0.0 && t >= now && forall t :: t in before ==> t <= now
    requires log == before + [now] || (log == before && Recent(before, start) != [])
    ensures |Recent(log, later)| < |Recent(log, start)| <==> t >= Reopens(cfg, Recent(before, start), now)
  {
    ReopensWithOldest(cfg, before, log, now, start);
    WindowSlides(log, start, later);
  }

  /**
   X-RateLimit-Reset, admitted or denied, is the whole part of the exact moment from which, with no
   further admission, fewer requests of the key are counted than right after this one.
   */
  lemma ResetIsFirstRelief(cfg: Config, h: History, key: Key, now: real, t: real) returns (log: seq<real>, relief: real)
    requires Monotone(h, now) && cfg.windowSeconds > 0.0 && cfg.requestsPerWindow >= 1 && t >= now
    ensures log == LogAfter(cfg, h, key, now) && Verdict(cfg, h, key, now).reset == Truncate(relief)
    ensures |Recent(log, t - cfg.windowSeconds)| < |Recent(log, now - cfg.windowSeconds)| <==> t >= relief
  {
    var before: seq<real>;
    before, log := LogGrows(cfg, h, key, now);
    relief := ResetIsReopens(cfg, h, key, now, before);
    ReopensIsRelief(cfg, before, log, now, t, now - cfg.windowSeconds, t - cfg.windowSeconds);
  }

  lemma ResetIsReopens(cfg: Config, h: History, key: Key, now: real, before: seq<real>) returns (relief: real)
    requires Monotone(h, now) && before == Log(cfg, h, key)
    ensures relief == Reopens(cfg, Recent(before, now - cfg.windowSeconds), now)
    ensures Verdict(cfg, h, key, now).reset == Truncate(relief)
  {
    WindowIsLog(cfg, h, key, now);
    relief := Reopens(cfg, Recent(before, now - cfg.windowSeconds), now);
  }

  /**
   A client that waits exactly the whole seconds of Retry-After is admitted if and only if
   the exact wait was a whole number of seconds: truncation makes it come back too early.
   */
  lemma RetryHeaderIsEarly(cfg: Config, h: History, key: Key, now: real)
    requires Monotone(h, now) && !Admitted(cfg, h, key, now) && cfg.requestsPerWindow >= 1
    ensures var wait := FreeAt(cfg, h, key, now) - now;
            Admitted(cfg, h, key, now + Verdict(cfg, h, key, now).retryAfter as real)
            <==> wait == wait.Floor as real
  {
    RetryAfterIsInRange(cfg, h, key, now);
    var t := now + (FreeAt(cfg, h, key, now) - now).Floor as real;
    MonotoneLater(h, now, t);
    AllowedIffFree(cfg, h, key, now, h, t);
  }

  /**
   X-RateLimit-Remaining is read before the request itself is counted: at the same instant
   the next request is admitted only if the header said more than one.
   */
  lemma RemainingCountsThisRequest(cfg: Config, h: History, key: Key, now: real)
    requires cfg.windowSeconds > 0.0 && Admitted(cfg, h, key, now)
    ensures var left := Verdict(cfg, h, key, now).remaining;
            var after := Then(h, Request(key, now));
            && left >= 1
            && (Admitted(cfg, after, key, now) <==> left > 1)
            && (left > 1 ==> Verdict(cfg, after, key, now).remaining == left - 1)
  {
    var times, start := TimesOf(Run(cfg, h), key), now - cfg.windowSeconds;
    RecentAppend(Recent(times, start), now, start);
    RecentOfRecent(times, start, start);
    assert InWindow(cfg, Then(h, Request(key, now)), key, now) == InWindow(cfg, h, key, now) + [now];
  }

  /** A limiter of one request a minute that admitted a request at 0.5 s. */
  ghost predicate OneAMinute(cfg: Config, h: History, key: Key) {
    cfg == Config(1, 60.0) && h == Then(Start, Request(key, 0.5))
  }

  lemma OneAMinuteWindow(cfg: Config, h: History, key: Key, now: real)
    requires OneAMinute(cfg, h, key) && now >= 0.5
    ensures Monotone(h, now) && Log(cfg, h, key) == [0.5]
    ensures Admitted(cfg, h, key, now) <==> now >= 60.5
    ensures now < 60.5 ==> FreeAt(cfg, h, key, now) == 60.5
  {
    assert [0.5][..0] == [] && Log(cfg, Start, key) == [];
    assert Recent([], now - 60.0) == [];
    assert Recent([0.5], now - 60.0) == if now < 60.5 then [0.5] else [];
    WindowIsLog(cfg, h, key, now);
  }

  /** Denied at 0.75 s with 59.75 s to wait, its client is told 59, and then denied again. */
  lemma TruncatedWaitIsDenied(cfg: Config, h: History, key: Key)
    requires OneAMinute(cfg, h, key)
    ensures FreeAt(cfg, h, key, 0.75) - 0.75 == 59.75
    ensures Verdict(cfg, h, key, 0.75).Denied? && Verdict(cfg, h, key, 0.75).retryAfter == 59
    ensures Verdict(cfg, Then(h, Request(key, 0.75)), key, 0.75 + 59.0).Denied?
  {
    var later := Then(h, Request(key, 0.75));
    OneAMinuteWindow(cfg, h, key, 0.75);
    RetryAfterIsInRange(cfg, h, key, 0.75);
    assert Log(cfg, later, key) == Log(cfg, h, key);
    AllowedIffFree(cfg, h, key, 0.75, later, 59.75);
  }

  /** The first request of a limiter of one a minute is told that one more remains, and the second is denied. */
  lemma OneRemainsIsNone(cfg: Config, key: Key, now: real)
    requires cfg == Config(1, 60.0)
    ensures Verdict(cfg, Start, key, now).Allowed? && Verdict(cfg, Start, key, now).remaining == 1
    ensures Verdict(cfg, Then(Start, Request(key, now)), key, now).Denied?
  {
    RemainingCountsThisRequest(cfg, Start, key, now);
  }
}
