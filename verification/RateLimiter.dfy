/**
 The fixed-window rate limiter in front of the API: an in-memory map from client and
 path to a counter, swept at random moments.
 */
module RateLimiter {
  import opened Wrappers
  import opened Text

  datatype Metrics = Metrics(requests: nat, windowStart: int, lastLogTime: int, recentRequests: nat)

  datatype Config = Config(windowMs: int, maxRequests: nat)

  type Store = map<string, Metrics>

  const WINDOW_MS: int := 60 * 1000
  const LOG_INTERVAL: int := 10000

  /** The configured prefixes, in the order in which they are tried. */
  const PATTERNS: seq<string> := ["default", "/api/validators/queue", "/api/validators", "/api/dashboard"]

  function ConfigFor(pattern: string): Config {
    Config(WINDOW_MS,
           if pattern == "/api/validators/queue" then 90
           else if pattern == "/api/validators" then 90
           else if pattern == "/api/dashboard" then 120
           else 60)
  }

  function FirstMatch(path: string, patterns: seq<string>): Option<string> {
    if patterns == [] then None
    else if patterns[0] <= path then Some(patterns[0])
    else FirstMatch(path, patterns[1..])
  }

  function RateLimitConfig(path: string): Config {
    match FirstMatch(path, PATTERNS)
    case Some(pattern) => ConfigFor(pattern)
    case None => ConfigFor("default")
  }

  function Key(ip: string, device: string, path: string): string {
    ip + "|" + device + "|" + path
  }

  lemma KeyMeaning(ip: string, device: string, path: string)
    ensures Key(ip, device, path) == ip + "|" + device + "|" + path
  {
  }

  /** The path a sweep reads out of a key; it is another one if the address contains a bar. */
  function PathIn(key: string): string {
    var parts := Split(key, '|');
    if |parts| > 2 then parts[2] else ""
  }

  /** The periodic summary resets its own counters only. */
  function Logged(m: Metrics, now: int): Metrics {
    if now - m.lastLogTime >= LOG_INTERVAL then m.(lastLogTime := now, recentRequests := 0) else m
  }

  predicate Expired(m: Metrics, windowMs: int, now: int) {
    now - m.windowStart > windowMs
  }

  function Swept(store: Store, now: int): Store {
    map key | key in store && !Expired(store[key], RateLimitConfig(PathIn(key)).windowMs, now) :: store[key]
  }

  /** The entry and the decision for one request, from the entry there was. */
  function Counted(entry: Option<Metrics>, config: Config, now: int): (Metrics, bool) {
    match entry
    case None => (Metrics(1, now, now, 1), false)
    case Some(m) =>
      if Expired(m, config.windowMs, now) then (Metrics(1, now, now, 1), false)
      else (Logged(m.(requests := m.requests + 1, recentRequests := m.recentRequests + 1), now),
        m.requests + 1 > config.maxRequests)
  }

  function Entry(store: Store, key: string): Option<Metrics> {
    if key in store then Some(store[key]) else None
  }

  class RateLimitStore {
    var store: Store
    const enabled: bool

    constructor (enabled: bool)
      ensures store == map[] && this.enabled == enabled
    {
      store := map[];
      this.enabled := enabled;
    }

    method Cleanup(now: int)
      modifies this
      ensures store == if enabled then Swept(old(store), now) else old(store)
    {
      if !enabled {
        return;
      }
      var keys := store.Keys;
      while keys != {}
        invariant keys <= old(store).Keys
        invariant store == map key |
          key in old(store) && (key in keys
            || !Expired(old(store)[key], RateLimitConfig(PathIn(key)).windowMs, now)) :: old(store)[key]
        decreases |keys|
      {
        var key :| key in keys;
        var config := RateLimitConfig(PathIn(key));
        if Expired(store[key], config.windowMs, now) {
          store := store - {key};
        }
        keys := keys - {key};
      }
    }

    /** sweep is the outcome of the random draw that triggers a cleanup. */
    method IsRateLimited(ip: string, device: string, path: string, now: int, sweep: bool) returns (limited: bool)
      modifies this
      ensures !enabled ==> !limited && store == old(store)
      ensures enabled ==>
        var key, swept := Key(ip, device, path), if sweep then Swept(old(store), now) else old(store);
        var (entry, decision) := Counted(Entry(swept, key), RateLimitConfig(path), now);
        limited == decision && store == swept[key := entry]
      ensures enabled ==>
        var key, swept := Key(ip, device, path), if sweep then Swept(old(store), now) else old(store);
        key in store &&
        if key !in swept || now - swept[key].windowStart > 60000 then
          store[key] == Metrics(1, now, now, 1) && !limited
        else
          var m, report := swept[key], now - swept[key].lastLogTime >= 10000;
          && store[key].requests == m.requests + 1 && store[key].windowStart == m.windowStart
          && store[key].lastLogTime == (if report then now else m.lastLogTime)
          && store[key].recentRequests == (if report then 0 else m.recentRequests + 1)
          && (limited <==> store[key].requests > RateLimitConfig(path).maxRequests)
    {
      hide Swept, RateLimitConfig, PathIn, Key;
      OneWindow(path);
      assert Key(ip, device, path) == ip + "|" + device + "|" + path by { KeyMeaning(ip, device, path); }
      if !enabled {
        return false;
      }
      var key := ip + "|" + device + "|" + path;
      var config := RateLimitConfig(path);
      if sweep {
        Cleanup(now);
      }
      if key !in store || now - store[key].windowStart > config.windowMs {
        store := store[key := Metrics(1, now, now, 1)];
        return false;
      }
      var m := store[key];
      m := m.(requests := m.requests + 1);
      m := m.(recentRequests := m.recentRequests + 1);
      limited := m.requests > config.maxRequests;
      if now - m.lastLogTime >= LOG_INTERVAL {
        m := m.(lastLogTime := now, recentRequests := 0);
      }
      store := store[key := m];
    }
  }

  // ---- runs ----

  datatype Request = Request(key: string, path: string, now: int, sweep: bool)

  function Serve(store: Store, r: Request): (Store, bool) {
    var (entry, decision) := Counted(Entry(store, r.key), RateLimitConfig(r.path), r.now);
    (store[r.key := entry], decision)
  }

  function Step(store: Store, r: Request): (Store, bool) {
    Serve(if r.sweep then Swept(store, r.now) else store, r)
  }

  /** The store after a trace of requests, starting empty. */
  function After(trace: seq<Request>): Store {
    if trace == [] then map[] else Step(After(trace[..|trace| - 1]), trace[|trace| - 1]).0
  }

  /** Whether the last request of a nonempty trace is limited. */
  predicate LastLimited(trace: seq<Request>)
    requires trace != []
  {
    Step(After(trace[..|trace| - 1]), trace[|trace| - 1]).1
  }

  ghost predicate Chronological(trace: seq<Request>) {
    forall i, j :: 0 <= i < j < |trace| ==> trace[i].now <= trace[j].now
  }

  /** The same requests, with other draws. */
  ghost predicate SameRequests(a: seq<Request>, b: seq<Request>) {
    |a| == |b| && forall i :: 0 <= i < |a| ==> a[i].(sweep := b[i].sweep) == b[i]
  }

  /** Which paths get which limit: the validators pages 90 a minute, the dashboard 120, all others 60. */
  lemma {:induction false} LimitOf(path: string)
    ensures RateLimitConfig(path) == Config(60000,
      if "/api/validators" <= path then 90 else if "/api/dashboard" <= path then 120 else 60)
  {
    var three, two, one := PATTERNS[1..], PATTERNS[1..][1..], PATTERNS[1..][1..][1..];
    assert three[0] == "/api/validators/queue" && two[0] == "/api/validators" && one == ["/api/dashboard"];
    assert FirstMatch(path, one) == if "/api/dashboard" <= path then Some("/api/dashboard") else None;
    assert FirstMatch(path, two)
      == if "/api/validators" <= path then Some("/api/validators") else FirstMatch(path, one);
    assert FirstMatch(path, three)
      == if "/api/validators/queue" <= path then Some("/api/validators/queue") else FirstMatch(path, two);
    assert FirstMatch(path, PATTERNS) == if "default" <= path then Some("default") else FirstMatch(path, three);
    assert "/api/validators/queue" <= path ==> "/api/validators" <= path by {
      assert "/api/validators/queue"[..15] == "/api/validators";
    }
    assert "default" <= path ==> path[0] == "default"[0];
    assert "/api/validators" <= path ==> path[0] == "/api/validators"[0];
    assert "/api/dashboard" <= path ==> path[0] == "/api/dashboard"[0];
    assert "/api/validators" != "/api/validators/queue" by {
      assert |"/api/validators"| == 15;
    }
    Unlike();
  }

  lemma Unlike()
    ensures "default" != "/api/validators" && "default" != "/api/dashboard" && "default" != "/api/validators/queue"
    ensures "/api/dashboard" != "/api/validators" && "/api/dashboard" != "/api/validators/queue"
  {
    assert |"default"| == 7 && |"/api/dashboard"| == 14 && |"/api/validators"| == 15;
    assert |"/api/validators/queue"| == 21;
  }

  lemma OneWindow(path: string)
    ensures RateLimitConfig(path).windowMs == WINDOW_MS == 60000 && RateLimitConfig(path).maxRequests in {60, 90, 120}
  {
  }

  /** Two stores that agree on everything not yet expired. */
  ghost predicate Alike(a: Store, b: Store, now: int) {
    && (forall key :: key in a && !Expired(a[key], WINDOW_MS, now) ==> key in b && b[key] == a[key])
    && (forall key :: key in b && !Expired(b[key], WINDOW_MS, now) ==> key in a && a[key] == b[key])
  }

  lemma SweepAlike(store: Store, now: int, sweep: bool)
    ensures Alike(if sweep then Swept(store, now) else store, store, now)
  {
    forall key ensures RateLimitConfig(PathIn(key)).windowMs == WINDOW_MS {
      OneWindow(PathIn(key));
    }
    hide RateLimitConfig, PathIn;
  }

  lemma AlikeLater(a: Store, b: Store, now: int, later: int)
    requires Alike(a, b, now) && now <= later
    ensures Alike(a, b, later)
  {
  }

  lemma AlikeJoin(a: Store, b: Store, c: Store, now: int)
    requires Alike(a, b, now) && Alike(b, c, now)
    ensures Alike(a, c, now)
  {
  }

  lemma ServeAlike(a: Store, b: Store, r: Request, s: Request)
    requires Alike(a, b, r.now) && r.(sweep := s.sweep) == s
    ensures Serve(a, r).1 == Serve(b, s).1 && Alike(Serve(a, r).0, Serve(b, s).0, r.now)
  {
    hide RateLimitConfig, Logged;
    OneWindow(r.path);
  }

  lemma StepAlike(a: Store, b: Store, r: Request, s: Request)
    requires Alike(a, b, r.now) && r.(sweep := s.sweep) == s
    ensures Step(a, r).1 == Step(b, s).1 && Alike(Step(a, r).0, Step(b, s).0, r.now)
  {
    hide Serve, Swept, Alike;
    var x, y := if r.sweep then Swept(a, r.now) else a, if s.sweep then Swept(b, r.now) else b;
    SweepAlike(a, r.now, r.sweep);
    SweepAlike(b, r.now, s.sweep);
    AlikeSymmetric(y, b, r.now);
    AlikeJoin(x, a, b, r.now);
    AlikeJoin(x, b, y, r.now);
    ServeAlike(x, y, r, s);
  }

  lemma AlikeSymmetric(a: Store, b: Store, now: int)
    requires Alike(a, b, now)
    ensures Alike(b, a, now)
  {
  }

  lemma AlikeSelf(now: int)
    ensures Alike(map[], map[], now)
  {
  }

  /** Cleanup at any moments changes no decision, provided the clock does not go back. */
  lemma {:induction false} CleanupIsInvisible(a: seq<Request>, b: seq<Request>)
    requires SameRequests(a, b) && Chronological(a)
    ensures a != [] ==> LastLimited(a) == LastLimited(b) && Alike(After(a), After(b), a[|a| - 1].now)
    decreases |a|
  {
    hide Step, Alike;
    if a == [] {
    } else if |a| == 1 {
      AlikeSelf(a[0].now);
      StepAlike(map[], map[], a[0], b[0]);
      assert a[..0] == [] && b[..0] == [];
    } else {
      var k := |a| - 1;
      CleanupIsInvisible(a[..k], b[..k]);
      assert a[..k][|a[..k]| - 1] == a[k - 1];
      AlikeLater(After(a[..k]), After(b[..k]), a[k - 1].now, a[k].now);
      StepAlike(After(a[..k]), After(b[..k]), a[k], b[k]);
    }
  }

  // ---- how much gets through ----

  /** A request of the key whose own limit is at most the given one; several paths can share a key. */
  predicate Counts(r: Request, key: string, limit: nat) {
    r.key == key && RateLimitConfig(r.path).maxRequests <= limit
  }

  /** Such requests admitted at or after a moment. */
  function Since(trace: seq<Request>, key: string, limit: nat, from: int): nat {
    if trace == [] then 0
    else
      var last := trace[|trace| - 1];
      Since(trace[..|trace| - 1], key, limit, from)
        + if Counts(last, key, limit) && from <= last.now && !LastLimited(trace) then 1 else 0
  }

  /** Such requests admitted in a closed interval. */
  function Admitted(trace: seq<Request>, key: string, limit: nat, from: int, to: int): nat {
    if trace == [] then 0
    else
      var last := trace[|trace| - 1];
      Admitted(trace[..|trace| - 1], key, limit, from, to)
        + if Counts(last, key, limit) && from <= last.now <= to && !LastLimited(trace) then 1 else 0
  }

  ghost predicate NoSweeps(trace: seq<Request>) {
    forall i :: 0 <= i < |trace| ==> !trace[i].sweep
  }

  function Min(a: nat, b: nat): nat {
    if a < b then a else b
  }

  /** What one request does to the entry of a key, and whether it is admitted. */
  ghost predicate Effect(before: Store, after: Store, limited: bool, r: Request, key: string) {
    if r.key != key then (key in after <==> key in before) && (key in before ==> after[key] == before[key])
    else if key !in before || r.now - before[key].windowStart > WINDOW_MS then
      key in after && after[key].windowStart == r.now && after[key].requests == 1 && !limited
    else
      && key in after && after[key].windowStart == before[key].windowStart
        && after[key].requests == before[key].requests + 1
      && (limited <==> after[key].requests > RateLimitConfig(r.path).maxRequests)
  }

  lemma ServeEffect(before: Store, r: Request, key: string)
    ensures Effect(before, Serve(before, r).0, Serve(before, r).1, r, key)
  {
    hide RateLimitConfig;
    OneWindow(r.path);
  }

  lemma {:induction false} LastRequest(trace: seq<Request>, key: string)
    requires trace != [] && NoSweeps(trace)
    ensures var k := |trace| - 1;
      Effect(After(trace[..k]), After(trace), LastLimited(trace), trace[k], key)
  {
    hide RateLimitConfig, Swept, Serve, Effect;
    var k := |trace| - 1;
    ServeEffect(After(trace[..k]), trace[k], key);
  }

  lemma {:induction false} NothingAhead(trace: seq<Request>, key: string, limit: nat, from: int)
    requires Chronological(trace) && trace != [] && trace[|trace| - 1].now < from
    ensures Since(trace, key, limit, from) == 0
  {
    if |trace| > 1 {
      NothingAhead(trace[..|trace| - 1], key, limit, from);
    } else {
      assert trace[..0] == [];
    }
  }

  lemma SinceNext(trace: seq<Request>, key: string, limit: nat, from: int)
    requires trace != []
    ensures var k := |trace| - 1;
      Since(trace, key, limit, from) == Since(trace[..k], key, limit, from)
        + if Counts(trace[k], key, limit) && from <= trace[k].now && !LastLimited(trace) then 1 else 0
  {
  }

  /** Bounds on what a key has got through since a moment, by where the moment lies relative to its window. */
  ghost predicate Bounded(trace: seq<Request>, key: string, limit: nat, from: int) {
    var n := Since(trace, key, limit, from);
    if key !in After(trace) then n == 0
    else
      var m := After(trace)[key];
      && m.requests >= 1 && trace != [] && m.windowStart <= trace[|trace| - 1].now
      && (from > m.windowStart + WINDOW_MS ==> n == 0)
      && (from > m.windowStart ==> n <= Min(m.requests, limit) - 1)
      && (from >= m.windowStart - WINDOW_MS ==> n <= limit - 1 + Min(m.requests, limit))
  }

  lemma {:induction false} AlwaysBounded(trace: seq<Request>, key: string, limit: nat, from: int)
    requires Chronological(trace) && NoSweeps(trace) && limit >= 1
    ensures Bounded(trace, key, limit, from)
    decreases |trace|
  {
    if trace != [] {
      hide Since, After, RateLimitConfig, LastLimited;
      var k := |trace| - 1;
      AlwaysBounded(trace[..k], key, limit, from);
      LastRequest(trace, key);
      SinceNext(trace, key, limit, from);
      if trace[k].now < from {
        NothingAhead(trace, key, limit, from);
      }
    }
  }

  /** A window admits no more than its first requests, up to the limit. */
  lemma {:induction false} WindowAdmits(trace: seq<Request>, key: string, limit: nat)
    requires Chronological(trace) && NoSweeps(trace) && limit >= 1
    requires key in After(trace)
    ensures var m := After(trace)[key]; Since(trace, key, limit, m.windowStart) <= Min(m.requests, limit)
    decreases |trace|
  {
    hide Since, After, RateLimitConfig, LastLimited;
    assert trace != [] by { EmptyAfter(); }
    var k := |trace| - 1;
    LastRequest(trace, key);
    var m := After(trace)[key];
    SinceNext(trace, key, limit, m.windowStart);
    AlwaysBounded(trace[..k], key, limit, m.windowStart);
    AlwaysBounded(trace, key, limit, m.windowStart);
    if key in After(trace[..k]) && After(trace[..k])[key].windowStart == m.windowStart {
      WindowAdmits(trace[..k], key, limit);
    }
  }

  lemma EmptyAfter()
    ensures After([]) == map[]
  {
  }

  lemma {:induction false} IntervalIsSince(trace: seq<Request>, key: string, limit: nat, from: int, to: int)
    requires forall i :: 0 <= i < |trace| ==> trace[i].now <= to
    ensures Admitted(trace, key, limit, from, to) == Since(trace, key, limit, from)
  {
    hide LastLimited;
    if trace != [] {
      IntervalIsSince(trace[..|trace| - 1], key, limit, from, to);
    }
  }

  lemma {:induction false} SweeplessBound(trace: seq<Request>, key: string, limit: nat, from: int)
    requires Chronological(trace) && NoSweeps(trace) && limit >= 1
    ensures Admitted(trace, key, limit, from, from + WINDOW_MS) <= 2 * limit - 1
    decreases |trace|
  {
    hide Since, After, RateLimitConfig, LastLimited;
    if trace != [] {
      var k, to := |trace| - 1, from + WINDOW_MS;
      if trace[k].now > to {
        SweeplessBound(trace[..k], key, limit, from);
      } else {
        IntervalIsSince(trace, key, limit, from, to);
        AlwaysBounded(trace, key, limit, from);
      }
    }
  }

  function Unswept(trace: seq<Request>): (r: seq<Request>)
    ensures |r| == |trace| && forall i :: 0 <= i < |trace| ==> r[i] == trace[i].(sweep := false)
  {
    seq(|trace|, i requires 0 <= i < |trace| => trace[i].(sweep := false))
  }

  lemma {:induction false} SameAdmitted(a: seq<Request>, b: seq<Request>, key: string, limit: nat, from: int, to: int)
    requires SameRequests(a, b) && Chronological(a)
    ensures Admitted(a, key, limit, from, to) == Admitted(b, key, limit, from, to)
    decreases |a|
  {
    hide LastLimited;
    if a != [] {
      CleanupIsInvisible(a, b);
      SameAdmitted(a[..|a| - 1], b[..|b| - 1], key, limit, from, to);
      assert a[|a| - 1].(sweep := b[|b| - 1].sweep) == b[|b| - 1];
    }
  }

  /**
   For every trace with a clock that does not go back, and cleanups at any moments: of the
   requests of a key that are subject to at most a limit, no interval of the window's
   length admits more than twice the limit minus one.
   */
  lemma {:induction false} IntervalBound(trace: seq<Request>, key: string, limit: nat, from: int)
    requires Chronological(trace) && limit >= 1
    ensures Admitted(trace, key, limit, from, from + WINDOW_MS) <= 2 * limit - 1
  {
    hide Admitted, RateLimitConfig;
    SameAdmitted(trace, Unswept(trace), key, limit, from, from + WINDOW_MS);
    SweeplessBound(Unswept(trace), key, limit, from);
  }

  /** The window a request is counted in, once opened, stays until it is over. */
  lemma {:induction false} WindowStays(trace: seq<Request>, key: string, limit: nat, i: nat)
    requires Chronological(trace) && NoSweeps(trace) && i < |trace|
    requires key in After(trace[..i + 1]) && After(trace[..i + 1])[key].windowStart == trace[i].now
    requires trace[|trace| - 1].now <= trace[i].now + WINDOW_MS
    ensures key in After(trace) && After(trace)[key].windowStart == trace[i].now
    decreases |trace|
  {
    hide After, RateLimitConfig, LastLimited;
    var k := |trace| - 1;
    if i == k {
      assert trace[..i + 1] == trace;
    } else {
      assert trace[..k][..i + 1] == trace[..i + 1];
      WindowStays(trace[..k], key, limit, i);
      LastRequest(trace, key);
    }
  }

  lemma {:induction false} SweeplessWindow(trace: seq<Request>, key: string, limit: nat, i: nat)
    requires Chronological(trace) && NoSweeps(trace) && limit >= 1 && i < |trace|
    requires key in After(trace[..i + 1]) && After(trace[..i + 1])[key].windowStart == trace[i].now
    ensures Admitted(trace, key, limit, trace[i].now, trace[i].now + WINDOW_MS) <= limit
    decreases |trace|
  {
    hide After, RateLimitConfig, LastLimited, Since;
    var k, to := |trace| - 1, trace[i].now + WINDOW_MS;
    if trace[k].now > to {
      assert trace[..k][..i + 1] == trace[..i + 1];
      SweeplessWindow(trace[..k], key, limit, i);
    } else {
      WindowStays(trace, key, limit, i);
      WindowAdmits(trace, key, limit);
      IntervalIsSince(trace, key, limit, trace[i].now, to);
    }
  }

  /** Each window admits of them at most the limit, with cleanups at any moments. */
  lemma {:induction false} WindowBound(trace: seq<Request>, key: string, limit: nat, i: nat)
    requires Chronological(trace) && limit >= 1 && i < |trace|
    requires var entries := After(Unswept(trace[..i + 1])); key in entries && entries[key].windowStart == trace[i].now
    ensures Admitted(trace, key, limit, trace[i].now, trace[i].now + WINDOW_MS) <= limit
  {
    hide Admitted, RateLimitConfig, After;
    var plain := Unswept(trace);
    assert plain[..i + 1] == Unswept(trace[..i + 1]);
    SameAdmitted(trace, plain, key, limit, trace[i].now, trace[i].now + WINDOW_MS);
    SweeplessWindow(plain, key, limit, i);
  }

  // ---- requests as they come ----

  /** A request before its key is built. */
  datatype Call = Call(ip: string, device: string, path: string, now: int, sweep: bool)

  predicate From(c: Call, ip: string, device: string, path: string) {
    c.ip == ip && c.device == device && c.path == path
  }

  function Requests(calls: seq<Call>): (r: seq<Request>)
    ensures |r| == |calls| && forall i :: 0 <= i < |calls| ==>
      r[i] == Request(Key(calls[i].ip, calls[i].device, calls[i].path), calls[i].path, calls[i].now, calls[i].sweep)
  {
    seq(|calls|, i requires 0 <= i < |calls| =>
      Request(Key(calls[i].ip, calls[i].device, calls[i].path), calls[i].path, calls[i].now, calls[i].sweep))
  }

  /** The calls of one client to one path that are admitted in a closed interval. */
  function CallsAdmitted(calls: seq<Call>, ip: string, device: string, path: string, from: int, to: int): nat {
    if calls == [] then 0
    else
      var last := calls[|calls| - 1];
      CallsAdmitted(calls[..|calls| - 1], ip, device, path, from, to)
        + if From(last, ip, device, path) && from <= last.now <= to && !LastLimited(Requests(calls)) then 1 else 0
  }

  /** Call number i is one of them. */
  ghost predicate GetsThrough(calls: seq<Call>, i: int, ip: string, device: string, path: string, from: int, to: int) {
    && 0 <= i < |calls| && calls[i].ip == ip && calls[i].device == device && calls[i].path == path
    && from <= calls[i].now <= to && !LastLimited(Requests(calls[..i + 1]))
  }

  ghost function Through(calls: seq<Call>, ip: string, device: string, path: string, from: int, to: int): set<int> {
    set i | 0 <= i < |calls| && GetsThrough(calls, i, ip, device, path, from, to)
  }

  /** That is how many calls get through, each by what came before it. */
  lemma {:induction false} CallsAdmittedAre(calls: seq<Call>, ip: string, device: string, path: string, from: int,
                                            to: int)
    ensures CallsAdmitted(calls, ip, device, path, from, to) == |Through(calls, ip, device, path, from, to)|
  {
    hide LastLimited, Requests, GetsThrough;
    if calls != [] {
      var k := |calls| - 1;
      var before, now := Through(calls[..k], ip, device, path, from, to), Through(calls, ip, device, path, from, to);
      CallsAdmittedAre(calls[..k], ip, device, path, from, to);
      LastThrough(calls, ip, device, path, from, to);
      forall i | 0 <= i < k ensures i in now <==> i in before {
        SameThrough(calls, k, i, ip, device, path, from, to);
      }
      if k in now {
        assert now == before + {k};
      } else {
        assert now == before;
      }
    }
  }

  lemma LastThrough(calls: seq<Call>, ip: string, device: string, path: string, from: int, to: int)
    requires calls != []
    ensures var k := |calls| - 1;
      CallsAdmitted(calls, ip, device, path, from, to) == CallsAdmitted(calls[..k], ip, device, path, from, to)
        + if GetsThrough(calls, k, ip, device, path, from, to) then 1 else 0
  {
    assert calls[..|calls| - 1 + 1] == calls;
  }

  lemma SameThrough(calls: seq<Call>, k: nat, i: nat, ip: string, device: string, path: string, from: int, to: int)
    requires i < k <= |calls|
    ensures GetsThrough(calls[..k], i, ip, device, path, from, to) == GetsThrough(calls, i, ip, device, path, from, to)
  {
    assert calls[..k][..i + 1] == calls[..i + 1];
  }

  lemma {:induction false} KeySplits(ip: string, device: string, path: string)
    requires '|' !in ip && '|' !in device
    ensures Split(Key(ip, device, path), '|') == [ip, device] + Split(path, '|')
  {
    hide Split;
    SplitFirst(ip, '|', device + "|" + path);
    SplitFirst(device, '|', path);
    assert ip + ['|'] + (device + "|" + path) == Key(ip, device, path);
    assert device + ['|'] + path == device + "|" + path;
  }

  /** Without bars in address and fingerprint a key belongs to one client and one path. */
  lemma KeyDetermines(ip: string, device: string, path: string, ip': string, device': string, path': string)
    requires '|' !in ip && '|' !in device && '|' !in ip' && '|' !in device'
      && Key(ip, device, path) == Key(ip', device', path')
    ensures ip == ip' && device == device' && path == path'
  {
    KeySplits(ip, device, path);
    KeySplits(ip', device', path');
    assert ([ip, device] + Split(path, '|'))[0] == ([ip', device'] + Split(path', '|'))[0];
    assert ([ip, device] + Split(path, '|'))[1] == ([ip', device'] + Split(path', '|'))[1];
    var n := |ip| + 1 + |device| + 1;
    assert Key(ip, device, path)[n..] == path && Key(ip', device', path')[n..] == path';
  }

  /** A client's calls to a path are among the requests of their key that are subject to at most the path's limit. */
  lemma {:induction false} CallsCount(calls: seq<Call>, ip: string, device: string, path: string, from: int, to: int)
    ensures CallsAdmitted(calls, ip, device, path, from, to)
      <= Admitted(Requests(calls), Key(ip, device, path), RateLimitConfig(path).maxRequests, from, to)
  {
    hide Key, LastLimited, RateLimitConfig;
    if calls != [] {
      var k := |calls| - 1;
      CallsCount(calls[..k], ip, device, path, from, to);
      assert Requests(calls)[..k] == Requests(calls[..k]);
    }
  }

  /**
   What a client gets: in no interval of the window's length are more than twice the
   path's limit minus one of its calls to that path admitted, whatever else is requested,
   also under the same key, and whenever the store is swept.
   */
  lemma {:induction false} ClientBound(calls: seq<Call>, ip: string, device: string, path: string, from: int)
    requires Chronological(Requests(calls))
    ensures CallsAdmitted(calls, ip, device, path, from, from + WINDOW_MS) <= 2 * RateLimitConfig(path).maxRequests - 1
  {
    hide Key, RateLimitConfig, Admitted, CallsAdmitted, Chronological;
    OneWindow(path);
    CallsCount(calls, ip, device, path, from, from + WINDOW_MS);
    IntervalBound(Requests(calls), Key(ip, device, path), RateLimitConfig(path).maxRequests, from);
  }

  /** And in a window that a request of their key opens, no more than the limit. */
  lemma {:induction false} ClientWindow(calls: seq<Call>, ip: string, device: string, path: string, i: nat)
    requires Chronological(Requests(calls)) && i < |calls|
    requires var entries, key := After(Unswept(Requests(calls)[..i + 1])), Key(ip, device, path);
      key in entries && entries[key].windowStart == calls[i].now
    ensures CallsAdmitted(calls, ip, device, path, calls[i].now, calls[i].now + WINDOW_MS)
      <= RateLimitConfig(path).maxRequests
  {
    hide Key, RateLimitConfig, Admitted, CallsAdmitted, Chronological, After;
    OneWindow(path);
    CallsCount(calls, ip, device, path, calls[i].now, calls[i].now + WINDOW_MS);
    WindowBound(Requests(calls), Key(ip, device, path), RateLimitConfig(path).maxRequests, i);
  }

  // ---- the bound is reached ----

  function Burst(key: string, path: string, now: int, n: nat): seq<Request> {
    seq(n, i => Request(key, path, now, false))
  }

  /** A burst inside a window, while the limit is not exceeded, is admitted in full. */
  lemma {:induction false} BurstAdmitted(trace: seq<Request>, key: string, path: string, now: int, n: nat, from: int,
      to: int)
    requires key in After(trace) && 0 <= now - After(trace)[key].windowStart <= WINDOW_MS && from <= now <= to
    requires After(trace)[key].requests + n <= RateLimitConfig(path).maxRequests
    ensures var longer := trace + Burst(key, path, now, n);
      && key in After(longer) && After(longer)[key].requests == After(trace)[key].requests + n
      && After(longer)[key].windowStart == After(trace)[key].windowStart
      && var limit := RateLimitConfig(path).maxRequests;
         Admitted(longer, key, limit, from, to) == Admitted(trace, key, limit, from, to) + n
  {
    hide RateLimitConfig, Serve;
    if n == 0 {
      assert trace + Burst(key, path, now, 0) == trace;
    } else {
      var r := Request(key, path, now, false);
      var before := trace + Burst(key, path, now, n - 1);
      var longer := trace + Burst(key, path, now, n);
      BurstAdmitted(trace, key, path, now, n - 1, from, to);
      assert longer == before + [r];
      assert longer[..|longer| - 1] == before;
      ServeEffect(After(before), r, key);
    }
  }

  /** A request that finds no window, or one that is over, opens a new one. */
  lemma {:induction false} Opens(trace: seq<Request>, key: string, path: string, now: int, from: int, to: int)
    requires key in After(trace) ==> now - After(trace)[key].windowStart > WINDOW_MS
    ensures var longer := trace + [Request(key, path, now, false)];
      && key in After(longer) && After(longer)[key].requests == 1 && After(longer)[key].windowStart == now
      && var limit := RateLimitConfig(path).maxRequests;
         Admitted(longer, key, limit, from, to)
           == Admitted(trace, key, limit, from, to) + if from <= now <= to then 1 else 0
  {
    hide RateLimitConfig, Serve;
    var r := Request(key, path, now, false);
    var longer := trace + [r];
    assert longer[..|longer| - 1] == trace;
    ServeEffect(After(trace), r, key);
  }

  ghost predicate OnlyTo(trace: seq<Request>, key: string, path: string) {
    forall i :: 0 <= i < |trace| ==> trace[i].key == key && trace[i].path == path
  }

  /** One request, the rest of the limit when its window is about to end, and a full limit just after. */
  function Busiest(key: string, path: string, limit: nat): seq<Request>
    requires limit >= 1
  {
    [Request(key, path, 0, false)] + Burst(key, path, WINDOW_MS, limit - 1)
    + [Request(key, path, WINDOW_MS + 1, false)] + Burst(key, path, WINDOW_MS + 1, limit - 1)
  }

  lemma BusiestShape(key: string, path: string, limit: nat)
    requires limit >= 1 && limit == RateLimitConfig(path).maxRequests
    ensures Chronological(Busiest(key, path, limit)) && OnlyTo(Busiest(key, path, limit), key, path)
  {
    hide RateLimitConfig;
    var trace := Busiest(key, path, limit);
    assert forall i :: 0 <= i < |trace| ==>
      trace[i] == Request(key, path, if i == 0 then 0 else if i < limit then WINDOW_MS else WINDOW_MS + 1, false);
  }

  lemma {:induction false} BusiestCount(key: string, path: string, limit: nat)
    requires limit >= 1 && limit == RateLimitConfig(path).maxRequests
    ensures Admitted(Busiest(key, path, limit), key, limit, 1, 1 + WINDOW_MS) == 2 * limit - 1
  {
    hide RateLimitConfig, After, Admitted, Burst;
    var opening, reopening := Request(key, path, 0, false), Request(key, path, WINDOW_MS + 1, false);
    EmptyAfter();
    EmptyAdmitted(key, limit, 1, 1 + WINDOW_MS);
    Opens([], key, path, 0, 1, 1 + WINDOW_MS);
    var t1 := [] + [opening];
    BurstAdmitted(t1, key, path, WINDOW_MS, limit - 1, 1, 1 + WINDOW_MS);
    var t2 := t1 + Burst(key, path, WINDOW_MS, limit - 1);
    Opens(t2, key, path, WINDOW_MS + 1, 1, 1 + WINDOW_MS);
    var t3 := t2 + [reopening];
    BurstAdmitted(t3, key, path, WINDOW_MS + 1, limit - 1, 1, 1 + WINDOW_MS);
    assert t3 + Burst(key, path, WINDOW_MS + 1, limit - 1) == Busiest(key, path, limit);
  }

  /** The bound is reached, for every key and path. */
  lemma {:induction false} BoundIsReached(key: string, path: string)
    ensures exists trace ::
      && Chronological(trace) && OnlyTo(trace, key, path)
      && Admitted(trace, key, RateLimitConfig(path).maxRequests, 1, 1 + WINDOW_MS)
        == 2 * RateLimitConfig(path).maxRequests - 1
  {
    OneWindow(path);
    hide Chronological, OnlyTo, RateLimitConfig, Admitted, Busiest;
    var limit := RateLimitConfig(path).maxRequests;
    BusiestShape(key, path, limit);
    BusiestCount(key, path, limit);
    var trace := Busiest(key, path, limit);
    assert Chronological(trace) && Admitted(trace, key, limit, 1, 1 + WINDOW_MS) == 2 * limit - 1;
  }

  lemma EmptyAdmitted(key: string, limit: nat, from: int, to: int)
    ensures Admitted([], key, limit, from, to) == 0
  {
  }
}
