/**
 * The connection rate filter of src/connection.rs: two coupled sliding windows over accepted
 * attempts, one per address and one for all. Every accepted attempt goes to the `log`, the reference
 * that the queues are compared with. A check reads the clock once for itself and, when it sweeps,
 * a second time; `drift` bounds how much later that second reading may be.
 */
module RateFilter {
  import opened Wrappers

  type Ip = nat

  const U64_MAX: nat := 0xFFFF_FFFF_FFFF_FFFF
  const SWEEP_EVERY: nat := 256

  datatype Attempt = Attempt(ip: Ip, at: int)

  ghost function Times(log: seq<Attempt>): seq<int> { seq(|log|, i requires 0 <= i < |log| => log[i].at) }

  ghost function TimesOf(log: seq<Attempt>, ip: Ip): seq<int> {
    if log == [] then []
    else
      var n := |log| - 1;
      TimesOf(log[..n], ip) + (if log[n].ip == ip then [log[n].at] else [])
  }

  ghost predicate Ascending(times: seq<int>) { forall i, j :: 0 <= i < j < |times| ==> times[i] <= times[j] }

  ghost predicate UpTo(times: seq<int>, now: int) { forall i :: 0 <= i < |times| ==> times[i] <= now }

  /** A queue holds the end of all the times; what it dropped is not later than `limit`. */
  ghost predicate Keeps(queue: seq<int>, all: seq<int>, limit: int) {
    && |queue| <= |all| && queue == all[|all| - |queue|..]
    && forall i :: 0 <= i < |all| - |queue| ==> all[i] <= limit
  }

  /** Any `max` + 1 consecutive attempts span at least `length`. */
  ghost predicate Spaced(all: seq<int>, max: nat, length: int) {
    forall i :: 0 <= i && i + max < |all| ==> all[i + max] - all[i] >= length
  }

  /** Attempts in the interval of the given length that starts at `start`. */
  ghost function CountWithin(times: seq<int>, start: int, length: int): nat {
    if times == [] then 0
    else (if start <= times[0] < start + length then 1 else 0) + CountWithin(times[1..], start, length)
  }

  lemma {:induction false} CountAtMost(times: seq<int>, start: int, length: int, k: nat)
    requires forall i :: k <= i < |times| ==> !(start <= times[i] < start + length)
    ensures CountWithin(times, start, length) <= k
    decreases |times|
  {
    if times != [] {
      assert forall i :: 0 <= i < |times[1..]| ==> times[1..][i] == times[i + 1];
      CountAtMost(times[1..], start, length, if k > 0 then k - 1 else 0);
    }
  }

  /** Spacing bounds what any interval holds. */
  lemma {:induction false} SpacedMeansFew(times: seq<int>, max: nat, span: int, start: int, length: int)
    requires Ascending(times) && Spaced(times, max, span) && length <= span
    ensures CountWithin(times, start, length) <= max
    decreases |times|
  {
    if times != [] {
      var rest := times[1..];
      if times[0] < start {
        assert forall i :: 0 <= i < |rest| ==> rest[i] == times[i + 1];
        SpacedMeansFew(rest, max, span, start, length);
      } else {
        forall i | max <= i < |times|
          ensures times[i] >= start + length
        {
          assert times[0 + max] - times[0] >= span;
        }
        CountAtMost(times, start, length, max);
      }
    }
  }

  // ----- what the steps of a check do to a queue ------------------------------------------------------------

  function Expire(queue: seq<int>, now: int, window: nat): seq<int> {
    if queue != [] && now - queue[0] >= window then Expire(queue[1..], now, window) else queue
  }

  /** The loop that pops the front while it has expired. */
  method PopExpired(queue: seq<int>, now: int, window: nat) returns (rest: seq<int>)
    ensures rest == Expire(queue, now, window)
  {
    rest := queue;
    while rest != [] && now - rest[0] >= window
      invariant Expire(rest, now, window) == Expire(queue, now, window)
      decreases |rest|
    {
      rest := rest[1..];
    }
  }

  lemma {:induction false} ExpireKeeps(queue: seq<int>, all: seq<int>, limit: int, now: int, window: nat)
    requires Keeps(queue, all, limit) && now - window <= limit
    ensures Keeps(Expire(queue, now, window), all, limit)
    decreases |queue|
  {
    if queue != [] && now - queue[0] >= window {
      assert queue[1..] == all[|all| - |queue| + 1..];
      ExpireKeeps(queue[1..], all, limit, now, window);
    }
  }

  /** Every attempt that the expired queue still holds is within the window. */
  lemma {:induction false} ExpiredIsLive(queue: seq<int>, now: int, window: nat)
    requires Ascending(queue)
    ensures forall i :: 0 <= i < |Expire(queue, now, window)| ==> now - Expire(queue, now, window)[i] < window
    decreases |queue|
  {
    if queue != [] && now - queue[0] >= window {
      ExpiredIsLive(queue[1..], now, window);
    }
  }

  /** A new attempt at `now` joins the queue only when the one `max` places before it has been dropped. */
  lemma {:induction false} AcceptSpaces(queue: seq<int>, all: seq<int>, now: int, max: nat, span: int)
    requires Keeps(queue, all, now - span) && Ascending(all) && UpTo(all, now) && Spaced(all, max, span)
             && |queue| < max
    ensures Keeps(queue + [now], all + [now], now - span)
    ensures Ascending(all + [now]) && UpTo(all + [now], now) && Spaced(all + [now], max, span)
  {
    var all' := all + [now];
    assert (queue + [now]) == all'[|all| - |queue|..];
    forall i | 0 <= i && i + max < |all'|
      ensures all'[i + max] - all'[i] >= span
    {
      if i + max < |all| {
        assert all[i + max] - all[i] >= span;
      } else {
        assert i < |all| - |queue|;
      }
    }
  }

  // ----- a check as a function of the state -----------------------------------------------------------------------

  datatype Config = Config(maxAttempts: nat, window: nat, maxIps: nat, maxGlobalAttempts: nat)

  datatype State = State(attempts: map<Ip, seq<int>>, globalAttempts: seq<int>, checks: nat)

  function CheckStep(c: Config, s: State, ip: Ip, now: int, sweepNow: int): (State, bool) {
    var global := Expire(s.globalAttempts, now, c.window);
    if |global| >= c.maxGlobalAttempts then (s.(globalAttempts := global), false)
    else
      var attempts := if s.checks % SWEEP_EVERY == 0 then Swept(s.attempts, sweepNow, c.window) else s.attempts;
      var checks := (s.checks + 1) % (U64_MAX + 1);
      if ip !in attempts && |attempts| >= c.maxIps then (State(attempts, global, checks), false)
      else
        var queue := Expire(Held(attempts, ip), now, c.window);
        if |queue| >= c.maxAttempts then (State(attempts[ip := queue], global, checks), false)
        else (State(attempts[ip := queue + [now]], global + [now], checks), true)
  }

  // ----- the queues of all addresses ---------------------------------------------------------------------------

  function Held(attempts: map<Ip, seq<int>>, ip: Ip): seq<int> { if ip in attempts then attempts[ip] else [] }

  ghost predicate Tracks(queue: seq<int>, all: seq<int>, now: int, limit: int, max: nat, span: int) {
    Keeps(queue, all, limit) && Ascending(all) && UpTo(all, now) && Spaced(all, max, span)
  }

  ghost predicate TracksAll(attempts: map<Ip, seq<int>>, log: seq<Attempt>, now: int, limit: int, max: nat, span: int) {
    forall ip :: Tracks(Held(attempts, ip), TimesOf(log, ip), now, limit, max, span)
  }

  function Swept(attempts: map<Ip, seq<int>>, now: int, window: nat): map<Ip, seq<int>> {
    map ip | ip in attempts && Expire(attempts[ip], now, window) != [] :: Expire(attempts[ip], now, window)
  }

  lemma {:induction false} TimePasses(attempts: map<Ip, seq<int>>, log: seq<Attempt>, before: int, limit: int, now: int,
                                      later: int, max: nat, span: int)
    requires TracksAll(attempts, log, before, limit, max, span) && before <= now && limit <= later
    ensures TracksAll(attempts, log, now, later, max, span)
  {
    forall ip
      ensures Tracks(Held(attempts, ip), TimesOf(log, ip), now, later, max, span)
    {
      assert Tracks(Held(attempts, ip), TimesOf(log, ip), before, limit, max, span);
    }
  }

  lemma {:induction false} SweepTracks(attempts: map<Ip, seq<int>>, log: seq<Attempt>, now: int, limit: int, max: nat,
                                       span: int, sweepNow: int, window: nat)
    requires TracksAll(attempts, log, now, limit, max, span) && sweepNow - window <= limit
    ensures TracksAll(Swept(attempts, sweepNow, window), log, now, limit, max, span)
    ensures |Swept(attempts, sweepNow, window)| <= |attempts|
  {
    forall ip
      ensures Tracks(Held(Swept(attempts, sweepNow, window), ip), TimesOf(log, ip), now, limit, max, span)
    {
      assert Tracks(Held(attempts, ip), TimesOf(log, ip), now, limit, max, span);
      ExpireKeeps(Held(attempts, ip), TimesOf(log, ip), limit, sweepNow, window);
    }
    var rest := attempts.Keys - Swept(attempts, sweepNow, window).Keys;
    assert attempts.Keys == Swept(attempts, sweepNow, window).Keys + rest;
  }

  lemma {:induction false} ReplaceTracks(attempts: map<Ip, seq<int>>, log: seq<Attempt>, now: int, limit: int, max: nat,
                                         span: int, ip: Ip, queue: seq<int>)
    requires TracksAll(attempts, log, now, limit, max, span) && Tracks(queue, TimesOf(log, ip), now, limit, max, span)
    ensures TracksAll(attempts[ip := queue], log, now, limit, max, span)
  {
    forall other
      ensures Tracks(Held(attempts[ip := queue], other), TimesOf(log, other), now, limit, max, span)
    {
      assert Tracks(Held(attempts, other), TimesOf(log, other), now, limit, max, span);
    }
  }

  lemma {:induction false} AcceptTracks(attempts: map<Ip, seq<int>>, log: seq<Attempt>, now: int, max: nat, span: int,
                                        ip: Ip, queue: seq<int>)
    requires TracksAll(attempts, log, now, now - span, max, span)
    requires Tracks(queue, TimesOf(log, ip), now, now - span, max, span) && |queue| < max
    ensures TracksAll(attempts[ip := queue + [now]], log + [Attempt(ip, now)], now, now - span, max, span)
  {
    AcceptSpaces(queue, TimesOf(log, ip), now, max, span);
    AcceptKeeps(queue, TimesOf(log, ip), now, now - span);
    var attempts', log' := attempts[ip := queue + [now]], log + [Attempt(ip, now)];
    forall other
      ensures Tracks(Held(attempts', other), TimesOf(log', other), now, now - span, max, span)
    {
      TimesOfAppend(log, Attempt(ip, now), other);
      hide TimesOf, Keeps, Ascending, UpTo, Spaced;
      if other == ip {
        assert Held(attempts', ip) == queue + [now];
      } else {
        assert Tracks(Held(attempts, other), TimesOf(log, other), now, now - span, max, span);
        assert Held(attempts', other) == Held(attempts, other);
      }
    }
  }

  lemma {:induction false} AcceptKeeps(queue: seq<int>, all: seq<int>, now: int, limit: int)
    requires Keeps(queue, all, limit)
    ensures Keeps(queue + [now], all + [now], limit)
  {
    var dropped := |all| - |queue|;
    assert (all + [now])[dropped..] == all[dropped..] + [now];
  }

  lemma {:induction false} TimesOfAppend(log: seq<Attempt>, a: Attempt, ip: Ip)
    ensures TimesOf(log + [a], ip) == if a.ip == ip then TimesOf(log, ip) + [a.at] else TimesOf(log, ip)
  {
    assert (log + [a])[..|log|] == log;
    assert TimesOf(log, ip) + [] == TimesOf(log, ip);
  }

  /** The queues of a state against everything accepted until `clock`. */
  ghost predicate Sound(c: Config, drift: nat, s: State, log: seq<Attempt>, clock: int) {
    && |s.attempts| <= c.maxIps
    && Tracks(s.globalAttempts, Times(log), clock, clock - c.window, c.maxGlobalAttempts, c.window)
    && TracksAll(s.attempts, log, clock, clock + drift - c.window, c.maxAttempts, c.window - drift)
  }

  ghost function Logged(log: seq<Attempt>, ok: bool, a: Attempt): seq<Attempt> { if ok then log + [a] else log }

  /** One check keeps the state sound and refuses only for a reason. */
  lemma {:induction false} StepIsSound(c: Config, drift: nat, s: State, log: seq<Attempt>, clock: int, ip: Ip, now: int,
                                       sweepNow: int)
    requires Sound(c, drift, s, log, clock) && clock <= now <= sweepNow <= now + drift
    ensures var (s', ok) := CheckStep(c, s, ip, now, sweepNow);
            && Sound(c, drift, s', Logged(log, ok, Attempt(ip, now)), now)
            && (|| ok
                || CountWithin(Times(log), now - c.window + 1, c.window) >= c.maxGlobalAttempts
                || CountWithin(TimesOf(log, ip), now - c.window + 1, c.window) >= c.maxAttempts
                || (ip !in s'.attempts && |s'.attempts| == c.maxIps))
  {
    hide Tracks, TracksAll, TimesOf, Times, Expire, Swept, CountWithin;
    var span := c.window - drift;
    TimePasses(s.attempts, log, clock, clock - span, now, now - span, c.maxAttempts, span);
    ExpireGlobal(s.globalAttempts, Times(log), clock, now, c.maxGlobalAttempts, c.window);
    var global := Expire(s.globalAttempts, now, c.window);
    if |global| < c.maxGlobalAttempts {
      SweepTracks(s.attempts, log, now, now - span, c.maxAttempts, span, sweepNow, c.window);
      var attempts := if s.checks % SWEEP_EVERY == 0 then Swept(s.attempts, sweepNow, c.window) else s.attempts;
      if ip in attempts || |attempts| < c.maxIps {
        TracksOne(attempts, log, now, now - span, c.maxAttempts, span, ip, c.window);
        var queue := Expire(Held(attempts, ip), now, c.window);
        AddKey(attempts, ip, queue);
        AddKey(attempts, ip, queue + [now]);
        if |queue| >= c.maxAttempts {
          ReplaceTracks(attempts, log, now, now - span, c.maxAttempts, span, ip, queue);
        } else {
          AcceptTracks(attempts, log, now, c.maxAttempts, span, ip, queue);
          AcceptGlobal(global, log, Attempt(ip, now), c.maxGlobalAttempts, c.window);
        }
      }
    }
  }

  // ----- runs ------------------------------------------------------------------------------------------------------

  /** One check: the address and the two readings of the clock. */
  datatype Request = Request(ip: Ip, now: int, sweepNow: int)

  function StateAfter(c: Config, rs: seq<Request>): State {
    if rs == [] then State(map[], [], 0)
    else
      var r := rs[|rs| - 1];
      CheckStep(c, StateAfter(c, rs[..|rs| - 1]), r.ip, r.now, r.sweepNow).0
  }

  predicate Accepted(c: Config, rs: seq<Request>, i: nat)
    requires i < |rs|
  {
    CheckStep(c, StateAfter(c, rs[..i]), rs[i].ip, rs[i].now, rs[i].sweepNow).1
  }

  /** The accepted attempts of a run. */
  ghost function LogAfter(c: Config, rs: seq<Request>): seq<Attempt> {
    if rs == [] then []
    else
      var n := |rs| - 1;
      Logged(LogAfter(c, rs[..n]), Accepted(c, rs, n), Attempt(rs[n].ip, rs[n].now))
  }

  ghost function ClockAfter(start: int, rs: seq<Request>): int { if rs == [] then start else rs[|rs| - 1].now }

  /** Checks from an empty filter on, by a clock that never goes back, with sweeps at most `drift` late. */
  ghost predicate IsRun(drift: nat, start: int, rs: seq<Request>) {
    rs != [] ==>
      var r := rs[|rs| - 1];
      && IsRun(drift, start, rs[..|rs| - 1])
      && ClockAfter(start, rs[..|rs| - 1]) <= r.now <= r.sweepNow <= r.now + drift
  }

  /** One more check. */
  lemma {:induction false} Extend(c: Config, drift: nat, start: int, rs: seq<Request>, r: Request)
    requires IsRun(drift, start, rs) && ClockAfter(start, rs) <= r.now <= r.sweepNow <= r.now + drift
    ensures var (s, ok) := CheckStep(c, StateAfter(c, rs), r.ip, r.now, r.sweepNow);
            && IsRun(drift, start, rs + [r]) && StateAfter(c, rs + [r]) == s && Accepted(c, rs + [r], |rs|) == ok
            && LogAfter(c, rs + [r]) == Logged(LogAfter(c, rs), ok, Attempt(r.ip, r.now))
  {
    hide CheckStep;
    assert (rs + [r])[..|rs|] == rs;
  }

  lemma {:induction false} EmptyIsSound(c: Config, drift: nat, clock: int)
    ensures Sound(c, drift, State(map[], [], 0), [], clock)
  {}

  lemma {:induction false} RunIsSound(c: Config, drift: nat, start: int, rs: seq<Request>)
    requires IsRun(drift, start, rs)
    ensures Sound(c, drift, StateAfter(c, rs), LogAfter(c, rs), ClockAfter(start, rs))
  {
    hide Sound, CheckStep;
    if rs == [] {
      EmptyIsSound(c, drift, start);
    } else {
      var n := |rs| - 1;
      var before, r := rs[..n], rs[n];
      RunIsSound(c, drift, start, before);
      StepIsSound(c, drift, StateAfter(c, before), LogAfter(c, before), ClockAfter(start, before), r.ip, r.now,
                  r.sweepNow);
    }
  }

  /**
   * In every run no interval as long as the window holds more than the global maximum, none shorter than it by
   * the drift holds more than the maximum of one address, and no more addresses are known than allowed.
   */
  lemma {:induction false} RatesAreBounded(c: Config, drift: nat, start: int, rs: seq<Request>, ip: Ip, from: int)
    requires IsRun(drift, start, rs)
    ensures CountWithin(Times(LogAfter(c, rs)), from, c.window) <= c.maxGlobalAttempts
    ensures CountWithin(TimesOf(LogAfter(c, rs), ip), from, c.window - drift) <= c.maxAttempts
    ensures |StateAfter(c, rs).attempts| <= c.maxIps
  {
    hide IsRun, StateAfter, LogAfter, CountWithin, Times, TimesOf;
    RunIsSound(c, drift, start, rs);
    var span, s, log, clock := c.window - drift, StateAfter(c, rs), LogAfter(c, rs), ClockAfter(start, rs);
    assert Tracks(Held(s.attempts, ip), TimesOf(log, ip), clock, clock - span, c.maxAttempts, span);
    SpacedMeansFew(Times(log), c.maxGlobalAttempts, c.window, from, c.window);
    SpacedMeansFew(TimesOf(log, ip), c.maxAttempts, span, from, span);
  }

  /** The check gets past the global limit, and it is its turn to sweep: one in 256. */
  predicate SweepsAt(c: Config, rs: seq<Request>, j: nat)
    requires j < |rs|
  {
    var s := StateAfter(c, rs[..j]);
    |Expire(s.globalAttempts, rs[j].now, c.window)| < c.maxGlobalAttempts && s.checks % 256 == 0
  }

  /** The address has an accepted attempt in the window that ends when the check sweeps. */
  ghost predicate SeenAt(c: Config, rs: seq<Request>, j: nat, ip: Ip)
    requires j < |rs|
  {
    exists t :: t in TimesOf(LogAfter(c, rs[..j]), ip) && rs[j].sweepNow - t < c.window
  }

  lemma {:induction false} ExpireStopsAtLive(queue: seq<int>, now: int, window: nat)
    ensures Expire(queue, now, window) != [] ==>
              Expire(queue, now, window)[0] in queue && now - Expire(queue, now, window)[0] < window
  {
    if queue != [] && now - queue[0] >= window {
      ExpireStopsAtLive(queue[1..], now, window);
    }
  }

  /** A sweep leaves only addresses that still have a live attempt. */
  lemma {:induction false} SweptAreSeen(c: Config, drift: nat, start: int, rs: seq<Request>, j: nat)
    requires j < |rs| && IsRun(drift, start, rs[..j])
    ensures forall ip :: ip in Swept(StateAfter(c, rs[..j]).attempts, rs[j].sweepNow, c.window) ==> SeenAt(c, rs, j, ip)
  {
    var before := rs[..j];
    RunIsSound(c, drift, start, before);
    hide StateAfter, LogAfter, IsRun, TimesOf, Times, Spaced, Ascending, UpTo;
    var s, log, clock, span := StateAfter(c, before), LogAfter(c, before), ClockAfter(start, before), c.window - drift;
    forall ip | ip in Swept(s.attempts, rs[j].sweepNow, c.window) ensures SeenAt(c, rs, j, ip) {
      assert Tracks(Held(s.attempts, ip), TimesOf(log, ip), clock, clock - span, c.maxAttempts, span);
      ExpireStopsAtLive(s.attempts[ip], rs[j].sweepNow, c.window);
      var t := Expire(s.attempts[ip], rs[j].sweepNow, c.window)[0];
      assert t in TimesOf(log, ip);
    }
  }

  /** What one check does to the table of addresses. */
  lemma {:induction false} TableAfterCheck(c: Config, s: State, ip: Ip, now: int, sweepNow: int)
    ensures var (s', ok) := CheckStep(c, s, ip, now, sweepNow);
            var global := |Expire(s.globalAttempts, now, c.window)| < c.maxGlobalAttempts;
            && (!global ==> !ok && s'.attempts == s.attempts && s'.checks == s.checks)
            && (global ==>
                  var table := if s.checks % 256 == 0 then Swept(s.attempts, sweepNow, c.window) else s.attempts;
                  && s'.checks == (s.checks + 1) % 0x1_0000_0000_0000_0000
                  && (ip !in s'.attempts ==> s'.attempts == table && !ok)
                  && forall other :: other in s'.attempts ==> other == ip || other in table)
  {
    hide Expire, Swept;
  }

  /**
   * Nothing is refused without a reason: a maximum is reached in the window that ends now, or the table is full; and
   * a table that has just been swept is full of addresses that each have a live attempt.
   */
  lemma {:induction false} RefusalsHaveReasons(c: Config, drift: nat, start: int, rs: seq<Request>)
    requires IsRun(drift, start, rs) && rs != [] && !Accepted(c, rs, |rs| - 1)
    ensures var r, log, attempts := rs[|rs| - 1], LogAfter(c, rs[..|rs| - 1]), StateAfter(c, rs).attempts;
            || CountWithin(Times(log), r.now - c.window + 1, c.window) >= c.maxGlobalAttempts
            || CountWithin(TimesOf(log, r.ip), r.now - c.window + 1, c.window) >= c.maxAttempts
            || (&& r.ip !in attempts && |attempts| == c.maxIps
                && (SweepsAt(c, rs, |rs| - 1) ==> forall ip :: ip in attempts ==> SeenAt(c, rs, |rs| - 1, ip)))
  {
    hide Sound, CheckStep, CountWithin, Times, TimesOf, SeenAt, Expire, Swept;
    var n := |rs| - 1;
    var before, r := rs[..n], rs[n];
    RunIsSound(c, drift, start, before);
    StepIsSound(c, drift, StateAfter(c, before), LogAfter(c, before), ClockAfter(start, before),
                r.ip, r.now, r.sweepNow);
    TableAfterCheck(c, StateAfter(c, before), r.ip, r.now, r.sweepNow);
    SweptAreSeen(c, drift, start, rs, n);
  }

  ghost predicate CheckedSince(rs: seq<Request>, j: nat, ip: Ip) { exists i :: j <= i < |rs| && rs[i].ip == ip }

  /** `j` is the last check that swept, and every address in the table was live then or has been checked since. */
  ghost predicate LastSweep(c: Config, rs: seq<Request>, j: nat) {
    && j < |rs| && SweepsAt(c, rs, j) && (forall k :: j < k < |rs| ==> !SweepsAt(c, rs, k))
    && forall ip :: ip in StateAfter(c, rs).attempts ==> SeenAt(c, rs, j, ip) || CheckedSince(rs, j, ip)
  }

  /** In every run nobody stays in the table without a reason. */
  lemma {:induction false} TableIsAccountedFor(c: Config, drift: nat, start: int, rs: seq<Request>)
    returns (j: Option<nat>)
    requires IsRun(drift, start, rs)
    ensures j.None? ==> StateAfter(c, rs).attempts == map[] && StateAfter(c, rs).checks == 0
    ensures j.Some? ==> LastSweep(c, rs, j.value)
  {
    if rs == [] {
      j := None;
    } else {
      var n := |rs| - 1;
      var before, r := rs[..n], rs[n];
      var i := TableIsAccountedFor(c, drift, start, before);
      TableAfterCheck(c, StateAfter(c, before), r.ip, r.now, r.sweepNow);
      if SweepsAt(c, rs, n) {
        j := Some(n);
        SweepNow(c, drift, start, rs);
      } else {
        j := i;
        if i.Some? {
          SweepEarlier(c, rs, i.value);
        }
      }
    }
  }

  lemma {:induction false} SweepNow(c: Config, drift: nat, start: int, rs: seq<Request>)
    requires rs != [] && IsRun(drift, start, rs) && SweepsAt(c, rs, |rs| - 1)
    ensures LastSweep(c, rs, |rs| - 1)
  {
    hide CheckStep, SeenAt, Expire, Swept;
    var n := |rs| - 1;
    SweptAreSeen(c, drift, start, rs, n);
    TableAfterCheck(c, StateAfter(c, rs[..n]), rs[n].ip, rs[n].now, rs[n].sweepNow);
    forall ip | ip in StateAfter(c, rs).attempts ensures SeenAt(c, rs, n, ip) || CheckedSince(rs, n, ip) {
      if ip == rs[n].ip {
        assert CheckedSince(rs, n, ip);
      }
    }
  }

  lemma {:induction false} SweepEarlier(c: Config, rs: seq<Request>, j: nat)
    requires rs != [] && !SweepsAt(c, rs, |rs| - 1) && LastSweep(c, rs[..|rs| - 1], j)
    ensures LastSweep(c, rs, j)
  {
    hide CheckStep, Expire, Swept, TimesOf, LogAfter;
    var n := |rs| - 1;
    var before := rs[..n];
    TableAfterCheck(c, StateAfter(c, before), rs[n].ip, rs[n].now, rs[n].sweepNow);
    forall k | 0 <= k < n ensures SweepsAt(c, rs, k) == SweepsAt(c, before, k) {
      assert before[..k] == rs[..k];
    }
    assert before[..j] == rs[..j];
    forall ip | ip in StateAfter(c, rs).attempts ensures SeenAt(c, rs, j, ip) || CheckedSince(rs, j, ip) {
      if ip == rs[n].ip {
        assert CheckedSince(rs, j, ip);
      } else if CheckedSince(before, j, ip) {
        var i :| j <= i < n && before[i].ip == ip;
        assert rs[i].ip == ip;
      } else {
        assert SeenAt(c, before, j, ip);
      }
    }
  }

  ghost function After(times: seq<int>, limit: int): seq<int> {
    if times == [] then [] else (if times[0] > limit then [times[0]] else []) + After(times[1..], limit)
  }

  /** In every run the live attempts of the queues are those of the log, for every address and for all together. */
  lemma {:induction false} QueuesHoldWhatIsLive(c: Config, drift: nat, start: int, rs: seq<Request>, ip: Ip, now: int)
    requires IsRun(drift, start, rs) && now >= ClockAfter(start, rs) + drift
    ensures var s, log := StateAfter(c, rs), LogAfter(c, rs);
            && After(Held(s.attempts, ip), now - c.window) == After(TimesOf(log, ip), now - c.window)
            && After(s.globalAttempts, now - c.window) == After(Times(log), now - c.window)
  {
    hide IsRun, StateAfter, LogAfter, Times, TimesOf, After;
    RunIsSound(c, drift, start, rs);
    var span, s, log, clock := c.window - drift, StateAfter(c, rs), LogAfter(c, rs), ClockAfter(start, rs);
    assert Tracks(Held(s.attempts, ip), TimesOf(log, ip), clock, clock - span, c.maxAttempts, span);
    KeptIsLive(Held(s.attempts, ip), TimesOf(log, ip), now - c.window);
    KeptIsLive(s.globalAttempts, Times(log), now - c.window);
  }

  class ConnectionRateFilter {
    const config: Config
    ghost const drift: nat
    ghost const start: int
    var attempts: map<Ip, seq<int>>
    var globalAttempts: seq<int>
    var checks: nat
    ghost var requests: seq<Request>

    constructor (maxAttempts: nat, window: nat, maxIps: nat, maxGlobalAttempts: nat, ghost drift: nat, ghost start: int)
      ensures Valid() && requests == [] && this.drift == drift && this.start == start
      ensures config == Config(if maxAttempts == 0 then 1 else maxAttempts, window, if maxIps == 0 then 1 else maxIps,
                               if maxGlobalAttempts == 0 then 1 else maxGlobalAttempts)
    {
      config := Config(AtLeastOne(maxAttempts), window, AtLeastOne(maxIps), AtLeastOne(maxGlobalAttempts));
      this.drift, this.start := drift, start;
      attempts, globalAttempts, checks, requests := map[], [], 0, [];
    }

    ghost function Now(): State reads this { State(attempts, globalAttempts, checks) }

    /** The filter is in the state of the run so far. */
    ghost predicate Valid() reads this {
      IsRun(drift, start, requests) && Now() == StateAfter(config, requests)
    }

    /** With a clock that never goes back. */
    method Check(ip: Ip, now: int, sweepNow: int) returns (ok: bool)
      requires Valid() && ClockAfter(start, requests) <= now <= sweepNow <= now + drift
      modifies this
      ensures Valid() && requests == old(requests) + [Request(ip, now, sweepNow)]
      ensures ok == Accepted(config, requests, |requests| - 1)
    {
      hide Expire, Swept, IsRun, StateAfter, Accepted;
      Extend(config, drift, start, requests, Request(ip, now, sweepNow));
      requests := requests + [Request(ip, now, sweepNow)];
      globalAttempts := PopExpired(globalAttempts, now, config.window);
      if |globalAttempts| >= config.maxGlobalAttempts {
        return false;
      }
      var sweep := checks % SWEEP_EVERY == 0;
      checks := (checks + 1) % (U64_MAX + 1);
      if sweep {
        attempts := Swept(attempts, sweepNow, config.window);
      }
      if ip !in attempts && |attempts| >= config.maxIps {
        return false;
      }
      var queue := PopExpired(Held(attempts, ip), now, config.window);
      if |queue| >= config.maxAttempts {
        attempts := attempts[ip := queue];
        return false;
      }
      attempts := attempts[ip := queue + [now]];
      globalAttempts := globalAttempts + [now];
      ok := true;
    }
  }

  function AtLeastOne(n: nat): nat { if n < 1 then 1 else n }

  lemma {:induction false} AddKey(m: map<Ip, seq<int>>, ip: Ip, queue: seq<int>)
    ensures |m[ip := queue]| == if ip in m then |m| else |m| + 1
  {
    assert m[ip := queue].Keys == m.Keys + {ip};
    assert |m[ip := queue]| == |m[ip := queue].Keys|;
  }

  lemma {:induction false} ExpireGlobal(queue: seq<int>, all: seq<int>, before: int, now: int, max: nat, window: nat)
    requires Tracks(queue, all, before, before - window, max, window) && before <= now
    ensures Tracks(Expire(queue, now, window), all, now, now - window, max, window)
    ensures CountWithin(all, now - window + 1, window) >= |Expire(queue, now, window)|
  {
    ExpireKeeps(queue, all, now - window, now, window);
    ExpiredIsLive(queue, now, window);
    LiveQueueCounts(Expire(queue, now, window), all, now - window, now, window);
  }

  lemma {:induction false} LiveQueueCounts(queue: seq<int>, all: seq<int>, limit: int, now: int, window: nat)
    requires Keeps(queue, all, limit) && UpTo(all, now) && forall i :: 0 <= i < |queue| ==> now - queue[i] < window
    ensures CountWithin(all, now - window + 1, window) >= |queue|
    decreases |all|
  {
    if all != [] {
      if |queue| == |all| {
        assert all == queue && queue[0] == all[0];
        LiveQueueCounts(queue[1..], all[1..], limit, now, window);
      } else {
        assert all[1..][|all[1..]| - |queue|..] == queue;
        LiveQueueCounts(queue, all[1..], limit, now, window);
      }
    }
  }

  lemma {:induction false} AcceptGlobal(queue: seq<int>, log: seq<Attempt>, a: Attempt, max: nat, window: nat)
    requires Tracks(queue, Times(log), a.at, a.at - window, max, window) && |queue| < max
    ensures Tracks(queue + [a.at], Times(log + [a]), a.at, a.at - window, max, window)
  {
    AcceptSpaces(queue, Times(log), a.at, max, window);
    assert Times(log + [a]) == Times(log) + [a.at];
  }

  lemma {:induction false} TracksOne(attempts: map<Ip, seq<int>>, log: seq<Attempt>, now: int, limit: int, max: nat,
                                     span: int, ip: Ip, window: nat)
    requires TracksAll(attempts, log, now, limit, max, span) && now - window <= limit
    ensures Tracks(Expire(Held(attempts, ip), now, window), TimesOf(log, ip), now, limit, max, span)
    ensures CountWithin(TimesOf(log, ip), now - window + 1, window) >= |Expire(Held(attempts, ip), now, window)|
  {
    assert Tracks(Held(attempts, ip), TimesOf(log, ip), now, limit, max, span);
    ExpireKeeps(Held(attempts, ip), TimesOf(log, ip), limit, now, window);
    ExpiredIsLive(Held(attempts, ip), now, window);
    LiveQueueCounts(Expire(Held(attempts, ip), now, window), TimesOf(log, ip), limit, now, window);
  }

  lemma {:induction false} KeptIsLive(queue: seq<int>, all: seq<int>, limit: int)
    requires Keeps(queue, all, limit)
    ensures After(queue, limit) == After(all, limit)
    decreases |all|
  {
    if |queue| < |all| {
      assert all[1..][|all[1..]| - |queue|..] == queue;
      KeptIsLive(queue, all[1..], limit);
    } else {
      assert queue == all;
    }
  }

  function OneIn(window: nat): Config { Config(1, window, 1, 1000) }

  lemma {:induction false} FirstIsAccepted(w: nat)
    ensures CheckStep(OneIn(w), State(map[], [], 0), 7, 0, 0) == (State(map[7 := [0]], [0], 1), true)
  {
    assert Swept(map[], 0, w) == map[] && Expire([], 0, w) == [] && [] + [0] == [0];
  }

  lemma {:induction false} StrangerIsRefused(w: nat, n: nat)
    requires w > 0 && 0 < n < 256
    ensures CheckStep(OneIn(w), State(map[7 := [0]], [0], n), 8, 0, 0) == (State(map[7 := [0]], [0], n + 1), false)
  {
    assert Expire([0], 0, w) == [0];
    hide Expire, Swept;
  }

  lemma {:induction false} SecondIsAccepted(w: nat, drift: nat)
    requires 0 < drift <= w
    ensures CheckStep(OneIn(w), State(map[7 := [0]], [0], 256), 7, w - drift, w).1
  {
    assert Expire([0], w - drift, w) == [0];
    assert [0][1..] == [] && Expire([0], w, w) == Expire([], w, w) == [];
    assert Swept(map[7 := [0]], w, w) == map[];
    assert Expire([], w - drift, w) == [];
    hide Expire, Swept;
  }

  /** A first attempt, strangers that fill up the count of checks, and a second attempt while a sweep is late. */
  ghost function Early(n: nat): seq<Request> {
    if n == 0 then [] else Early(n - 1) + [Request(if n == 1 then 7 else 8, 0, 0)]
  }

  lemma {:induction false} NothingYet(c: Config)
    ensures StateAfter(c, []) == State(map[], [], 0) && LogAfter(c, []) == []
  {}

  lemma {:induction false} EarlyRun(w: nat, drift: nat, n: nat)
    requires w > 0 && 0 < n <= 256
    ensures |Early(n)| == n && IsRun(drift, 0, Early(n)) && ClockAfter(0, Early(n)) == 0
    ensures StateAfter(OneIn(w), Early(n)) == State(map[7 := [0]], [0], n)
    ensures LogAfter(OneIn(w), Early(n)) == [Attempt(7, 0)]
  {
    hide CheckStep, StateAfter, LogAfter;
    var early, r := Early(n - 1), Request(if n == 1 then 7 else 8, 0, 0);
    if n == 1 {
      NothingYet(OneIn(w));
      FirstIsAccepted(w);
      assert [] + [Attempt(7, 0)] == [Attempt(7, 0)];
    } else {
      EarlyRun(w, drift, n - 1);
      StrangerIsRefused(w, n - 1);
    }
    Extend(OneIn(w), drift, 0, early, r);
  }

  /**
   * No drift can be left out, for any window: there is a run in which a sweep reads the clock that much later
   * than its own check, and one address gets two attempts within a window although the maximum is one.
   */
  lemma {:induction false} DriftCanAdmitOneMore(window: nat, drift: nat) returns (rs: seq<Request>)
    requires 0 < drift <= window
    ensures IsRun(drift, 0, rs) && OneIn(window).maxAttempts == 1
    ensures CountWithin(TimesOf(LogAfter(OneIn(window), rs), 7), 0, window - drift + 1) == 2
  {
    hide Early, CheckStep, StateAfter, LogAfter, IsRun, CountWithin, TimesOf;
    var early, r := Early(256), Request(7, window - drift, window);
    rs := early + [r];
    EarlyRun(window, drift, 256);
    Extend(OneIn(window), drift, 0, early, r);
    SecondIsAccepted(window, drift);
    assert [Attempt(7, 0)] + [Attempt(7, window - drift)] == [Attempt(7, 0), Attempt(7, window - drift)];
    TwoAttempts(window - drift);
  }

  lemma {:induction false} TwoAttempts(at: nat)
    ensures CountWithin(TimesOf([Attempt(7, 0), Attempt(7, at)], 7), 0, at + 1) == 2
  {
    var log := [Attempt(7, 0), Attempt(7, at)];
    assert log[..1] == [Attempt(7, 0)] && log[..1][..0] == [];
    assert TimesOf(log[..1], 7) == [0];
    assert TimesOf(log, 7) == [0, at];
    assert [0, at][1..] == [at] && [at][1..] == [];
    assert CountWithin([at], 0, at + 1) == 1;
  }
}
