/**
 * The behavioural score of src/behavioral.rs. The stored score is decayed lazily, when it is touched
 * and more than a tenth of a second has passed; the ideal score falls five points a second all the
 * time and stops at zero. Scores and times are real numbers.
 */
module Decay {
  import opened Wrappers

  const DECAY_RATE: real := 5.0
  const SLACK: real := 0.5

  datatype Profile = Profile(score: real, lastDecay: real)

  function Max(a: real, b: real): real { if a < b then b else a }

  /** The clock is read for the elapsed time, and again (`after`) when the decay is recorded. */
  function ApplyDecay(p: Profile, now: real, after: real): Profile {
    var elapsed := now - p.lastDecay;
    if elapsed > 0.1 then Profile(Max(p.score - elapsed * DECAY_RATE, 0.0), after) else p
  }

  function AddScore(p: Profile, points: real, now: real, after: real): Profile {
    var q := ApplyDecay(p, now, after);
    q.(score := q.score + points)
  }

  // ----- runs of scoring events ---------------------------------------------------------------------------

  datatype Event = Event(now: real, after: real, points: real)

  /** Events in the order of a clock that never goes back, from the creation of the profile on. */
  ghost predicate IsRun(start: real, events: seq<Event>) {
    && (forall i :: 0 <= i < |events| ==> start <= events[i].now <= events[i].after && events[i].points >= 0.0)
    && (forall i :: 0 < i < |events| ==> events[i - 1].now <= events[i].now)
  }

  ghost function Lazy(start: real, events: seq<Event>): Profile {
    if events == [] then Profile(0.0, start)
    else
      var n := |events| - 1;
      AddScore(Lazy(start, events[..n]), events[n].points, events[n].now, events[n].after)
  }

  ghost function TimeOf(start: real, events: seq<Event>): real {
    if events == [] then start else events[|events| - 1].now
  }

  ghost function Ideal(start: real, events: seq<Event>): real {
    if events == [] then 0.0
    else
      var n := |events| - 1;
      var passed := events[n].now - TimeOf(start, events[..n]);
      Max(Ideal(start, events[..n]) - DECAY_RATE * passed, 0.0) + events[n].points
  }

  /** Time that falls between the two readings of the clock, which no decay accounts for. */
  ghost function Lag(start: real, events: seq<Event>): real {
    if events == [] then 0.0
    else
      var n := |events| - 1;
      var decays := events[n].now - Lazy(start, events[..n]).lastDecay > 0.1;
      Lag(start, events[..n]) + (if decays then events[n].after - events[n].now else 0.0)
  }

  /** How the stored score stands to the ideal one, with what is still to be decayed taken into account. */
  ghost predicate Tracks(p: Profile, ideal: real, now: real, lag: real) {
    var due := DECAY_RATE * (now - p.lastDecay);
    && p.score >= 0.0 && ideal >= 0.0 && lag >= 0.0 && due <= SLACK
    && p.score - due <= ideal + DECAY_RATE * lag
    && ideal <= p.score + SLACK && ideal <= p.score + SLACK - due
  }

  lemma {:induction false} StepTracks(p: Profile, ideal: real, before: real, lag: real, e: Event)
    requires Tracks(p, ideal, before, lag) && before <= e.now <= e.after && e.points >= 0.0
    ensures Tracks(AddScore(p, e.points, e.now, e.after),
                   Max(ideal - DECAY_RATE * (e.now - before), 0.0) + e.points, e.now,
                   lag + (if e.now - p.lastDecay > 0.1 then e.after - e.now else 0.0))
  {}

  lemma {:induction false} RunTracks(start: real, events: seq<Event>)
    requires IsRun(start, events)
    ensures Tracks(Lazy(start, events), Ideal(start, events), TimeOf(start, events), Lag(start, events))
  {
    if events != [] {
      var n := |events| - 1;
      RunTracks(start, events[..n]);
      assert TimeOf(start, events[..n]) <= events[n].now;
      StepTracks(Lazy(start, events[..n]), Ideal(start, events[..n]), TimeOf(start, events[..n]),
                 Lag(start, events[..n]), events[n]);
    }
  }

  lemma {:induction false} NoLag(start: real, events: seq<Event>)
    requires forall i :: 0 <= i < |events| ==> events[i].after == events[i].now
    ensures Lag(start, events) == 0.0
  {
    if events != [] {
      NoLag(start, events[..|events| - 1]);
    }
  }

  /**
   * After any number of events the stored score is at most half a point below the ideal one, and above
   * it by at most half a point and what fell between two readings of the clock. Decays do not add up
   * an error of their own.
   */
  lemma {:induction false} LazyStaysCloseToIdeal(start: real, events: seq<Event>)
    requires IsRun(start, events)
    ensures Ideal(start, events) - 0.5 <= Lazy(start, events).score
    ensures Lazy(start, events).score <= Ideal(start, events) + 0.5 + 5.0 * Lag(start, events)
    ensures (forall i :: 0 <= i < |events| ==> events[i].after == events[i].now)
              ==> Lazy(start, events).score <= Ideal(start, events) + 0.5
  {
    RunTracks(start, events);
    if forall i :: 0 <= i < |events| ==> events[i].after == events[i].now {
      NoLag(start, events);
    }
  }

  // ----- the lag does add up ------------------------------------------------------------------------------

  /** Decays four tenths of a second apart, each recorded a tenth of a second after it was computed. */
  ghost function Late(points: real, n: nat): (events: seq<Event>)
    ensures |events| == n + 1
  {
    if n == 0 then [Event(0.0, 0.0, points)]
    else Late(points, n - 1) + [Event(0.4 * n as real, 0.4 * n as real + 0.1, 0.0)]
  }

  lemma {:induction false} LateIsRun(points: real, n: nat)
    requires points >= 0.0
    ensures IsRun(0.0, Late(points, n)) && TimeOf(0.0, Late(points, n)) == 0.4 * n as real
  {
    if n > 0 {
      LateIsRun(points, n - 1);
    }
  }

  lemma {:induction false} LateScores(points: real, n: nat)
    requires points >= 2.0 * n as real
    ensures Ideal(0.0, Late(points, n)) == points - 2.0 * n as real
    ensures n == 0 ==> Lazy(0.0, Late(points, n)) == Profile(points, 0.0)
    ensures n > 0 ==> Lazy(0.0, Late(points, n)) == Profile(points - 1.5 * n as real - 0.5, 0.4 * n as real + 0.1)
  {
    if n > 0 {
      LateScores(points, n - 1);
      LateIsRun(points, n - 1);
      assert Late(points, n)[..n] == Late(points, n - 1);
    } else {
      assert Late(points, 0)[..0] == [];
    }
  }

  /** So no constant bounds how far the stored score can stand above the ideal one. */
  lemma {:induction false} LateDecaysDrift(gap: nat) returns (events: seq<Event>)
    ensures IsRun(0.0, events) && Lazy(0.0, events).score == Ideal(0.0, events) + 0.5 * gap as real
  {
    var points := 2.0 * (gap + 1) as real;
    events := Late(points, gap + 1);
    LateIsRun(points, gap + 1);
    LateScores(points, gap + 1);
  }

  // ----- the profile ---------------------------------------------------------------------------------------

  const MAX_HASHES: nat := 64
  const PATH_DIVERSITY_THRESHOLD: nat := 30
  const PATH_DIVERSITY_WINDOW_SECS: real := 60.0
  const UA_ROTATION_THRESHOLD: nat := 3

  datatype Verdict = Allow | Throttle | Block
  datatype UserAgent = Missing | Empty | Named(hash: nat)
  datatype Limits = Limits(slow: real, block: real, banSecs: real)

  function Judge(score: real, limits: Limits): Verdict {
    if score >= limits.block then Block else if score >= limits.slow then Throttle else Allow
  }

  /** What a verdict says about the ideal score, whatever the stored one was. */
  ghost predicate Justified(verdict: Verdict, ideal: real, lag: real, limits: Limits) {
    var above := SLACK + DECAY_RATE * lag;
    && (ideal >= limits.block + SLACK ==> verdict == Block)
    && (verdict == Block ==> ideal >= limits.block - above)
    && (ideal >= limits.slow + SLACK ==> verdict != Allow)
    && (verdict == Throttle ==> limits.slow - above <= ideal < limits.block + SLACK)
  }

  lemma {:induction false} JudgeIsJustified(start: real, events: seq<Event>, limits: Limits)
    requires IsRun(start, events)
    ensures Justified(Judge(Lazy(start, events).score, limits), Ideal(start, events), Lag(start, events), limits)
  {
    LazyStaysCloseToIdeal(start, events);
  }

  predicate Banned(until: Option<real>, now: real) {
    until.Some? && now < until.value
  }

  /** Nothing is listed twice, and no more than 64 hashes are listed. */
  ghost predicate Listed(hashes: seq<nat>) {
    |hashes| <= MAX_HASHES && forall i, j :: 0 <= i < j < |hashes| ==> hashes[i] != hashes[j]
  }

  function AddHash(hashes: seq<nat>, hash: nat): seq<nat> {
    if hash in hashes || |hashes| >= MAX_HASHES then hashes else hashes + [hash]
  }

  /** A new hash joins the list while it is shorter than 64, at its end; one that is listed does not. */
  lemma {:induction false} HashesAreListedOnce(hashes: seq<nat>, hash: nat)
    requires Listed(hashes)
    ensures Listed(AddHash(hashes, hash))
    ensures hash in hashes ==> AddHash(hashes, hash) == hashes
    ensures hash !in hashes && |hashes| < 64 ==> AddHash(hashes, hash) == hashes + [hash]
    ensures |hashes| == 64 ==> AddHash(hashes, hash) == hashes
  {}

  ghost function Points(events: seq<Event>): real {
    if events == [] then 0.0 else Points(events[..|events| - 1]) + events[|events| - 1].points
  }

  lemma {:induction false} AppendEvent(start: real, events: seq<Event>, e: Event)
    requires IsRun(start, events) && TimeOf(start, events) <= e.now <= e.after && e.points >= 0.0
    ensures IsRun(start, events + [e]) && TimeOf(start, events + [e]) == e.now
    ensures Lazy(start, events + [e]) == AddScore(Lazy(start, events), e.points, e.now, e.after)
    ensures Points(events + [e]) == Points(events) + e.points
  {
    assert (events + [e])[..|events|] == events;
    assert start <= e.now by {
      if events != [] {
        assert start <= events[|events| - 1].now;
      }
    }
  }

  lemma {:induction false} NoPoints(p: Profile, now: real, after: real)
    ensures AddScore(p, 0.0, now, after) == ApplyDecay(p, now, after)
  {}

  lemma {:induction false} NothingIsDue(start: real, events: seq<Event>, points: real)
    requires IsRun(start, events)
    ensures var now, p := TimeOf(start, events), Lazy(start, events);
            AddScore(p, points, now, now) == p.(score := p.score + points)
  {
    hide Lazy, Ideal, Lag, IsRun;
    RunTracks(start, events);
  }

  /** A clock that never goes back; how far it moves between two readings is left open. */
  class Clock {
    var time: real

    method Now() returns (now: real)
      modifies this
      ensures now == time >= old(time)
    {
      now := *;
      if now < time {
        now := time;
      }
      time := now;
    }
  }

  class IpProfile {
    var score: real
    var lastDecay: real
    var pathWindowStarted: real
    var bannedUntil: Option<real>
    var uniquePaths: seq<nat>
    var userAgents: seq<nat>
    var pathDiversityFlagged: bool
    var uaRotationFlagged: bool
    ghost var start: real
    ghost var events: seq<Event>

    /** The stored score is what the events so far make of it, and a flag is up exactly while its list is long. */
    ghost predicate Valid()
      reads this
    {
      && Tallied()
      && Listed(uniquePaths) && Listed(userAgents)
      && pathDiversityFlagged == (|uniquePaths| > PATH_DIVERSITY_THRESHOLD)
      && uaRotationFlagged == (|userAgents| > UA_ROTATION_THRESHOLD)
    }

    ghost predicate Tallied()
      reads `score, `lastDecay, `start, `events
    {
      IsRun(start, events) && Lazy(start, events) == Profile(score, lastDecay)
    }

    twostate predicate Charged(points: real)
      reads this
    {
      && old(events) <= events
      && Points(events) == Points(old(events)) + points
    }

    ghost predicate Before(clock: Clock)
      reads this, clock
    {
      TimeOf(start, events) <= clock.time
    }

    constructor (clock: Clock)
      modifies clock
      ensures Valid() && Before(clock) && events == [] && score == 0.0 && bannedUntil == None
      ensures uniquePaths == [] && userAgents == [] && !pathDiversityFlagged && !uaRotationFlagged
    {
      var now := clock.Now();
      score, lastDecay, pathWindowStarted, bannedUntil := 0.0, now, now, None;
      uniquePaths, userAgents, pathDiversityFlagged, uaRotationFlagged := [], [], false, false;
      start, events := now, [];
    }

    method DecayNow(clock: Clock)
      requires Tallied() && Before(clock)
      modifies clock, `score, `lastDecay, `events
      ensures Tallied() && Before(clock) && clock.time >= old(clock.time)
      ensures Charged(0.0) && |events| == |old(events)| + 1
    {
      hide Lazy, IsRun, TimeOf, Points;
      ghost var before := Profile(score, lastDecay);
      var now := clock.Now();
      var after := now;
      var elapsed := now - lastDecay;
      if elapsed > 0.1 {
        score := Max(score - elapsed * DECAY_RATE, 0.0);
        after := clock.Now();
        lastDecay := after;
      }
      NoPoints(before, now, after);
      AppendEvent(start, events, Event(now, after, 0.0));
      events := events + [Event(now, after, 0.0)];
    }

    /** Points added at the last reading of the clock: no decay is due then. */
    method Bump(points: real)
      requires Tallied() && points >= 0.0
      modifies `score, `events
      ensures Tallied() && Charged(points) && score == old(score) + points
      ensures TimeOf(start, events) == old(TimeOf(start, events))
    {
      hide Lazy, Ideal, Lag, IsRun, Points, AddScore;
      ghost var now := TimeOf(start, events);
      NothingIsDue(start, events, points);
      AppendEvent(start, events, Event(now, now, points));
      score := score + points;
      events := events + [Event(now, now, points)];
    }

    method Add(points: real, clock: Clock)
      requires Tallied() && Before(clock) && points >= 0.0
      modifies clock, `score, `lastDecay, `events
      ensures Tallied() && Before(clock) && clock.time >= old(clock.time)
      ensures Charged(points)
    {
      DecayNow(clock);
      Bump(points);
    }

    /** `seen` is the reading of the clock that decides. */
    method ResetPathWindowIfExpired(clock: Clock) returns (ghost seen: real)
      requires Valid() && Before(clock)
      modifies clock, `pathWindowStarted, `uniquePaths, `pathDiversityFlagged
      ensures Valid() && Before(clock) && old(clock.time) <= seen <= clock.time
      ensures if seen - old(pathWindowStarted) >= PATH_DIVERSITY_WINDOW_SECS
              then uniquePaths == [] && !pathDiversityFlagged && seen <= pathWindowStarted <= clock.time
              else unchanged(`uniquePaths) && unchanged(`pathDiversityFlagged) && unchanged(`pathWindowStarted)
    {
      var now := clock.Now();
      seen := now;
      if now - pathWindowStarted >= PATH_DIVERSITY_WINDOW_SECS {
        pathWindowStarted := clock.Now();
        uniquePaths, pathDiversityFlagged := [], false;
      }
    }

    method NotePath(hash: nat, clock: Clock) returns (ghost points: real)
      requires Valid() && Before(clock)
      modifies clock, `score, `lastDecay, `events, `uniquePaths, `pathDiversityFlagged
      ensures Valid() && Before(clock) && clock.time >= old(clock.time) && Charged(points)
      ensures uniquePaths == AddHash(old(uniquePaths), hash)
      ensures points == (if pathDiversityFlagged && !old(pathDiversityFlagged) then 20.0 else 0.0)
    {
      points := 0.0;
      uniquePaths := AddHash(uniquePaths, hash);
      if !pathDiversityFlagged && |uniquePaths| > PATH_DIVERSITY_THRESHOLD {
        pathDiversityFlagged, points := true, 20.0;
        Add(20.0, clock);
      }
    }

    method NoteUserAgent(ua: UserAgent, clock: Clock) returns (ghost points: real)
      requires Valid() && Before(clock)
      modifies clock, `score, `lastDecay, `events, `userAgents, `uaRotationFlagged
      ensures Valid() && Before(clock) && clock.time >= old(clock.time) && Charged(points)
      ensures userAgents == if ua.Named? then AddHash(old(userAgents), ua.hash) else old(userAgents)
      ensures points == (if !ua.Named? then 8.0 else if uaRotationFlagged && !old(uaRotationFlagged) then 15.0 else 0.0)
    {
      points := 0.0;
      if ua.Named? {
        userAgents := AddHash(userAgents, ua.hash);
        if !uaRotationFlagged && |userAgents| > UA_ROTATION_THRESHOLD {
          uaRotationFlagged, points := true, 15.0;
          Add(15.0, clock);
        }
      } else {
        points := 8.0;
        Add(8.0, clock);
      }
    }

    /** The charges of one request, up to the reading of the score. */
    method Charge(path: nat, ua: UserAgent, clock: Clock) returns (ghost points: real)
      requires Valid() && Before(clock)
      modifies clock, `score, `lastDecay, `events, `pathWindowStarted, `uniquePaths, `pathDiversityFlagged, `userAgents,
               `uaRotationFlagged
      ensures Valid() && Before(clock) && clock.time >= old(clock.time)
      ensures Charged(points + 0.1)
      ensures points == (if pathDiversityFlagged && !old(pathDiversityFlagged) then 20.0 else 0.0)
                        + (if !ua.Named? then 8.0
                           else if uaRotationFlagged && !old(uaRotationFlagged) then 15.0 else 0.0)
      ensures pathDiversityFlagged == (|uniquePaths| > 30) && uaRotationFlagged == (|userAgents| > 3)
      ensures userAgents == if ua.Named? then AddHash(old(userAgents), ua.hash) else old(userAgents)
      ensures clock.time - old(pathWindowStarted) < 60.0 ==> uniquePaths == AddHash(old(uniquePaths), path)
      ensures old(clock.time) - old(pathWindowStarted) >= 60.0 ==> uniquePaths == [path]
      ensures uniquePaths == AddHash(old(uniquePaths), path) || uniquePaths == [path]
    {
      hide Lazy, IsRun, Listed, TimeOf, Points;
      DecayNow(clock);
      var _ := ResetPathWindowIfExpired(clock);
      var p := NotePath(path, clock);
      var q := NoteUserAgent(ua, clock);
      Bump(0.1);
      points := p + q;
    }

    /**
     * One request: a banned client is refused and nothing is charged; otherwise the request is charged its
     * tenth of a point and its penalties, and the verdict is right for the ideal score up to the slack.
     */
    method ScoreKey(path: nat, ua: UserAgent, limits: Limits, clock: Clock)
      returns (verdict: Verdict, ghost seen: real, ghost points: real)
      requires Valid() && Before(clock)
      modifies this, clock
      ensures Valid() && Before(clock) && start == old(start)
      ensures old(clock.time) <= seen <= clock.time
      ensures Banned(old(bannedUntil), seen) == (old(bannedUntil).Some? && seen < old(bannedUntil).value)
      ensures Banned(old(bannedUntil), seen) ==>
                verdict == Block && events == old(events) && bannedUntil == old(bannedUntil)
      ensures !Banned(old(bannedUntil), seen) ==>
                && Justified(verdict, Ideal(start, events), Lag(start, events), limits)
                && Charged(points + 0.1)
                && points == (if pathDiversityFlagged && !old(pathDiversityFlagged) then 20.0 else 0.0)
                             + (if !ua.Named? then 8.0
                                else if uaRotationFlagged && !old(uaRotationFlagged) then 15.0 else 0.0)
                && pathDiversityFlagged == (|uniquePaths| > 30) && uaRotationFlagged == (|userAgents| > 3)
                && userAgents == (if ua.Named? then AddHash(old(userAgents), ua.hash) else old(userAgents))
                && (clock.time - old(pathWindowStarted) < 60.0 ==> uniquePaths == AddHash(old(uniquePaths), path))
                && (seen - old(pathWindowStarted) >= 60.0 ==> uniquePaths == [path])
                && (uniquePaths == AddHash(old(uniquePaths), path) || uniquePaths == [path])
                && (verdict != Block ==> bannedUntil == old(bannedUntil))
                && (verdict == Block ==> bannedUntil == Some(clock.time + limits.banSecs))
    {
      hide Lazy, Ideal, Lag, IsRun, Listed, TimeOf, Points, Justified, Judge;
      var now := clock.Now();
      seen, points := now, 0.0;
      if Banned(bannedUntil, now) {
        return Block, seen, points;
      }
      points := Charge(path, ua, clock);
      verdict := Judge(score, limits);
      JudgeIsJustified(start, events, limits);
      if verdict == Block {
        var at := clock.Now();
        bannedUntil := Some(at + limits.banSecs);
      }
    }

    method RecordWafBlock(clock: Clock)
      requires Valid() && Before(clock)
      modifies clock, `score, `lastDecay, `events
      ensures Valid() && Before(clock) && Charged(20.0)
    {
      Add(20.0, clock);
    }

    method RecordResponse(status: nat, clock: Clock)
      requires Valid() && Before(clock)
      modifies clock, `score, `lastDecay, `events
      ensures Valid() && Before(clock)
      ensures status == 401 ==> Charged(5.0)
      ensures status == 403 || status == 404 ==> Charged(3.0)
      ensures status != 401 && status != 403 && status != 404 ==> events == old(events)
    {
      match status {
        case 404 => Add(3.0, clock);
        case 401 => Add(5.0, clock);
        case 403 => Add(3.0, clock);
        case _ =>
      }
    }
  }
}
