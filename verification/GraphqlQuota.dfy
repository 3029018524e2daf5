/**
 * The quota book of src/graphql.rs: per identity, the cost accepted within the window. The
 * `log` of everything ever accepted is the reference; the book keeps only what is still live.
 */
module GraphqlQuota {
  const U64_MAX: nat := 0xFFFF_FFFF_FFFF_FFFF
  const QUOTA_MAX_KEYS: nat := 50_000
  const SWEEP_EVERY: nat := 256
  const MAX_CONFIG_QUOTA: nat := 1_000_000_000

  datatype Hit = Hit(at: int, cost: nat)

  datatype Entry = Entry(key: string, hit: Hit)

  function SaturatingAdd(a: nat, b: nat): nat { if a + b < U64_MAX then a + b else U64_MAX }

  /** The hits that a window of this length ending at `now` still counts. */
  function Live(hits: seq<Hit>, now: int, window: nat): seq<Hit> {
    if hits == [] then []
    else (if now - hits[0].at < window then [hits[0]] else []) + Live(hits[1..], now, window)
  }

  function Sum(hits: seq<Hit>): nat { if hits == [] then 0 else hits[0].cost + Sum(hits[1..]) }

  /** The fold of the source, which saturates at every step. */
  function SaturatingSum(hits: seq<Hit>, used: nat): nat {
    if hits == [] then used else SaturatingSum(hits[1..], SaturatingAdd(used, hits[0].cost))
  }

  ghost function HitsOf(log: seq<Entry>, key: string): seq<Hit> {
    if log == [] then []
    else (if log[0].key == key then [log[0].hit] else []) + HitsOf(log[1..], key)
  }

  /** The cost accepted for a key in the interval of one window that starts at `start`. */
  ghost function Spent(hits: seq<Hit>, start: int, window: nat): nat {
    if hits == [] then 0
    else (if start <= hits[0].at < start + window then hits[0].cost else 0) + Spent(hits[1..], start, window)
  }

  lemma {:induction false} SaturatingSumIsCapped(hits: seq<Hit>, used: nat)
    requires used <= U64_MAX
    ensures SaturatingSum(hits, used) == if used + Sum(hits) < U64_MAX then used + Sum(hits) else U64_MAX
  {
    if hits != [] {
      SaturatingSumIsCapped(hits[1..], SaturatingAdd(used, hits[0].cost));
    }
  }

  lemma {:induction false} LiveAppend(a: seq<Hit>, b: seq<Hit>, now: int, window: nat)
    ensures Live(a + b, now, window) == Live(a, now, window) + Live(b, now, window)
  {
    if a == [] {
      assert a + b == b;
    } else {
      assert (a + b)[1..] == a[1..] + b;
      LiveAppend(a[1..], b, now, window);
    }
  }

  /** Dropping what has expired does not change what is live later. */
  lemma {:induction false} LiveTwice(hits: seq<Hit>, earlier: int, later: int, window: nat)
    requires earlier <= later
    ensures Live(Live(hits, earlier, window), later, window) == Live(hits, later, window)
  {
    if hits != [] {
      LiveTwice(hits[1..], earlier, later, window);
      LiveAppend(if earlier - hits[0].at < window then [hits[0]] else [],
                 Live(hits[1..], earlier, window), later, window);
    }
  }

  lemma {:induction false} LiveMembers(hits: seq<Hit>, now: int, window: nat, h: Hit)
    ensures h in Live(hits, now, window) <==> h in hits && now - h.at < window
  {
    if hits != [] {
      LiveMembers(hits[1..], now, window, h);
      assert h in hits <==> h == hits[0] || h in hits[1..];
    }
  }

  /** What is live now is what the window that ends now holds. */
  lemma {:induction false} LiveIsTheWindow(hits: seq<Hit>, now: int, window: nat)
    requires forall i :: 0 <= i < |hits| ==> hits[i].at <= now
    ensures Sum(Live(hits, now, window)) == Spent(hits, now - window + 1, window)
  {
    if hits != [] {
      LiveIsTheWindow(hits[1..], now, window);
      if now - hits[0].at < window {
        assert Live(hits, now, window)[1..] == Live(hits[1..], now, window);
      } else {
        assert Live(hits, now, window) == Live(hits[1..], now, window);
      }
    }
  }

  lemma {:induction false} HitsOfAppend(log: seq<Entry>, e: Entry, key: string)
    ensures HitsOf(log + [e], key) == HitsOf(log, key) + (if e.key == key then [e.hit] else [])
  {
    if log != [] {
      assert (log + [e])[1..] == log[1..] + [e];
      HitsOfAppend(log[1..], e, key);
    } else {
      assert [e][1..] == [];
    }
  }

  lemma {:induction false} SpentAppend(hits: seq<Hit>, h: Hit, start: int, window: nat)
    ensures Spent(hits + [h], start, window) ==
            Spent(hits, start, window) + (if start <= h.at < start + window then h.cost else 0)
  {
    if hits != [] {
      assert (hits + [h])[1..] == hits[1..] + [h];
      SpentAppend(hits[1..], h, start, window);
    } else {
      assert [h][1..] == [];
    }
  }

  /** Every hit of an interval that still reaches `now` is live at `now`. */
  lemma {:induction false} IntervalIsLive(hits: seq<Hit>, start: int, now: int, window: nat)
    requires start <= now < start + window
    ensures Spent(hits, start, window) <= Sum(Live(hits, now, window))
  {
    if hits != [] {
      IntervalIsLive(hits[1..], start, now, window);
      if now - hits[0].at < window {
        assert Live(hits, now, window)[1..] == Live(hits[1..], now, window);
      } else {
        assert Live(hits, now, window) == Live(hits[1..], now, window);
      }
    }
  }

  // ----- the book against the log ----------------------------------------------------------------

  function Held(hits: map<string, seq<Hit>>, key: string): seq<Hit> { if key in hits then hits[key] else [] }

  /** For every key the book and the log agree on what is live. */
  ghost predicate Agrees(hits: map<string, seq<Hit>>, log: seq<Entry>, now: int, window: nat) {
    forall key :: Live(Held(hits, key), now, window) == Live(HitsOf(log, key), now, window)
  }

  /** No interval as long as the window holds more than `max` for any key. */
  ghost predicate WithinQuota(log: seq<Entry>, window: nat, max: nat) {
    forall key, start :: Spent(HitsOf(log, key), start, window) <= max
  }

  function Swept(hits: map<string, seq<Hit>>, now: int, window: nat): map<string, seq<Hit>> {
    map key | key in hits && Live(hits[key], now, window) != [] :: Live(hits[key], now, window)
  }

  lemma {:induction false} SweepKeepsLive(hits: map<string, seq<Hit>>, log: seq<Entry>, before: int, now: int,
                                          window: nat)
    requires before <= now && Agrees(hits, log, before, window)
    ensures Agrees(hits, log, now, window) && Agrees(Swept(hits, now, window), log, now, window)
    ensures |Swept(hits, now, window)| <= |hits|
  {
    forall key
      ensures Live(Held(hits, key), now, window) == Live(HitsOf(log, key), now, window)
      ensures Live(Held(Swept(hits, now, window), key), now, window) == Live(HitsOf(log, key), now, window)
    {
      LiveTwice(Held(hits, key), before, now, window);
      LiveTwice(HitsOf(log, key), before, now, window);
      LiveTwice(Held(hits, key), now, now, window);
    }
    FewerKeys(Swept(hits, now, window).Keys, hits.Keys);
  }

  lemma {:induction false} FewerKeys(a: set<string>, b: set<string>)
    requires a <= b
    ensures |a| <= |b|
  {
    assert b == a + (b - a);
  }

  lemma {:induction false} RefreshKeepsLive(hits: map<string, seq<Hit>>, log: seq<Entry>, key: string, now: int,
                                            window: nat)
    requires Agrees(hits, log, now, window)
    ensures Agrees(hits[key := Live(Held(hits, key), now, window)], log, now, window)
  {
    LiveTwice(Held(hits, key), now, now, window);
  }

  lemma {:induction false} AcceptKeepsLive(hits: map<string, seq<Hit>>, log: seq<Entry>, key: string, h: Hit,
                                           window: nat)
    requires Agrees(hits, log, h.at, window)
    ensures Agrees(hits[key := Live(Held(hits, key), h.at, window) + [h]], log + [Entry(key, h)], h.at, window)
  {
    var kept := Live(Held(hits, key), h.at, window);
    forall other
      ensures Live(Held(hits[key := kept + [h]], other), h.at, window) ==
              Live(HitsOf(log + [Entry(key, h)], other), h.at, window)
    {
      HitsOfAppend(log, Entry(key, h), other);
      assert HitsOf(log, other) + [] == HitsOf(log, other);
      assert Live(Held(hits, other), h.at, window) == Live(HitsOf(log, other), h.at, window);
      if other == key {
        LiveTwice(Held(hits, key), h.at, h.at, window);
        LiveAppend(kept, [h], h.at, window);
        LiveAppend(HitsOf(log, key), [h], h.at, window);
      }
    }
  }

  /** The whole-run bound survives an acceptance that fits what is live. */
  lemma {:induction false} AcceptKeepsQuota(log: seq<Entry>, key: string, h: Hit, window: nat, max: nat)
    requires WithinQuota(log, window, max)
    requires Sum(Live(HitsOf(log, key), h.at, window)) + h.cost <= max
    ensures WithinQuota(log + [Entry(key, h)], window, max)
  {
    forall other, start
      ensures Spent(HitsOf(log + [Entry(key, h)], other), start, window) <= max
    {
      HitsOfAppend(log, Entry(key, h), other);
      assert HitsOf(log, other) + [] == HitsOf(log, other);
      if other == key {
        SpentAppend(HitsOf(log, key), h, start, window);
        if start <= h.at < start + window {
          IntervalIsLive(HitsOf(log, key), start, h.at, window);
        }
      }
    }
  }

  ghost predicate Until(log: seq<Entry>, clock: int) { forall i :: 0 <= i < |log| ==> log[i].hit.at <= clock }

  lemma {:induction false} HitsUntil(log: seq<Entry>, key: string, clock: int)
    requires Until(log, clock)
    ensures forall i :: 0 <= i < |HitsOf(log, key)| ==> HitsOf(log, key)[i].at <= clock
  {
    if log != [] {
      HitsUntil(log[1..], key, clock);
    }
  }

  /** The key has an accepted hit in the window that ends at `now`. */
  ghost predicate Recent(log: seq<Entry>, key: string, now: int, window: nat) {
    exists h :: h in HitsOf(log, key) && now - h.at < window
  }

  /** A sweep leaves only keys with a live hit. */
  lemma {:induction false} SweptAreRecent(hits: map<string, seq<Hit>>, log: seq<Entry>, before: int, now: int,
                                          window: nat)
    requires before <= now && Agrees(hits, log, before, window)
    ensures forall key :: key in Swept(hits, now, window) ==> Recent(log, key, now, window)
  {
    SweepKeepsLive(hits, log, before, now, window);
    forall key | key in Swept(hits, now, window) ensures Recent(log, key, now, window) {
      AgreesAt(hits, log, key, now, window);
      var live := Live(HitsOf(log, key), now, window);
      assert live[0] in live;
      LiveMembers(HitsOf(log, key), now, window, live[0]);
    }
  }

  class QuotaBook {
    const max: nat
    const window: nat
    var hits: map<string, seq<Hit>>
    var n: nat
    ghost var log: seq<Entry>
    ghost var clock: int

    constructor (max: nat, window: nat)
      requires 0 < max <= MAX_CONFIG_QUOTA
      ensures Valid() && this.max == max && this.window == window && log == []
    {
      this.max, this.window, hits, n, log := max, window, map[], 0, [];
    }

    ghost predicate Valid() reads this {
      && max <= MAX_CONFIG_QUOTA && |hits| <= QUOTA_MAX_KEYS
      && Agrees(hits, log, clock, window) && WithinQuota(log, window, max) && Until(log, clock)
    }

    /** One call in 256 drops what has expired, and the keys that are left with nothing. */
    method SweepIfDue(now: int)
      requires Valid() && clock <= now
      modifies `hits, `clock
      ensures Valid() && clock == now && |hits| <= |old(hits)|
      ensures n % 256 == 0 ==> forall key :: key in hits ==> Recent(log, key, now, window)
    {
      hide Live, HitsOf, Agrees, WithinQuota, Recent;
      SweepKeepsLive(hits, log, clock, now, window);
      SweptAreRecent(hits, log, clock, now, window);
      if n % SWEEP_EVERY == 0 {
        hits := Swept(hits, now, window);
      }
      clock := now;
    }

    /** The entry of a key, which is made if need be: its live cost decides. */
    method Charge(key: string, cost: nat, now: int) returns (ok: bool)
      requires Valid() && clock <= now && (key in hits || |hits| < QUOTA_MAX_KEYS)
      modifies `hits, `log, `clock
      ensures Valid() && clock == now && key in hits
      ensures log == old(log) + if ok then [Entry(key, Hit(now, cost))] else []
      ensures ok <==> Spent(HitsOf(old(log), key), now - window + 1, window) + cost <= max
    {
      hide Live, HitsOf, Agrees, WithinQuota, Spent;
      HitsUntil(log, key, clock);
      LiveIsTheWindow(HitsOf(log, key), now, window);
      SweepKeepsLive(hits, log, clock, now, window);
      clock := now;
      var kept := Live(Held(hits, key), now, window);
      var used := SaturatingSum(kept, 0);
      SaturatingSumIsCapped(kept, 0);
      AgreesAt(hits, log, key, now, window);
      AddKey(hits, key, kept);
      if SaturatingAdd(used, cost) > max {
        RefreshKeepsLive(hits, log, key, now, window);
        hits := hits[key := kept];
        return false;
      }
      AcceptKeepsLive(hits, log, key, Hit(now, cost), window);
      AcceptKeepsQuota(log, key, Hit(now, cost), window, max);
      AddKey(hits, key, kept + [Hit(now, cost)]);
      hits, log := hits[key := kept + [Hit(now, cost)]], log + [Entry(key, Hit(now, cost))];
      ok := true;
    }

    /** The clock is read for the sweep, if it is due, and then for the request itself. */
    method Consume(key: string, cost: nat, sweepNow: int, now: int) returns (ok: bool)
      requires Valid() && clock <= sweepNow <= now
      modifies this
      ensures Valid()
      ensures log == old(log) + if ok then [Entry(key, Hit(now, cost))] else []
      ensures ok <==> (Spent(HitsOf(old(log), key), now - window + 1, window) + cost <= max && key in hits)
      ensures clock == now
      ensures key !in hits ==> |hits| == 50_000
      ensures key !in hits && old(n) % 256 == 0 ==> forall k :: k in hits ==> Recent(old(log), k, sweepNow, window)
    {
      hide Live, HitsOf, Agrees, WithinQuota, Spent, Recent;
      SweepIfDue(sweepNow);
      n := (n + 1) % (U64_MAX + 1);
      if key !in hits && |hits| >= QUOTA_MAX_KEYS {
        SweepKeepsLive(hits, log, clock, now, window);
        clock := now;
        return false;
      }
      ok := Charge(key, cost, now);
    }
  }

  lemma {:induction false} AddKey(hits: map<string, seq<Hit>>, key: string, value: seq<Hit>)
    ensures |hits[key := value]| == if key in hits then |hits| else |hits| + 1
  {
    assert hits[key := value].Keys == hits.Keys + {key};
    assert |hits[key := value]| == |hits[key := value].Keys|;
  }

  lemma {:induction false} AgreesAt(hits: map<string, seq<Hit>>, log: seq<Entry>, key: string, now: int, window: nat)
    requires Agrees(hits, log, now, window)
    ensures Live(Held(hits, key), now, window) == Live(HitsOf(log, key), now, window)
  {}
}
