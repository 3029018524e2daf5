/**
 * The replay cache of src/jwt.rs: a token is used once. The cache maps the hash of a token's `jti` to the
 * last second in which the token could still pass the time checks.
 */
module Replay {
  import opened Wrappers

  const MAX_JTI: nat := 50_000
  const U64_LIMIT: nat := 0x1_0000_0000_0000_0000

  type U64 = x: nat | x < U64_LIMIT

  type Cache = map<U64, U64>

  /** The claims that matter here; `jti` is already trimmed. */
  datatype Token = Token(jti: string, exp: U64, nbf: U64, iat: U64)

  datatype Failure = Forged | Exp | Nbf | Iat | Jti

  function SaturatingAdd(a: U64, b: U64): U64 {
    if a + b < U64_LIMIT then a + b else U64_LIMIT - 1
  }

  function WrappingAdd(a: U64, b: U64): U64 {
    (a + b) % U64_LIMIT
  }

  /** The checks before the cache is asked, in their order; `genuine` stands for signature, issuer and audience. */
  function CheckClaims(genuine: bool, token: Token, leeway: U64, now: U64): Option<Failure> {
    if !genuine then Some(Forged)
    else if WrappingAdd(token.exp, leeway) < now then Some(Exp)
    else if token.nbf > SaturatingAdd(now, leeway) then Some(Nbf)
    else if token.iat > SaturatingAdd(now, leeway) then Some(Iat)
    else if token.jti == "" then Some(Jti)
    else None
  }

  /**
   * The claims hold exactly when the token is genuine, its expiry and leeway, wrapping at 64 bits, are not past, it is
   * neither issued nor valid only later than the leeway from now, and it has a `jti`.
   */
  lemma {:induction false} ClaimsHoldExactly(genuine: bool, token: Token, leeway: U64, now: U64)
    ensures CheckClaims(genuine, token, leeway, now).None? <==>
              && genuine && token.jti != ""
              && now <= (token.exp + leeway) % 0x1_0000_0000_0000_0000
              && token.nbf <= now + leeway && token.iat <= now + leeway
    ensures CheckClaims(genuine, token, leeway, now) == Some(Exp) <==>
              genuine && (token.exp + leeway) % 0x1_0000_0000_0000_0000 < now
  {}

  function Unexpired(cache: Cache, now: U64): Cache {
    map key | key in cache && cache[key] >= now :: cache[key]
  }

  predicate Used(cache: Cache, key: U64, now: U64) {
    key in cache && cache[key] >= now
  }

  // ----- runs in which the unexpired entries fit --------------------------------------------------------------

  datatype Attempt = Attempt(genuine: bool, token: Token, now: U64)

  /** One policy: how it hashes a `jti`, and its leeway. */
  datatype Policy = Policy(hash: string -> U64, leeway: U64)

  function KeyOf(policy: Policy, a: Attempt): U64 { policy.hash(a.token.jti) }

  function UntilOf(policy: Policy, a: Attempt): U64 { SaturatingAdd(a.token.exp, policy.leeway) }

  predicate Accepts(policy: Policy, cache: Cache, a: Attempt) {
    CheckClaims(a.genuine, a.token, policy.leeway, a.now).None? && !Used(cache, KeyOf(policy, a), a.now)
  }

  /** The cache after an attempt when the purge of expired entries makes room. */
  function After(policy: Policy, cache: Cache, a: Attempt): Cache {
    if CheckClaims(a.genuine, a.token, policy.leeway, a.now).Some? then cache
    else
      var purged := Purged(cache, a.now);
      if Used(purged, KeyOf(policy, a), a.now) then purged
      else purged[KeyOf(policy, a) := UntilOf(policy, a)]
  }

  function CacheAfter(policy: Policy, attempts: seq<Attempt>): Cache {
    if attempts == [] then map[]
    else After(policy, CacheAfter(policy, attempts[..|attempts| - 1]), attempts[|attempts| - 1])
  }

  ghost predicate Accepted(policy: Policy, attempts: seq<Attempt>, i: nat)
    requires i < |attempts|
  {
    Accepts(policy, CacheAfter(policy, attempts[..i]), attempts[i])
  }

  ghost predicate ClockRuns(attempts: seq<Attempt>) {
    forall i, j :: 0 <= i < j < |attempts| ==> attempts[i].now <= attempts[j].now
  }

  /** An entry that has not expired stays in the cache. */
  lemma {:induction false} EntryStays(policy: Policy, attempts: seq<Attempt>, i: nat)
    requires ClockRuns(attempts) && i < |attempts| && Accepted(policy, attempts, i)
    ensures UntilOf(policy, attempts[i]) >= attempts[|attempts| - 1].now ==>
              var cache := CacheAfter(policy, attempts);
              KeyOf(policy, attempts[i]) in cache && cache[KeyOf(policy, attempts[i])] >= UntilOf(policy, attempts[i])
  {
    var n := |attempts| - 1;
    if i < n {
      assert attempts[..n][..i] == attempts[..i];
      EntryStays(policy, attempts[..n], i);
    }
  }

  /**
   * A `jti` is used once: after a token is accepted, another one with the same `jti` is accepted only when
   * the first could not have passed the time checks any more.
   */
  lemma {:induction false} JtiIsUsedOnce(policy: Policy, attempts: seq<Attempt>, i: nat, j: nat)
    requires ClockRuns(attempts) && i < j < |attempts| && attempts[i].token.jti == attempts[j].token.jti
    requires Accepted(policy, attempts, i) && Accepted(policy, attempts, j)
    ensures attempts[j].now > UntilOf(policy, attempts[i])
  {
    var before := attempts[..j];
    assert before[..i] == attempts[..i];
    EntryStays(policy, before, i);
  }

  /** So no token is accepted twice, whatever its expiry and the leeway are. */
  lemma {:induction false} TokenIsUsedOnce(policy: Policy, attempts: seq<Attempt>, i: nat, j: nat)
    requires ClockRuns(attempts) && i < j < |attempts| && attempts[i].token == attempts[j].token
    ensures !(Accepted(policy, attempts, i) && Accepted(policy, attempts, j))
  {
    if Accepted(policy, attempts, i) && Accepted(policy, attempts, j) {
      JtiIsUsedOnce(policy, attempts, i, j);
      assert false;
    }
  }

  /** Every entry is that of an accepted attempt. */
  lemma {:induction false} EntriesAreUses(policy: Policy, attempts: seq<Attempt>, key: U64) returns (i: nat)
    requires key in CacheAfter(policy, attempts)
    ensures i < |attempts| && Accepted(policy, attempts, i)
    ensures KeyOf(policy, attempts[i]) == key && UntilOf(policy, attempts[i]) == CacheAfter(policy, attempts)[key]
  {
    var n := |attempts| - 1;
    var before := CacheAfter(policy, attempts[..n]);
    if Accepts(policy, before, attempts[n]) && key == KeyOf(policy, attempts[n]) {
      i := n;
    } else {
      i := EntriesAreUses(policy, attempts[..n], key);
      assert attempts[..n][..i] == attempts[..i];
    }
  }

  /** Some accepted attempt before the `j`th holds its key and could still pass the time checks. */
  ghost predicate HeldBefore(policy: Policy, attempts: seq<Attempt>, j: nat)
    requires j < |attempts|
  {
    exists i: nat :: i < j && Accepted(policy, attempts, i)
                     && KeyOf(policy, attempts[i]) == KeyOf(policy, attempts[j])
                     && UntilOf(policy, attempts[i]) >= attempts[j].now
  }

  /** An attempt is accepted exactly when its claims hold and no live use of its key precedes it. */
  lemma {:induction false} AcceptedExactly(policy: Policy, attempts: seq<Attempt>, j: nat)
    requires ClockRuns(attempts) && j < |attempts|
    ensures var a := attempts[j];
            Accepted(policy, attempts, j) <==>
              && a.genuine && a.token.jti != "" && a.now <= (a.token.exp + policy.leeway) % 0x1_0000_0000_0000_0000
              && a.token.nbf <= a.now + policy.leeway && a.token.iat <= a.now + policy.leeway
              && !HeldBefore(policy, attempts, j)
  {
    ClaimsHoldExactly(attempts[j].genuine, attempts[j].token, policy.leeway, attempts[j].now);
    var cache, key := CacheAfter(policy, attempts[..j]), KeyOf(policy, attempts[j]);
    hide CheckClaims;
    if Used(cache, key, attempts[j].now) {
      var i := EntriesAreUses(policy, attempts[..j], key);
      assert attempts[..j][..i] == attempts[..i];
      assert HeldBefore(policy, attempts, j);
    } else if HeldBefore(policy, attempts, j) {
      var i: nat :| i < j && Accepted(policy, attempts, i)
                    && KeyOf(policy, attempts[i]) == KeyOf(policy, attempts[j])
                    && UntilOf(policy, attempts[i]) >= attempts[j].now;
      assert attempts[..j][..i] == attempts[..i];
      EntryStays(policy, attempts[..j], i);
      assert false;
    }
  }

  // ----- the cache ---------------------------------------------------------------------------------------------

  /** What may be left when the purge does not make room: every tenth entry, in an order nobody chose. */
  ghost predicate Thinned(kept: Cache, full: Cache) {
    |kept| == |full| / 10 && forall key :: key in kept ==> key in full && kept[key] == full[key]
  }

  lemma {:induction false} SubmapIsSmaller(small: Cache, large: Cache)
    requires forall key :: key in small ==> key in large
    ensures |small| <= |large|
  {
    ghost var keys, others := small.Keys, large.Keys;
    assert keys <= others;
    SubsetIsSmaller(keys, others);
  }

  lemma {:induction false} SubsetIsSmaller(small: set<U64>, large: set<U64>)
    requires small <= large
    ensures |small| <= |large|
  {
    if small != {} {
      var key :| key in small;
      SubsetIsSmaller(small - {key}, large - {key});
    }
  }

  function Purged(cache: Cache, now: U64): Cache {
    if |cache| >= MAX_JTI then Unexpired(cache, now) else cache
  }

  /** What becomes of the cache and of a key that is to be entered, the fallback included. */
  ghost predicate Remembered(before: Cache, key: U64, until: U64, now: U64, ok: bool, after: Cache) {
    exists kept ::
      && (if |Purged(before, now)| < MAX_JTI then kept == Purged(before, now) else Thinned(kept, Purged(before, now)))
      && ok == !Used(kept, key, now)
      && after == if ok then kept[key := until] else kept
  }

  /** One attempt, in any state of the cache. */
  ghost predicate Step(policy: Policy, before: Cache, a: Attempt, ok: bool, after: Cache) {
    if CheckClaims(a.genuine, a.token, policy.leeway, a.now).Some? then !ok && after == before
    else Remembered(before, KeyOf(policy, a), UntilOf(policy, a), a.now, ok, after)
  }

  /** Attempts one after the other from an empty cache, with their outcomes. */
  ghost predicate IsTrace(policy: Policy, caches: seq<Cache>, attempts: seq<Attempt>, oks: seq<bool>) {
    && |caches| == |attempts| + 1 == |oks| + 1 && caches[0] == map[] && ClockRuns(attempts)
    && forall i :: 0 <= i < |attempts| ==> Step(policy, caches[i], attempts[i], oks[i], caches[i + 1])
  }

  lemma {:induction false} PurgeShrinks(cache: Cache, now: U64)
    ensures |Purged(cache, now)| <= |cache|
    ensures forall key :: key in Purged(cache, now) ==> key in cache && Purged(cache, now)[key] == cache[key]
  {
    SubmapIsSmaller(Purged(cache, now), cache);
  }

  /** Nothing enters the cache but the key of an accepted attempt, and it never outgrows its limit. */
  lemma {:induction false} StepEnters(policy: Policy, before: Cache, a: Attempt, ok: bool, after: Cache)
    requires Step(policy, before, a, ok, after) && |before| <= MAX_JTI
    ensures |after| <= MAX_JTI
    ensures forall key :: key in after ==>
              || (ok && key == KeyOf(policy, a) && after[key] == UntilOf(policy, a))
              || (key in before && after[key] == before[key])
  {
    hide Purged, Used;
    PurgeShrinks(before, a.now);
    if CheckClaims(a.genuine, a.token, policy.leeway, a.now).None? {
      PurgedIsSmall(before, a.now);
    }
  }

  lemma {:induction false} PurgedIsSmall(cache: Cache, now: U64)
    ensures |Purged(cache, now)| < MAX_JTI || |Purged(cache, now)| <= |cache|
  {
    PurgeShrinks(cache, now);
  }

  lemma {:induction false} TraceEntries(policy: Policy, caches: seq<Cache>, attempts: seq<Attempt>, oks: seq<bool>,
                                        n: nat)
    requires IsTrace(policy, caches, attempts, oks) && n <= |attempts|
    ensures |caches[n]| <= MAX_JTI
    ensures forall key :: key in caches[n] ==>
              exists i :: 0 <= i < n && oks[i] && KeyOf(policy, attempts[i]) == key
                && UntilOf(policy, attempts[i]) == caches[n][key]
  {
    hide Step;
    if n > 0 {
      TraceEntries(policy, caches, attempts, oks, n - 1);
      StepEnters(policy, caches[n - 1], attempts[n - 1], oks[n - 1], caches[n]);
    }
  }

  /** Thinning leaves out some key that is not the one being entered. */
  lemma {:induction false} ThinningForgets(kept: Cache, full: Cache, entered: U64) returns (key: U64)
    requires Thinned(kept, full) && |full| >= MAX_JTI
    ensures key in full && key !in kept && key != entered
  {
    if forall k :: k in full ==> k in kept[entered := 0] {
      SubmapIsSmaller(full, kept[entered := 0]);
      assert false;
    }
    key :| key in full && key !in kept[entered := 0];
  }

  /** An accepted token passes the time checks until its entry expires, unless the sum of expiry and leeway wraps. */
  lemma {:induction false} ClaimsStillHold(policy: Policy, a: Attempt, now: U64)
    requires CheckClaims(a.genuine, a.token, policy.leeway, a.now).None? && a.now <= now <= UntilOf(policy, a)
    requires a.token.exp + policy.leeway < U64_LIMIT
    ensures CheckClaims(a.genuine, a.token, policy.leeway, now).None?
  {}

  /**
   * Every thinning readmits: when the cache is full of live entries, the next attempt makes it forget some
   * token that was accepted and has not expired, and a second use of it at the same instant is accepted.
   */
  lemma {:induction false} ThinningReadmits(policy: Policy, caches: seq<Cache>, attempts: seq<Attempt>, oks: seq<bool>)
    returns (i: nat)
    requires IsTrace(policy, caches, attempts, oks) && attempts != []
    requires var n := |attempts| - 1; var a := attempts[n];
             |Unexpired(caches[n], a.now)| >= MAX_JTI && CheckClaims(a.genuine, a.token, policy.leeway, a.now).None?
    ensures var now := attempts[|attempts| - 1].now;
            && i < |attempts| - 1 && oks[i] && UntilOf(policy, attempts[i]) >= now
            && (attempts[i].token.exp + policy.leeway < U64_LIMIT ==>
                  forall ok, after :: Step(policy, caches[|attempts|], attempts[i].(now := now), ok, after) ==> ok)
  {
    hide Step, Unexpired;
    var n := |attempts| - 1;
    var a, last := attempts[n], caches[n + 1];
    TraceEntries(policy, caches, attempts, oks, n);
    var key := ThinnedStep(policy, caches[n], a, oks[n], last);
    i :| 0 <= i < n && oks[i] && KeyOf(policy, attempts[i]) == key && UntilOf(policy, attempts[i]) == caches[n][key];
    AcceptedHasClaims(policy, caches[i], attempts[i], oks[i], caches[i + 1]);
    if attempts[i].token.exp + policy.leeway < U64_LIMIT {
      ClaimsStillHold(policy, attempts[i], a.now);
      var again := attempts[i].(now := a.now);
      forall ok, after | Step(policy, last, again, ok, after) ensures ok {
        FreeKeyIsAccepted(policy, last, again, ok, after);
      }
    }
  }

  lemma {:induction false} AcceptedHasClaims(policy: Policy, before: Cache, a: Attempt, ok: bool, after: Cache)
    requires Step(policy, before, a, ok, after) && ok
    ensures CheckClaims(a.genuine, a.token, policy.leeway, a.now).None?
  {}

  lemma {:induction false} ThinnedStep(policy: Policy, before: Cache, a: Attempt, ok: bool, after: Cache)
    returns (key: U64)
    requires Step(policy, before, a, ok, after) && CheckClaims(a.genuine, a.token, policy.leeway, a.now).None?
    requires |before| <= MAX_JTI <= |Unexpired(before, a.now)|
    ensures Used(before, key, a.now) && key !in after && |after| < MAX_JTI
  {
    var full, entered := Unexpired(before, a.now), KeyOf(policy, a);
    SubmapIsSmaller(full, before);
    assert Purged(before, a.now) == full;
    var kept :| Thinned(kept, full) && ok == !Used(kept, entered, a.now) &&
                after == if ok then kept[entered := UntilOf(policy, a)] else kept;
    key := ThinningForgets(kept, full, entered);
  }

  lemma {:induction false} FreeKeyIsAccepted(policy: Policy, before: Cache, a: Attempt, ok: bool, after: Cache)
    requires Step(policy, before, a, ok, after) && CheckClaims(a.genuine, a.token, policy.leeway, a.now).None?
    requires |before| < MAX_JTI && KeyOf(policy, a) !in before
    ensures ok
  {}

  method Thin(full: Cache) returns (kept: Cache)
    ensures Thinned(kept, full)
  {
    var todo, seen := full.Keys, 0;
    kept := map[];
    while todo != {}
      invariant todo <= full.Keys && kept.Keys !! todo && seen + |todo| == |full|
      invariant |kept| == seen / 10
      invariant forall key :: key in kept ==> key in full && kept[key] == full[key]
      decreases |todo|
    {
      var key :| key in todo;
      todo := todo - {key};
      seen := seen + 1;
      if seen % 10 == 0 {
        kept := kept[key := full[key]];
      }
    }
  }

  class JwtVerifier {
    const policy: Policy
    var jti: Cache
    ghost var attempts: seq<Attempt>
    ghost var roomy: bool

    /** As long as the purge has always made room, the cache is the one of the runs above. */
    ghost predicate Valid()
      reads this
    {
      roomy ==> jti == CacheAfter(policy, attempts)
    }

    constructor (policy: Policy)
      ensures Valid() && this.policy == policy && jti == map[] && attempts == [] && roomy
    {
      this.policy := policy;
      jti := map[];
      attempts, roomy := [], true;
    }

    method RememberJti(key: U64, until: U64, now: U64) returns (r: Result<(), Failure>)
      modifies `jti
      ensures |old(jti)| <= 50_000 ==> |jti| <= 50_000
      ensures |old(jti)| < 50_000 ==> jti == if r.Ok? then old(jti)[key := until] else old(jti)
      ensures Remembered(old(jti), key, until, now, r.Ok?, jti)
      ensures r.Err? ==> r.error == Jti
    {
      if |jti| >= MAX_JTI {
        SubmapIsSmaller(Unexpired(jti, now), jti);
        jti := Unexpired(jti, now);
        if |jti| >= MAX_JTI {
          jti := Thin(jti);
        }
      }
      ghost var kept := jti;
      assert if |Purged(old(jti), now)| < MAX_JTI then kept == Purged(old(jti), now)
             else Thinned(kept, Purged(old(jti), now));
      if Used(jti, key, now) {
        return Err(Jti);
      }
      jti := jti[key := until];
      return Ok(());
    }

    /** The cache is asked last, so a token that fails a check uses up nothing. */
    method Authenticate(genuine: bool, token: Token, now: U64) returns (r: Result<(), Failure>)
      requires Valid()
      modifies this
      ensures Valid() && attempts == old(attempts) + [Attempt(genuine, token, now)]
      ensures roomy == (old(roomy) && |Unexpired(old(jti), now)| < MAX_JTI)
      ensures Step(policy, old(jti), Attempt(genuine, token, now), r.Ok?, jti)
      ensures roomy ==> r.Ok? == Accepted(policy, attempts, |attempts| - 1)
      ensures |old(jti)| < 50_000 ==> forall key :: key in old(jti) && old(jti)[key] >= now ==>
                                        key in jti && jti[key] == old(jti)[key]
      ensures match CheckClaims(genuine, token, policy.leeway, now)
              case Some(failure) => r == Err(failure) && jti == old(jti)
              case None => r.Err? ==> r.error == Jti
    {
      ghost var a := Attempt(genuine, token, now);
      assert (attempts + [a])[..|attempts|] == attempts;
      roomy := roomy && |Unexpired(jti, now)| < MAX_JTI;
      attempts := attempts + [a];
      var failure := CheckClaims(genuine, token, policy.leeway, now);
      if failure.Some? {
        return Err(failure.value);
      }
      r := RememberJti(policy.hash(token.jti), SaturatingAdd(token.exp, policy.leeway), now);
    }
  }

  // ----- such a run exists -----------------------------------------------------------------------------------------

  /** A policy whose hash is the length, and tokens of all lengths, all used in the same second. */
  ghost function ByLength(): Policy { Policy((s: string) => |s| % U64_LIMIT, 0) }

  ghost function TextOf(n: nat): (s: string)
    ensures |s| == n
  {
    seq(n, i => 'x')
  }

  ghost function AttemptOf(n: nat): Attempt { Attempt(true, Token(TextOf(n), 1, 0, 0), 0) }

  ghost function Filled(n: nat): Cache
    requires n < U64_LIMIT
  {
    if n == 0 then map[] else Filled(n - 1)[n := 1]
  }

  lemma {:induction false} FilledSize(n: nat)
    requires n < U64_LIMIT
    ensures |Filled(n)| == n && forall key :: key in Filled(n) <==> 1 <= key <= n
    ensures forall key :: key in Filled(n) ==> Filled(n)[key] == 1
    ensures Unexpired(Filled(n), 0) == Filled(n)
  {
    if n > 0 {
      FilledSize(n - 1);
    }
  }

  lemma {:induction false} AttemptFacts(n: nat)
    requires 0 < n < U64_LIMIT
    ensures var a := AttemptOf(n);
            && CheckClaims(a.genuine, a.token, 0, 0).None? && KeyOf(ByLength(), a) == n && UntilOf(ByLength(), a) == 1
  {
    assert TextOf(n) != "";
  }

  lemma {:induction false} FillStep(n: nat)
    requires n < MAX_JTI
    ensures Step(ByLength(), Filled(n), AttemptOf(n + 1), true, Filled(n + 1))
  {
    FilledSize(n);
    AttemptFacts(n + 1);
    assert Purged(Filled(n), 0) == Filled(n) && !Used(Filled(n), n + 1, 0);
    hide Filled, AttemptOf, ByLength;
  }

  lemma {:induction false} OverflowStep()
    ensures Step(ByLength(), Filled(MAX_JTI), AttemptOf(MAX_JTI + 1), true, Filled(MAX_JTI / 10)[MAX_JTI + 1 := 1])
  {
    FilledSize(MAX_JTI);
    FilledSize(MAX_JTI / 10);
    AttemptFacts(MAX_JTI + 1);
    var full, kept := Filled(MAX_JTI), Filled(MAX_JTI / 10);
    assert Purged(full, 0) == full && Thinned(kept, full) && !Used(kept, MAX_JTI + 1, 0);
    hide Filled, AttemptOf, ByLength;
  }

  ghost function Thinner(): Cache { Filled(MAX_JTI / 10)[MAX_JTI + 1 := 1] }

  lemma {:induction false} SecondUseStep()
    ensures Step(ByLength(), Thinner(), AttemptOf(MAX_JTI), true, Thinner()[MAX_JTI := 1])
  {
    FilledSize(MAX_JTI / 10);
    AttemptFacts(MAX_JTI);
    assert Purged(Thinner(), 0) == Thinner() && !Used(Thinner(), MAX_JTI, 0);
    hide Filled, AttemptOf, ByLength, Thinner;
  }

  ghost function AttemptAt(n: nat): Attempt { if n <= MAX_JTI then AttemptOf(n + 1) else AttemptOf(MAX_JTI) }

  ghost function CacheAt(n: nat): Cache {
    if n <= MAX_JTI then Filled(n) else if n == MAX_JTI + 1 then Thinner() else Thinner()[MAX_JTI := 1]
  }

  lemma {:induction false} StepAt(n: nat)
    requires n <= MAX_JTI + 1
    ensures Step(ByLength(), CacheAt(n), AttemptAt(n), true, CacheAt(n + 1))
  {
    hide Step, Filled, AttemptOf, ByLength;
    if n < MAX_JTI {
      FillStep(n);
    } else if n == MAX_JTI {
      OverflowStep();
    } else {
      SecondUseStep();
    }
  }

  /** A whole run, from an empty cache, in which one token is accepted twice before it expires. */
  lemma {:induction false} TokenCanBeUsedTwice()
    returns (policy: Policy, caches: seq<Cache>, attempts: seq<Attempt>, oks: seq<bool>, i: nat, j: nat)
    ensures IsTrace(policy, caches, attempts, oks) && i < j < |attempts| && oks[i] && oks[j]
    ensures attempts[i].token == attempts[j].token && attempts[j].now <= UntilOf(policy, attempts[i])
  {
    policy := ByLength();
    caches := seq(MAX_JTI + 3, n requires 0 <= n => CacheAt(n));
    attempts := seq(MAX_JTI + 2, n requires 0 <= n => AttemptAt(n));
    oks := seq(MAX_JTI + 2, n => true);
    i, j := MAX_JTI - 1, MAX_JTI + 1;
    assert CacheAt(0) == map[];
    assert ClockRuns(attempts) && AttemptAt(i) == AttemptAt(j) == AttemptOf(MAX_JTI);
    hide Step, CacheAt, AttemptAt, ByLength;
    forall n | 0 <= n < |attempts| ensures Step(policy, caches[n], attempts[n], oks[n], caches[n + 1]) {
      StepAt(n);
    }
  }
}
