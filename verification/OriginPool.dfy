/**
 * The origin pool of src/origin.rs: circuit breakers, origins marked down, and the round robin that picks
 * among the rest. Failures and health checks update two maps, one after the other, while other threads pick;
 * the runs below interleave these updates. An address stands for its canonical form.
 */
module OriginPool {
  import opened Wrappers

  const CIRCUIT_OPEN_FOR: real := 5.0
  const FAILURES_TO_OPEN: nat := 1
  const U32_LIMIT: nat := 0x1_0000_0000
  const USIZE_LIMIT: nat := 0x1_0000_0000_0000_0000

  type Addr = nat

  datatype Circuit = Circuit(failures: nat, openedAt: Option<real>, probing: bool)

  const CLOSED := Circuit(0, None, false)

  datatype Pool = Pool(circuits: map<Addr, Circuit>, down: set<Addr>, cursor: nat)

  function CircuitOf(circuits: map<Addr, Circuit>, a: Addr): Circuit {
    if a in circuits then circuits[a] else CLOSED
  }

  predicate Sendable(c: Circuit, now: real) {
    c.openedAt.None? || (now - c.openedAt.value >= CIRCUIT_OPEN_FOR && !c.probing)
  }

  function Failed(c: Circuit, now: real): Circuit {
    var failures := (c.failures + 1) % U32_LIMIT;
    Circuit(failures, if failures >= FAILURES_TO_OPEN then Some(now) else c.openedAt, false)
  }

  /** Sending through an open circuit claims its one probe. */
  function Claimed(c: Circuit): Circuit {
    if c.openedAt.Some? then c.(probing := true) else c
  }

  predicate Ready(pool: Pool, a: Addr, tried: seq<Addr>, now: real) {
    a !in tried && a !in pool.down && Sendable(CircuitOf(pool.circuits, a), now)
  }

  /** Which origin is looked at; the sum wraps like the cursor does. */
  function Index(start: nat, offset: nat, n: nat): (x: nat)
    requires n > 0
    ensures x < n
  {
    (start + offset) % USIZE_LIMIT % n
  }

  // ----- the round robin reaches every origin ---------------------------------------------------------------

  ghost predicate Reaches(start: nat, n: nat, x: nat)
    requires n > 0
  {
    exists offset: nat :: offset < n && Index(start, offset, n) == x
  }

  lemma {:induction false} Apart(d: nat, q: nat, n: nat)
    requires d > q
    ensures d * n >= q * n + n
  {
    assert d * n == q * n + n + (d - q - 1) * n;
  }

  lemma {:induction false} Remainder(a: nat, q: nat, n: nat, r: nat)
    requires n > 0 && r < n && a == q * n + r
    ensures a % n == r
  {
    var d := a / n;
    assert a == d * n + a % n;
    if d > q {
      Apart(d, q, n);
    } else if d < q {
      Apart(q, d, n);
    }
  }

  function Around(x: nat, step: nat, n: nat): int {
    if x + step < n then x + step else x + step - n
  }

  lemma {:induction false} ModAdd(s: nat, step: nat, n: nat)
    requires n > 0 && step <= n
    ensures (s + step) % n == Around(s % n, step, n)
  {
    var q, r := s / n, s % n;
    assert s == q * n + r;
    if r + step < n {
      Remainder(s + step, q, n, r + step);
    } else {
      assert (q + 1) * n == q * n + n;
      Remainder(s + step, q + 1, n, r + step - n);
    }
  }

  lemma {:induction false} IndexIs(start: nat, offset: nat, n: nat)
    requires n > 0 && start < USIZE_LIMIT && offset < n <= USIZE_LIMIT
    ensures start + offset < USIZE_LIMIT ==> Index(start, offset, n) == (start + offset) % n
    ensures start + offset >= USIZE_LIMIT ==> Index(start, offset, n) == start + offset - USIZE_LIMIT
  {
    if start + offset >= USIZE_LIMIT {
      var over := start + offset - USIZE_LIMIT;
      Remainder(start + offset, 1, USIZE_LIMIT, over);
      Remainder(over, 0, n, over);
    } else {
      Remainder(start + offset, 0, USIZE_LIMIT, start + offset);
    }
  }

  /** Without a wrap, or when the wrap falls on a multiple of `n`, every origin is looked at. */
  lemma {:induction false} ReachesAll(start: nat, n: nat, x: nat)
    requires n > 0 && start < USIZE_LIMIT && x < n && n <= USIZE_LIMIT
    requires start + n <= USIZE_LIMIT || USIZE_LIMIT % n == 0
    ensures Reaches(start, n, x)
  {
    hide Index;
    var r := start % n;
    var offset := if x >= r then x - r else x + n - r;
    ModAdd(start, offset, n);
    IndexIs(start, offset, n);
    if start + offset >= USIZE_LIMIT {
      ModAdd(USIZE_LIMIT, start + offset - USIZE_LIMIT, n);
    }
    assert Index(start, offset, n) == x;
  }

  /** Otherwise some origin is not looked at, whatever its state. */
  lemma {:induction false} WrapSkips(start: nat, n: nat) returns (x: nat)
    requires 0 < n <= USIZE_LIMIT && start < USIZE_LIMIT
    requires start + n > USIZE_LIMIT && USIZE_LIMIT % n != 0
    ensures x < n && !Reaches(start, n, x)
  {
    hide Index;
    var r, k := USIZE_LIMIT % n, USIZE_LIMIT - start;
    x := if r + n - k - 1 < n then r + n - k - 1 else n - 1;
    forall offset: nat | offset < n ensures Index(start, offset, n) != x {
      IndexIs(start, offset, n);
      if offset < k {
        ModAdd(start + offset, k - offset, n);
        assert start + offset + (k - offset) == USIZE_LIMIT;
      }
    }
  }

  // ----- the pool and its updates ------------------------------------------------------------------------------

  /** A failure opens the circuit and then marks the origin down. */
  function Opened(pool: Pool, a: Addr, now: real): Pool {
    pool.(circuits := pool.circuits[a := Failed(CircuitOf(pool.circuits, a), now)])
  }

  function Marked(pool: Pool, a: Addr): Pool { pool.(down := pool.down + {a}) }

  /** A health check that succeeds takes the mark away and then closes the circuit. */
  function Unmarked(pool: Pool, a: Addr): Pool { pool.(down := pool.down - {a}) }

  function Closed(pool: Pool, a: Addr): Pool { pool.(circuits := pool.circuits[a := CLOSED]) }

  /** The question whether to send, which may claim the probe; it stores the circuit it looked up. */
  function Asked(pool: Pool, a: Addr, now: real): Pool {
    var c := CircuitOf(pool.circuits, a);
    pool.(circuits := pool.circuits[a := if Sendable(c, now) then Claimed(c) else c])
  }

  /** The same circuits, whether stored or not. */
  ghost predicate SameCircuits(before: map<Addr, Circuit>, now: map<Addr, Circuit>) {
    forall a :: CircuitOf(before, a) == CircuitOf(now, a)
  }

  lemma {:induction false} NothingChanged(circuits: map<Addr, Circuit>)
    ensures SameCircuits(circuits, circuits)
  {}

  lemma {:induction false} Updated(circuits: map<Addr, Circuit>, a: Addr, c: Circuit, b: Addr)
    ensures CircuitOf(circuits[a := c], b) == if b == a then c else CircuitOf(circuits, b)
  {}

  lemma {:induction false} UpdateKeepsSame(before: map<Addr, Circuit>, now: map<Addr, Circuit>, a: Addr, c: Circuit)
    requires SameCircuits(before, now)
    ensures SameCircuits(before[a := c], now[a := c])
    ensures CircuitOf(before, a) == CircuitOf(now, a)
    ensures c == CircuitOf(now, a) ==> SameCircuits(before, now[a := c])
  {
    var before', now' := before[a := c], now[a := c];
    forall b
      ensures CircuitOf(before', b) == CircuitOf(now', b)
      ensures c == CircuitOf(now, a) ==> CircuitOf(before, b) == CircuitOf(now', b)
    {
      Updated(before, a, c, b);
      Updated(now, a, c, b);
      assert CircuitOf(before, b) == CircuitOf(now, b);
    }
  }

  ghost predicate NoneReady(origins: seq<Addr>, pool: Pool, tried: seq<Addr>, now: real, offset: nat)
    requires offset <= |origins|
  {
    forall o: nat :: o < offset ==> !Ready(pool, origins[Index(pool.cursor, o, |origins|)], tried, now)
  }

  /** The first origin from the cursor on that is untried, up and sendable; when there is none `offset` is |origins|. */
  ghost predicate PicksFirst(origins: seq<Addr>, pool: Pool, tried: seq<Addr>, now: real, picked: Option<Addr>,
                             offset: nat)
  {
    var n := |origins|;
    && offset <= n && picked.Some? == (offset < n)
    && NoneReady(origins, pool, tried, now, offset)
    && (offset < n ==> picked.value == origins[Index(pool.cursor, offset, n)] && Ready(pool, picked.value, tried, now))
  }

  /** A pick that no other thread comes between. */
  ghost predicate PickStep(origins: seq<Addr>, before: Pool, tried: seq<Addr>, now: real, picked: Option<Addr>,
                           after: Pool)
  {
    && after.down == before.down
    && after.cursor == (if origins == [] then before.cursor else (before.cursor + 1) % USIZE_LIMIT)
    && (exists offset :: PicksFirst(origins, before, tried, now, picked, offset))
    && SameCircuits(if picked.None? then before.circuits
                    else before.circuits[picked.value := Claimed(CircuitOf(before.circuits, picked.value))],
                    after.circuits)
  }

  // ----- interleaved steps -------------------------------------------------------------------------------------

  type Thread = nat

  /** Where a thread stands between two steps: inside a failure, a successful health check, or a pick. */
  datatype Busy = Marking(addr: Addr) | Closing(addr: Addr) | Looking(addr: Addr)

  datatype Shared = Shared(pool: Pool, threads: map<Thread, Busy>)

  datatype Op =
    | Picks(tried: seq<Addr>, now: real, picked: Option<Addr>)  // pick, undisturbed
    | Begins                                                    // pick: the cursor
    | Looks(t: Thread, addr: Addr)                              // pick: an origin is not marked down
    | Sends(t: Thread, at: real, sent: bool)                    // pick: the question to its circuit
    | Opens(t: Thread, addr: Addr, at: real)                    // record_failure: on_failure
    | Marks(t: Thread)                                          // record_failure: insert
    | Unmarks(t: Thread, addr: Addr)                            // check, healthy: remove
    | Closes(t: Thread)                                         // check, healthy: on_success
    | MarksDown(addr: Addr)                                     // check, not healthy
    | Succeeds(addr: Addr)                                      // record_success

  ghost predicate Holds(s: Shared, t: Thread, b: Busy) { t in s.threads && s.threads[t] == b }

  ghost predicate Step(origins: seq<Addr>, s: Shared, op: Op, s': Shared) {
    match op
    case Picks(tried, now, picked) =>
      s'.threads == s.threads && PickStep(origins, s.pool, tried, now, picked, s'.pool)
    case Begins => s' == s.(pool := s.pool.(cursor := (s.pool.cursor + 1) % USIZE_LIMIT))
    case Looks(t, a) => t !in s.threads && a !in s.pool.down && s' == s.(threads := s.threads[t := Looking(a)])
    case Sends(t, now, sent) =>
      && t in s.threads && s.threads[t].Looking?
      && var a := s.threads[t].addr;
         sent == Sendable(CircuitOf(s.pool.circuits, a), now) && s' == Shared(Asked(s.pool, a, now), s.threads - {t})
    case Opens(t, a, now) => t !in s.threads && s' == Shared(Opened(s.pool, a, now), s.threads[t := Marking(a)])
    case Marks(t) =>
      t in s.threads && s.threads[t].Marking? && s' == Shared(Marked(s.pool, s.threads[t].addr), s.threads - {t})
    case Unmarks(t, a) => t !in s.threads && s' == Shared(Unmarked(s.pool, a), s.threads[t := Closing(a)])
    case Closes(t) =>
      t in s.threads && s.threads[t].Closing? && s' == Shared(Closed(s.pool, s.threads[t].addr), s.threads - {t})
    case MarksDown(a) => s' == s.(pool := Marked(s.pool, a))
    case Succeeds(a) => s' == s.(pool := Closed(s.pool, a))
  }

  const EMPTY_POOL := Pool(map[], {}, 0)

  /** Any number of steps, in any order, from an empty pool on. */
  ghost predicate IsRun(origins: seq<Addr>, states: seq<Shared>, ops: seq<Op>) {
    && |states| == |ops| + 1 && states[0] == Shared(EMPTY_POOL, map[])
    && forall i :: 0 <= i < |ops| ==> Step(origins, states[i], ops[i], states[i + 1])
  }

  // ----- an open circuit is guarded ----------------------------------------------------------------------------

  predicate Updates(b: Busy, a: Addr) { (b.Marking? || b.Closing?) && b.addr == a }

  /** Some thread stands between the two updates of a failure or a successful health check of the origin. */
  ghost predicate UnderWay(s: Shared, a: Addr) {
    exists t :: t in s.threads && Updates(s.threads[t], a)
  }

  ghost predicate IsOpen(s: Shared, a: Addr) { CircuitOf(s.pool.circuits, a).openedAt.Some? }

  /** An open circuit belongs to an origin that is marked down or is being updated. */
  ghost predicate GuardedAt(s: Shared, a: Addr) {
    var c := CircuitOf(s.pool.circuits, a);
    && (c.openedAt.Some? ==> a in s.pool.down || UnderWay(s, a))
    && (c.failures > 0 ==> c.openedAt.Some?)
    && (c.probing ==> c.openedAt.Some?)
  }

  ghost predicate Guarded(s: Shared) { forall a :: GuardedAt(s, a) }

  /** A report of success or the end of a health check, which closes the circuit of the origin. */
  ghost predicate ClosesAt(s: Shared, op: Op, a: Addr) {
    (op.Succeeds? && op.addr == a) || (op.Closes? && Holds(s, op.t, Closing(a)))
  }

  lemma {:induction false} PickedCircuit(origins: seq<Addr>, s: Shared, op: Op, s': Shared, a: Addr)
    requires op.Picks? && Step(origins, s, op, s')
    ensures var c := CircuitOf(s.pool.circuits, a);
            CircuitOf(s'.pool.circuits, a) == if op.picked == Some(a) then Claimed(c) else c
    ensures op.picked.Some? ==> Ready(s.pool, op.picked.value, op.tried, op.now)
  {
    hide Ready, Claimed, Index, NoneReady;
    if op.picked.Some? {
      Updated(s.pool.circuits, op.picked.value, Claimed(CircuitOf(s.pool.circuits, op.picked.value)), a);
    }
  }

  /** What one step does to the circuit, the mark and the threads of one origin. */
  lemma {:induction false} StepAt(origins: seq<Addr>, s: Shared, op: Op, s': Shared, a: Addr)
    requires Step(origins, s, op, s')
    ensures var c, c' := CircuitOf(s.pool.circuits, a), CircuitOf(s'.pool.circuits, a);
            || c' == c || c' == Claimed(c)
            || (ClosesAt(s, op, a) && c' == CLOSED)
            || (op.Opens? && op.addr == a && c' == Failed(c, op.at) && UnderWay(s', a))
    ensures a in s.pool.down && a !in s'.pool.down ==> op.Unmarks? && op.addr == a && UnderWay(s', a)
    ensures UnderWay(s, a) && !UnderWay(s', a) ==> a in s'.pool.down || CircuitOf(s'.pool.circuits, a) == CLOSED
  {
    hide PicksFirst, SameCircuits, CircuitOf, Claimed, Failed, Sendable;
    CircuitAt(origins, s, op, s', a);
    ThreadsAt(origins, s, op, s', a);
  }

  lemma {:induction false} CircuitAt(origins: seq<Addr>, s: Shared, op: Op, s': Shared, a: Addr)
    requires Step(origins, s, op, s')
    ensures var c, c' := CircuitOf(s.pool.circuits, a), CircuitOf(s'.pool.circuits, a);
            || c' == c || c' == Claimed(c)
            || (ClosesAt(s, op, a) && c' == CLOSED)
            || (op.Opens? && op.addr == a && c' == Failed(c, op.at))
    ensures op.Closes? && Holds(s, op.t, Closing(a)) ==> CircuitOf(s'.pool.circuits, a) == CLOSED
  {
    if op.Picks? {
      PickedCircuit(origins, s, op, s', a);
    }
  }

  lemma {:induction false} ThreadsAt(origins: seq<Addr>, s: Shared, op: Op, s': Shared, a: Addr)
    requires Step(origins, s, op, s')
    ensures (op.Opens? || op.Unmarks?) && op.addr == a ==> UnderWay(s', a)
    ensures UnderWay(s, a) && !UnderWay(s', a) ==>
              || (op.Marks? && a in s'.pool.down)
              || (op.Closes? && Holds(s, op.t, Closing(a)))
  {
    hide PickStep, CircuitOf, Opened, Closed, Asked;
    if (op.Opens? || op.Unmarks?) && op.addr == a {
      assert op.t in s'.threads && Updates(s'.threads[op.t], a);
    }
    if UnderWay(s, a) {
      var t :| t in s.threads && Updates(s.threads[t], a);
      assert t in s'.threads ==> s'.threads[t] == s.threads[t];
    }
  }

  lemma {:induction false} StepKeepsGuarded(origins: seq<Addr>, s: Shared, op: Op, s': Shared)
    requires Guarded(s) && Step(origins, s, op, s')
    ensures Guarded(s')
  {
    hide Step, UnderWay;
    forall a ensures GuardedAt(s', a) {
      assert GuardedAt(s, a);
      StepAt(origins, s, op, s', a);
    }
  }

  /** At every point of every run an open circuit belongs to an origin that is marked down or being updated. */
  lemma {:induction false} RunIsGuarded(origins: seq<Addr>, states: seq<Shared>, ops: seq<Op>, k: nat)
    requires IsRun(origins, states, ops) && k < |states|
    ensures Guarded(states[k])
  {
    hide Step;
    if k > 0 {
      RunIsGuarded(origins, states, ops, k - 1);
      StepKeepsGuarded(origins, states[k - 1], ops[k - 1], states[k]);
    }
  }

  // ----- who can claim a probe -----------------------------------------------------------------------------------

  /** An undisturbed pick claims a probe only for an origin that is being updated. */
  lemma {:induction false} PickClaimsOnlyUnderWay(origins: seq<Addr>, states: seq<Shared>, ops: seq<Op>, k: nat,
                                                  a: Addr)
    requires IsRun(origins, states, ops) && k < |ops| && ops[k].Picks?
    ensures ops[k].picked == Some(a) && IsOpen(states[k], a) ==> UnderWay(states[k], a)
    ensures !UnderWay(states[k], a) ==>
              CircuitOf(states[k + 1].pool.circuits, a) == CircuitOf(states[k].pool.circuits, a)
  {
    hide UnderWay;
    RunIsGuarded(origins, states, ops, k);
    assert GuardedAt(states[k], a) && Step(origins, states[k], ops[k], states[k + 1]);
    hide Step;
    PickedCircuit(origins, states[k], ops[k], states[k + 1], a);
  }

  lemma {:induction false} LookStays(origins: seq<Addr>, states: seq<Shared>, ops: seq<Op>, i: nat, j: nat, t: Thread,
                                     a: Addr)
    requires IsRun(origins, states, ops) && i < j < |states| && ops[i] == Looks(t, a)
    requires forall k :: i < k < j ==> !(ops[k].Sends? && ops[k].t == t)
    ensures Holds(states[j], t, Looking(a))
  {
    hide PickStep, Opened, Closed, Marked, Unmarked, Asked;
    if j > i + 1 {
      LookStays(origins, states, ops, i, j - 1, t, a);
      assert Step(origins, states[j - 1], ops[j - 1], states[j]);
    } else {
      assert Step(origins, states[i], ops[i], states[j]);
    }
  }

  /** A circuit that has been opened in between was so by a failure that had yet to mark the origin. */
  lemma {:induction false} OpenedInBetween(origins: seq<Addr>, states: seq<Shared>, ops: seq<Op>, i: nat, j: nat,
                                           a: Addr)
    returns (k: nat)
    requires IsRun(origins, states, ops) && i <= j < |states|
    requires !IsOpen(states[i], a) && IsOpen(states[j], a)
    ensures i < k <= j && UnderWay(states[k], a)
  {
    hide Step, UnderWay;
    StepAt(origins, states[j - 1], ops[j - 1], states[j], a);
    if IsOpen(states[j - 1], a) {
      k := OpenedInBetween(origins, states, ops, i, j - 1, a);
    } else {
      k := j;
    }
  }

  /**
   * A pick that others come between, from its look at an origin to its question to the circuit, claims a probe
   * only if an update of that origin was under way at some point in between.
   */
  lemma {:induction false} ProbeNeedsUpdate(origins: seq<Addr>, states: seq<Shared>, ops: seq<Op>, i: nat, j: nat,
                                            t: Thread, a: Addr)
    returns (k: nat)
    requires IsRun(origins, states, ops) && i < j < |ops| && ops[i] == Looks(t, a)
    requires ops[j].Sends? && ops[j].t == t && forall k :: i < k < j ==> !(ops[k].Sends? && ops[k].t == t)
    requires CircuitOf(states[j].pool.circuits, a) != CircuitOf(states[j + 1].pool.circuits, a)
    ensures i <= k <= j && UnderWay(states[k], a)
    ensures IsOpen(states[j], a) && ops[j].sent && CircuitOf(states[j + 1].pool.circuits, a).probing
  {
    LookStays(origins, states, ops, i, j, t, a);
    assert Step(origins, states[i], ops[i], states[i + 1]) && Step(origins, states[j], ops[j], states[j + 1]);
    RunIsGuarded(origins, states, ops, i);
    assert GuardedAt(states[i], a);
    hide UnderWay, Step;
    if IsOpen(states[i], a) {
      k := i;
    } else {
      k := OpenedInBetween(origins, states, ops, i, j, a);
    }
  }

  /** It can happen: a failure, five seconds, and a pick between the two updates of the health check that succeeds. */
  lemma {:induction false} ProbeCanBeClaimed() returns (states: seq<Shared>, ops: seq<Op>)
    ensures IsRun([0], states, ops) && |ops| == 4 && ops[3] == Picks([], 5.0, Some(0))
    ensures CircuitOf(states[4].pool.circuits, 0).probing
  {
    var pool1 := Opened(EMPTY_POOL, 0, 0.0);
    var pool2 := Marked(pool1, 0);
    var pool3 := Unmarked(pool2, 0);
    var pool4 := Pool(pool3.circuits[0 := Claimed(CircuitOf(pool3.circuits, 0))], pool3.down, 1);
    var none: map<Thread, Busy> := map[];
    ops := [Opens(0, 0, 0.0), Marks(0), Unmarks(0, 0), Picks([], 5.0, Some(0))];
    states := [Shared(EMPTY_POOL, none), Shared(pool1, none[0 := Marking(0)]), Shared(pool2, none),
               Shared(pool3, none[0 := Closing(0)]), Shared(pool4, none[0 := Closing(0)])];
    assert none[0 := Marking(0)] - {0} == none;
    assert Ready(pool3, 0, [], 5.0) && PicksFirst([0], pool3, [], 5.0, Some(0), 0);
    NothingChanged(pool4.circuits);
    assert Step([0], states[3], ops[3], states[4]);
  }

  // ----- a failed origin is kept away from -------------------------------------------------------------------------

  /** From its mark on a failed origin stays down until a health check on it succeeds. */
  lemma {:induction false} StaysDown(origins: seq<Addr>, states: seq<Shared>, ops: seq<Op>, i: nat, j: nat, a: Addr)
    requires IsRun(origins, states, ops) && i <= j < |states| && a in states[i].pool.down
    requires forall k :: i <= k < j ==> !(ops[k].Unmarks? && ops[k].addr == a)
    ensures a in states[j].pool.down
  {
    hide Step, UnderWay;
    if j > i {
      StaysDown(origins, states, ops, i, j - 1, a);
      StepAt(origins, states[j - 1], ops[j - 1], states[j], a);
    }
  }

  /** So no pick, disturbed or not, gets past its mark, however the timer stands and whatever succeeds meanwhile. */
  lemma {:induction false} FailedIsNotPicked(origins: seq<Addr>, states: seq<Shared>, ops: seq<Op>, i: nat, j: nat,
                                             a: Addr)
    requires IsRun(origins, states, ops) && i < j < |ops| && ops[i].Marks? && Holds(states[i], ops[i].t, Marking(a))
    requires forall k :: i < k < j ==> !(ops[k].Unmarks? && ops[k].addr == a)
    ensures ops[j].Picks? ==> ops[j].picked != Some(a)
    ensures ops[j].Looks? ==> ops[j].addr != a
  {
    assert Step(origins, states[i], ops[i], states[i + 1]) && Step(origins, states[j], ops[j], states[j + 1]);
    StaysDown(origins, states, ops, i + 1, j, a);
  }

  function TimeOf(op: Op): Option<real> {
    if op.Picks? then Some(op.now) else if op.Sends? || op.Opens? then Some(op.at) else None
  }

  ghost predicate ClockRuns(ops: seq<Op>) {
    forall i, j :: 0 <= i < j < |ops| && TimeOf(ops[i]).Some? && TimeOf(ops[j]).Some? ==>
                     TimeOf(ops[i]).value <= TimeOf(ops[j]).value
  }

  /** Before it is marked, and whatever is unmarked, an open circuit keeps picks away for its five seconds. */
  lemma {:induction false} CircuitHolds(origins: seq<Addr>, states: seq<Shared>, ops: seq<Op>, i: nat, j: nat, a: Addr)
    requires IsRun(origins, states, ops) && ClockRuns(ops) && i < j < |states| && ops[i].Opens? && ops[i].addr == a
    requires CircuitOf(states[i].pool.circuits, a).failures + 1 < U32_LIMIT
    requires forall k :: i < k < j ==> !ClosesAt(states[k], ops[k], a)
    ensures var since := CircuitOf(states[j].pool.circuits, a).openedAt; since.Some? && since.value >= ops[i].at
  {
    hide UnderWay, ClosesAt;
    if j == i + 1 {
      assert Step(origins, states[i], ops[i], states[j]);
    } else {
      hide Step;
      CircuitHolds(origins, states, ops, i, j - 1, a);
      StepAt(origins, states[j - 1], ops[j - 1], states[j], a);
      assert ops[j - 1].Opens? ==> TimeOf(ops[i]).value <= TimeOf(ops[j - 1]).value;
    }
  }

  lemma {:induction false} OpenIsNotPicked(origins: seq<Addr>, states: seq<Shared>, ops: seq<Op>, i: nat, j: nat,
                                           a: Addr)
    requires IsRun(origins, states, ops) && ClockRuns(ops) && i < j < |ops| && ops[i].Opens? && ops[i].addr == a
    requires CircuitOf(states[i].pool.circuits, a).failures + 1 < U32_LIMIT
    requires forall k :: i < k < j ==> !ClosesAt(states[k], ops[k], a)
    ensures ops[j].Picks? && ops[j].picked == Some(a) ==> ops[j].now - ops[i].at >= 5.0
    ensures ops[j].Sends? && Holds(states[j], ops[j].t, Looking(a)) && ops[j].sent ==>
              ops[j].at - ops[i].at >= 5.0
  {
    CircuitHolds(origins, states, ops, i, j, a);
    assert Step(origins, states[j], ops[j], states[j + 1]);
    if ops[j].Picks? {
      PickedCircuit(origins, states[j], ops[j], states[j + 1], a);
    }
  }

  /** What a circuit answers: a closed one yes, an open one after five seconds, once, until the probe is answered. */
  lemma {:induction false} CircuitAnswers(origins: seq<Addr>, s: Shared, op: Op, s': Shared, a: Addr)
    requires op.Sends? && Step(origins, s, op, s') && Holds(s, op.t, Looking(a))
    ensures var c, c' := CircuitOf(s.pool.circuits, a), CircuitOf(s'.pool.circuits, a);
            match c.openedAt
            case None => op.sent && c' == c
            case Some(since) =>
              && (op.sent <==> op.at >= since + 5.0 && !c.probing)
              && c' == Circuit(c.failures, Some(since), c.probing || op.sent)
  {}

  ghost predicate Probes(s: Shared, op: Op, a: Addr) {
    && IsOpen(s, a)
    && ((op.Picks? && op.picked == Some(a)) || (op.Sends? && op.sent && Holds(s, op.t, Looking(a))))
  }

  /** One probe at a time: between two of them the circuit was closed, or the first one failed. */
  lemma {:induction false} OneProbeAtATime(origins: seq<Addr>, states: seq<Shared>, ops: seq<Op>, i: nat, j: nat,
                                           a: Addr)
    requires IsRun(origins, states, ops) && i < j < |ops|
    requires Probes(states[i], ops[i], a) && Probes(states[j], ops[j], a)
    ensures exists k :: i < k < j && (ClosesAt(states[k], ops[k], a) || (ops[k].Opens? && ops[k].addr == a))
  {
    if forall k :: i < k < j ==> !ClosesAt(states[k], ops[k], a) && !(ops[k].Opens? && ops[k].addr == a) {
      ProbeLasts(origins, states, ops, i, j, a);
      assert Step(origins, states[j], ops[j], states[j + 1]);
      if ops[j].Picks? {
        PickedCircuit(origins, states[j], ops[j], states[j + 1], a);
      }
      assert false;
    }
  }

  lemma {:induction false} ProbeLasts(origins: seq<Addr>, states: seq<Shared>, ops: seq<Op>, i: nat, j: nat, a: Addr)
    requires IsRun(origins, states, ops) && i < j < |states| && Probes(states[i], ops[i], a)
    requires forall k :: i < k < j ==> !ClosesAt(states[k], ops[k], a) && !(ops[k].Opens? && ops[k].addr == a)
    ensures var c := CircuitOf(states[j].pool.circuits, a); c.openedAt.Some? && c.probing
  {
    hide UnderWay, ClosesAt;
    if j == i + 1 {
      assert Step(origins, states[i], ops[i], states[j]);
      if ops[i].Picks? {
        PickedCircuit(origins, states[i], ops[i], states[j], a);
      }
    } else {
      hide Step;
      ProbeLasts(origins, states, ops, i, j - 1, a);
      StepAt(origins, states[j - 1], ops[j - 1], states[j], a);
    }
  }

  /** A failure answers the probe: if nothing else happens to the circuit the next one goes out five seconds later. */
  lemma {:induction false} FailureFreesTheProbe(origins: seq<Addr>, states: seq<Shared>, ops: seq<Op>, i: nat, j: nat,
                                                a: Addr)
    requires IsRun(origins, states, ops) && i < j < |ops| && ops[i].Opens? && ops[i].addr == a
    requires forall k :: i < k < j ==>
               !ClosesAt(states[k], ops[k], a) && !(ops[k].Opens? && ops[k].addr == a) && !Probes(states[k], ops[k], a)
    requires ops[j].Sends? && Holds(states[j], ops[j].t, Looking(a))
    requires CircuitOf(states[i].pool.circuits, a).failures < 0xFFFF_FFFF
    ensures ops[j].sent <==> ops[j].at >= ops[i].at + 5.0
  {
    hide ClosesAt, Probes, Holds, UnderWay;
    FailureLasts(origins, states, ops, i, j, a);
    assert Step(origins, states[j], ops[j], states[j + 1]);
    CircuitAnswers(origins, states[j], ops[j], states[j + 1], a);
  }

  lemma {:induction false} FailureLasts(origins: seq<Addr>, states: seq<Shared>, ops: seq<Op>, i: nat, j: nat, a: Addr)
    requires IsRun(origins, states, ops) && i < j < |states| && ops[i].Opens? && ops[i].addr == a
    requires CircuitOf(states[i].pool.circuits, a).failures < 0xFFFF_FFFF
    requires forall k :: i < k < j ==>
               !ClosesAt(states[k], ops[k], a) && !(ops[k].Opens? && ops[k].addr == a) && !Probes(states[k], ops[k], a)
    ensures var c := CircuitOf(states[j].pool.circuits, a); c.openedAt == Some(ops[i].at) && !c.probing
  {
    hide UnderWay, ClosesAt, Probes;
    if j == i + 1 {
      assert Step(origins, states[i], ops[i], states[j]);
    } else {
      hide Step;
      FailureLasts(origins, states, ops, i, j - 1, a);
      UntouchedAt(origins, states[j - 1], ops[j - 1], states[j], a);
    }
  }

  lemma {:induction false} UntouchedAt(origins: seq<Addr>, s: Shared, op: Op, s': Shared, a: Addr)
    requires Step(origins, s, op, s')
    requires !ClosesAt(s, op, a) && !(op.Opens? && op.addr == a) && !Probes(s, op, a)
    ensures CircuitOf(s'.pool.circuits, a) == CircuitOf(s.pool.circuits, a)
  {
    if op.Picks? {
      PickedCircuit(origins, s, op, s', a);
    }
  }

  /** Away from updates nothing but the marks decides: an origin is ready exactly when it is untried and not down. */
  lemma {:induction false} ReadyMeansUp(origins: seq<Addr>, states: seq<Shared>, ops: seq<Op>, k: nat, a: Addr,
                                        tried: seq<Addr>, now: real)
    requires IsRun(origins, states, ops) && k < |states| && !UnderWay(states[k], a)
    ensures Ready(states[k].pool, a, tried, now) <==> a !in tried && a !in states[k].pool.down
  {
    hide UnderWay, IsRun;
    RunIsGuarded(origins, states, ops, k);
    assert GuardedAt(states[k], a);
  }

  // ----- progress ------------------------------------------------------------------------------------------------

  ghost predicate SomeReady(origins: seq<Addr>, pool: Pool, tried: seq<Addr>, now: real) {
    exists x :: 0 <= x < |origins| && Ready(pool, origins[x], tried, now)
  }

  predicate AllowsTraffic(c: Circuit, now: real) {
    c.openedAt.None? || now - c.openedAt.value >= CIRCUIT_OPEN_FOR
  }

  predicate MayServe(pool: Pool, a: Addr, now: real) {
    a !in pool.down && AllowsTraffic(CircuitOf(pool.circuits, a), now)
  }

  predicate HasReady(origins: seq<Addr>, pool: Pool, now: real) {
    exists x :: 0 <= x < |origins| && MayServe(pool, origins[x], now)
  }

  /**
   * The readiness question ignores claimed probes. What a first pick finds it answers all the same, unless an
   * origin that is being updated has a claimed probe; and it never denies what a pick finds.
   */
  lemma {:induction false} HasReadyForecastsPick(origins: seq<Addr>, states: seq<Shared>, ops: seq<Op>, k: nat,
                                                 now: real)
    requires IsRun(origins, states, ops) && k < |states|
    ensures SomeReady(origins, states[k].pool, [], now) ==> HasReady(origins, states[k].pool, now)
    ensures HasReady(origins, states[k].pool, now) ==>
              || SomeReady(origins, states[k].pool, [], now)
              || exists x :: 0 <= x < |origins| && UnderWay(states[k], origins[x]) &&
                             CircuitOf(states[k].pool.circuits, origins[x]).probing
  {
    hide IsRun, UnderWay;
    var s := states[k];
    RunIsGuarded(origins, states, ops, k);
    if HasReady(origins, s.pool, now) {
      var x :| 0 <= x < |origins| && MayServe(s.pool, origins[x], now);
      assert GuardedAt(s, origins[x]);
      assert Ready(s.pool, origins[x], [], now) || CircuitOf(s.pool.circuits, origins[x]).probing;
    }
    if SomeReady(origins, s.pool, [], now) {
      var x :| 0 <= x < |origins| && Ready(s.pool, origins[x], [], now);
      assert MayServe(s.pool, origins[x], now);
    }
  }

  /** A pick finds an origin exactly when one is ready, unless the sum of cursor and offset wraps in between. */
  lemma {:induction false} PickFindsReady(origins: seq<Addr>, before: Pool, tried: seq<Addr>, now: real,
                                          picked: Option<Addr>, after: Pool)
    requires PickStep(origins, before, tried, now, picked, after)
    requires before.cursor < USIZE_LIMIT && |origins| <= USIZE_LIMIT
    requires origins != [] ==> before.cursor + |origins| <= USIZE_LIMIT || USIZE_LIMIT % |origins| == 0
    ensures picked.Some? <==> SomeReady(origins, before, tried, now)
  {
    var n := |origins|;
    var offset :| PicksFirst(origins, before, tried, now, picked, offset);
    if picked.Some? {
      assert Ready(before, origins[Index(before.cursor, offset, n)], tried, now);
    } else if SomeReady(origins, before, tried, now) {
      var x :| 0 <= x < n && Ready(before, origins[x], tried, now);
      ReachesAll(before.cursor, n, x);
      assert false;
    }
  }

  /** The state after origin 0 has failed and `cursor` picks have found nothing untried. */
  ghost function Worn(cursor: nat): Shared { Shared(Pool(map[0 := Failed(CLOSED, 0.0)], {0}, cursor), map[]) }

  ghost function WornAt(k: nat): Shared {
    if k == 0 then Shared(EMPTY_POOL, map[])
    else if k == 1 then Shared(Opened(EMPTY_POOL, 0, 0.0), map[0 := Marking(0)])
    else Worn(k - 2)
  }

  ghost function WearAt(k: nat): Op {
    if k == 0 then Opens(0, 0, 0.0) else if k == 1 then Marks(0) else Picks([0, 1], 0.0, None)
  }

  lemma {:induction false} WearStep(origins: seq<Addr>, k: nat)
    requires origins != [] && k <= USIZE_LIMIT
    requires forall x :: 0 <= x < |origins| ==> origins[x] == 0 || origins[x] == 1
    ensures Step(origins, WornAt(k), WearAt(k), WornAt(k + 1))
  {
    if k > 1 {
      assert PicksFirst(origins, Worn(k - 2).pool, [0, 1], 0.0, None, |origins|);
      NothingChanged(Worn(k - 2).pool.circuits);
    } else if k == 1 {
      assert WornAt(1).threads - {0} == map[];
    }
  }

  /**
   * Whenever it does wrap badly, there is a run that leads there, through as many picks as the cursor counts,
   * and ends with a pick that finds none although one origin is ready.
   */
  lemma {:induction false} WrapCanMissReady(n: nat, cursor: nat)
    returns (origins: seq<Addr>, states: seq<Shared>, ops: seq<Op>)
    requires 0 < n <= USIZE_LIMIT && cursor < USIZE_LIMIT && cursor + n > USIZE_LIMIT && USIZE_LIMIT % n != 0
    ensures |origins| == n && IsRun(origins, states, ops) && ops != []
    ensures var before, last := states[|ops| - 1].pool, ops[|ops| - 1];
            before.cursor == cursor && last == Picks([], 0.0, None) && SomeReady(origins, before, [], 0.0)
  {
    hide Index;
    var x := WrapSkips(cursor, n);
    origins := seq(n, i => if i == x then 1 else 0);
    var before := Worn(cursor);
    assert Ready(before.pool, origins[x], [], 0.0);
    assert PicksFirst(origins, before.pool, [], 0.0, None, n);
    NothingChanged(before.pool.circuits);
    var last := Picks([], 0.0, None);
    var after := before.(pool := before.pool.(cursor := (cursor + 1) % USIZE_LIMIT));
    assert Step(origins, before, last, after);
    states := seq(cursor + 3, k requires 0 <= k => WornAt(k)) + [after];
    ops := seq(cursor + 2, k requires 0 <= k => WearAt(k)) + [last];
    hide Step, PicksFirst, Ready;
    forall k | 0 <= k < |ops| ensures Step(origins, states[k], ops[k], states[k + 1]) {
      if k < cursor + 2 {
        WearStep(origins, k);
      }
    }
  }

  lemma {:induction false} PickKeepsDown(origins: seq<Addr>, s: Shared, op: Op, s': Shared)
    requires op.Picks? && origins != [] && Step(origins, s, op, s') && s.pool.cursor + 1 < USIZE_LIMIT
    ensures s'.pool.down == s.pool.down && s'.pool.cursor == s.pool.cursor + 1 && s'.threads == s.threads
  {}

  lemma {:induction false} FirstReadyIsPicked(origins: seq<Addr>, s: Shared, op: Op, s': Shared)
    requires op.Picks? && 0 < |origins| <= USIZE_LIMIT && Step(origins, s, op, s') && s.pool.cursor < USIZE_LIMIT
    requires Ready(s.pool, origins[s.pool.cursor % |origins|], op.tried, op.now)
    ensures op.picked == Some(origins[s.pool.cursor % |origins|])
  {
    hide Ready, SameCircuits, Index;
    IndexIs(s.pool.cursor, 0, |origins|);
    var offset :| PicksFirst(origins, s.pool, op.tried, op.now, op.picked, offset);
    assert offset == 0;
  }

  ghost predicate Quiet(origins: seq<Addr>, s: Shared) {
    forall x :: 0 <= x < |origins| ==> origins[x] !in s.pool.down && !UnderWay(s, origins[x])
  }

  /** As many picks as there are origins, from a point where every origin is up and none is being updated. */
  ghost predicate IsRound(origins: seq<Addr>, states: seq<Shared>, ops: seq<Op>, k: nat) {
    && IsRun(origins, states, ops) && k + |origins| <= |ops|
    && (forall i :: k <= i < k + |origins| ==> ops[i].Picks? && ops[i].tried == [])
    && Quiet(origins, states[k]) && states[k].pool.cursor + |origins| <= USIZE_LIMIT
  }

  /** Pick after pick goes round the origins. */
  lemma {:induction false} PicksGoRound(origins: seq<Addr>, states: seq<Shared>, ops: seq<Op>, k: nat, j: nat)
    requires IsRound(origins, states, ops, k) && j < |origins|
    ensures Quiet(origins, states[k + j]) && states[k + j].pool.cursor == states[k].pool.cursor + j
    ensures ops[k + j].picked == Some(origins[(states[k].pool.cursor + j) % |origins|])
  {
    hide Step, Ready, UnderWay;
    if j > 0 {
      PicksGoRound(origins, states, ops, k, j - 1);
      PickKeepsDown(origins, states[k + j - 1], ops[k + j - 1], states[k + j]);
      SameThreads(origins, states[k + j - 1], states[k + j]);
    }
    var s, op := states[k + j], ops[k + j];
    var first := origins[s.pool.cursor % |origins|];
    ReadyMeansUp(origins, states, ops, k + j, first, [], op.now);
    FirstReadyIsPicked(origins, s, op, states[k + j + 1]);
  }

  lemma {:induction false} SameThreads(origins: seq<Addr>, s: Shared, s': Shared)
    requires Quiet(origins, s) && s'.threads == s.threads && s'.pool.down == s.pool.down
    ensures Quiet(origins, s')
  {
    forall x | 0 <= x < |origins| ensures !UnderWay(s', origins[x]) {
      assert !UnderWay(s, origins[x]);
    }
  }

  /** The places of n successive picks are all different. */
  lemma {:induction false} RoundsDoNotRepeat(cursor: nat, i: nat, j: nat, n: nat)
    requires i < n && j < n && (cursor + i) % n == (cursor + j) % n
    ensures i == j
  {
    if i < j {
      ModAdd(cursor + i, j - i, n);
    } else {
      ModAdd(cursor + j, i - j, n);
    }
  }

  ghost predicate Distinct(origins: seq<Addr>) {
    forall y, z :: 0 <= y < z < |origins| ==> origins[y] != origins[z]
  }

  /** So a round returns every origin, and different ones each at exactly one of its picks. */
  lemma {:induction false} RoundReturnsEachOnce(origins: seq<Addr>, states: seq<Shared>, ops: seq<Op>, k: nat, x: nat)
    returns (j: nat)
    requires IsRound(origins, states, ops, k) && x < |origins|
    ensures k <= j < k + |origins| && ops[j].picked == Some(origins[x])
    ensures Distinct(origins) ==>
              forall i :: k <= i < k + |origins| && ops[i].picked == Some(origins[x]) ==> i == j
  {
    hide Step, Quiet;
    var n, cursor := |origins|, states[k].pool.cursor;
    var place := PlaceInRound(cursor, n, x);
    PicksGoRound(origins, states, ops, k, place);
    j := k + place;
    if Distinct(origins) {
      forall i | k <= i < k + n && ops[i].picked == Some(origins[x]) ensures i == j {
        PicksGoRound(origins, states, ops, k, i - k);
        assert (cursor + (i - k)) % n == x;
        RoundsDoNotRepeat(cursor, i - k, place, n);
      }
    }
  }

  lemma {:induction false} PlaceInRound(cursor: nat, n: nat, x: nat) returns (j: nat)
    requires x < n
    ensures j < n && (cursor + j) % n == x
  {
    var r := cursor % n;
    j := if x >= r then x - r else x + n - r;
    ModAdd(cursor, j, n);
  }

  // ----- the operations of a pool that one thread uses --------------------------------------------------------------

  class SitePool {
    var circuits: map<Addr, Circuit>
    var down: set<Addr>
    var cursor: nat

    ghost function View(): Pool
      reads this
    {
      Pool(circuits, down, cursor)
    }

    constructor ()
      ensures View() == EMPTY_POOL && Guarded(Shared(View(), map[]))
    {
      circuits, down, cursor := map[], {}, 0;
    }

    /** The step of a pick that asks a circuit. */
    method CanSend(a: Addr, now: real) returns (ok: bool)
      modifies `circuits
      ensures ok == Sendable(CircuitOf(old(circuits), a), now) && View() == Asked(old(View()), a, now)
    {
      var c := CircuitOf(circuits, a);
      ok := Sendable(c, now);
      circuits := circuits[a := if ok then Claimed(c) else c];
    }

    method Pick(origins: seq<Addr>, tried: seq<Addr>, now: real) returns (picked: Option<Addr>)
      modifies `circuits, `cursor
      ensures PickStep(origins, old(View()), tried, now, picked, View())
    {
      hide SameCircuits, CircuitOf, Index, Claimed, Sendable;
      ghost var before := View();
      var n := |origins|;
      if n == 0 {
        assert PicksFirst(origins, before, tried, now, None, 0);
        NothingChanged(circuits);
        return None;
      }
      var start := cursor;
      cursor := (cursor + 1) % USIZE_LIMIT;
      NothingChanged(circuits);
      var i := 0;
      while i < n
        invariant 0 <= i <= n && cursor == (start + 1) % USIZE_LIMIT && SameCircuits(before.circuits, circuits)
        invariant NoneReady(origins, before, tried, now, i)
      {
        var origin := origins[Index(start, i, n)];
        if origin !in tried && origin !in down {
          ghost var c := CircuitOf(circuits, origin);
          UpdateKeepsSame(before.circuits, circuits, origin, c);
          UpdateKeepsSame(before.circuits, circuits, origin, Claimed(c));
          var ok := CanSend(origin, now);
          if ok {
            assert PicksFirst(origins, before, tried, now, Some(origin), i);
            assert SameCircuits(before.circuits[origin := Claimed(CircuitOf(before.circuits, origin))], circuits);
            return Some(origin);
          }
        }
        i := i + 1;
      }
      assert PicksFirst(origins, before, tried, now, None, n);
      return None;
    }

    method RecordSuccess(a: Addr)
      modifies `circuits
      ensures View() == Closed(old(View()), a)
      ensures forall origins, threads ::
                Step(origins, Shared(old(View()), threads), Succeeds(a), Shared(View(), threads))
    {
      circuits := circuits[a := CLOSED];
    }

    /** The two steps of a failure; what holds between them is a state in which the origin is being updated. */
    method RecordFailure(a: Addr, now: real)
      modifies `circuits, `down
      ensures View() == Marked(Opened(old(View()), a, now), a)
      ensures forall origins, t: Thread, threads :: t !in threads ==>
                TwoSteps(origins, Shared(old(View()), threads), Opens(t, a, now), Marks(t), Shared(View(), threads))
    {
      ghost var before := View();
      circuits := circuits[a := Failed(CircuitOf(circuits, a), now)];
      down := down + {a};
      forall origins, t: Thread, threads | t !in threads
        ensures TwoSteps(origins, Shared(before, threads), Opens(t, a, now), Marks(t), Shared(View(), threads))
      {
        FailureIsTwoSteps(origins, before, threads, t, a, now);
      }
    }

    /** The two steps of a health check that succeeds, or the one of one that fails. */
    method Check(a: Addr, healthy: bool)
      modifies `circuits, `down
      ensures View() == if healthy then Closed(Unmarked(old(View()), a), a) else Marked(old(View()), a)
      ensures healthy ==> forall origins, t: Thread, threads :: t !in threads ==>
                TwoSteps(origins, Shared(old(View()), threads), Unmarks(t, a), Closes(t), Shared(View(), threads))
      ensures !healthy ==> forall origins, threads ::
                Step(origins, Shared(old(View()), threads), MarksDown(a), Shared(View(), threads))
    {
      ghost var before := View();
      if healthy {
        down := down - {a};
        circuits := circuits[a := CLOSED];
        forall origins, t: Thread, threads | t !in threads
          ensures TwoSteps(origins, Shared(before, threads), Unmarks(t, a), Closes(t), Shared(View(), threads))
        {
          CheckIsTwoSteps(origins, before, threads, t, a);
        }
      } else {
        down := down + {a};
      }
    }
  }

  ghost predicate TwoSteps(origins: seq<Addr>, s: Shared, first: Op, second: Op, s': Shared) {
    exists between :: Step(origins, s, first, between) && Step(origins, between, second, s')
  }

  lemma {:induction false} FailureIsTwoSteps(origins: seq<Addr>, pool: Pool, threads: map<Thread, Busy>, t: Thread,
                                             a: Addr, now: real)
    requires t !in threads
    ensures TwoSteps(origins, Shared(pool, threads), Opens(t, a, now), Marks(t),
                     Shared(Marked(Opened(pool, a, now), a), threads))
  {
    var between := Shared(Opened(pool, a, now), threads[t := Marking(a)]);
    assert between.threads - {t} == threads;
    assert Step(origins, Shared(pool, threads), Opens(t, a, now), between);
  }

  lemma {:induction false} CheckIsTwoSteps(origins: seq<Addr>, pool: Pool, threads: map<Thread, Busy>, t: Thread,
                                           a: Addr)
    requires t !in threads
    ensures TwoSteps(origins, Shared(pool, threads), Unmarks(t, a), Closes(t),
                     Shared(Closed(Unmarked(pool, a), a), threads))
  {
    var between := Shared(Unmarked(pool, a), threads[t := Closing(a)]);
    assert between.threads - {t} == threads;
    assert Step(origins, Shared(pool, threads), Unmarks(t, a), between);
  }
}
