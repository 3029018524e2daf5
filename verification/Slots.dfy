/**
 * The connection slots of src/connection.rs: an atomic counter and a map of pending reservations,
 * shared by threads. The interleaved steps are what each thread does between two points where others
 * can intervene; the class below is the same protocol run by one thread at a time.
 */
module Slots {
  import opened Wrappers

  type Addr = nat
  type Thread = nat

  const USIZE_MAX: nat := 0xFFFF_FFFF_FFFF_FFFF
  const PENDING_TTL: int := 65

  /** `fetch_sub(1)`, which wraps around below zero. */
  function FetchSub(n: nat): nat { if n == 0 then USIZE_MAX else n - 1 }

  // ----- interleaved steps ----------------------------------------------------------------------------

  /** Where a thread stands that has raised the counter and not yet settled what for. */
  datatype Busy = Reserving(addr: Addr) | Duplicate | Acquired

  datatype State = State(current: nat, pending: map<Addr, int>, guards: nat, threads: map<Thread, Busy>)

  datatype Step =
    | CountReservation(t: Thread, addr: Addr)  // reserve_pending: increment
    | InsertReservation(t: Thread, now: int)   // reserve_pending: insert
    | ReleaseDuplicate(t: Thread)              // reserve_pending: the address was already there
    | Evict(addr: Addr, now: int)              // evict_expired_pending, one entry
    | TakeReservation(addr: Addr)              // activate: remove
    | CountConnection(t: Thread)               // acquire: increment
    | MakeGuard(t: Thread)                     // acquire: the guard
    | DropGuard

  const START := State(0, map[], 0, map[])

  ghost predicate Enabled(max: nat, s: State, step: Step) {
    match step
    case CountReservation(t, _) => t !in s.threads && s.current < max
    case InsertReservation(t, _) => t in s.threads && s.threads[t].Reserving?
    case ReleaseDuplicate(t) => t in s.threads && s.threads[t].Duplicate?
    case Evict(addr, now) => addr in s.pending && now - s.pending[addr] >= PENDING_TTL
    case TakeReservation(addr) => addr in s.pending
    case CountConnection(t) => t !in s.threads && s.current < max
    case MakeGuard(t) => t in s.threads && s.threads[t].Acquired?
    case DropGuard => s.guards > 0
  }

  ghost function Next(max: nat, s: State, step: Step): State
    requires Enabled(max, s, step)
  {
    match step
    case CountReservation(t, addr) => s.(current := s.current + 1, threads := s.threads[t := Reserving(addr)])
    case InsertReservation(t, now) =>
      var addr := s.threads[t].addr;
      s.(pending := s.pending[addr := now],
         threads := if addr in s.pending then s.threads[t := Duplicate] else s.threads - {t})
    case ReleaseDuplicate(t) => s.(current := FetchSub(s.current), threads := s.threads - {t})
    case Evict(addr, _) => s.(current := FetchSub(s.current), pending := s.pending - {addr})
    case TakeReservation(addr) => s.(pending := s.pending - {addr}, guards := s.guards + 1)
    case CountConnection(t) => s.(current := s.current + 1, threads := s.threads[t := Acquired])
    case MakeGuard(t) => s.(guards := s.guards + 1, threads := s.threads - {t})
    case DropGuard => s.(current := FetchSub(s.current), guards := s.guards - 1)
  }

  ghost predicate IsRun(max: nat, states: seq<State>, steps: seq<Step>) {
    && |states| == |steps| + 1 && states[0] == START
    && forall i :: 0 <= i < |steps| ==>
        Enabled(max, states[i], steps[i]) && states[i + 1] == Next(max, states[i], steps[i])
  }

  /** Every unit of the counter is a reservation, a guard or a thread about to settle one. */
  ghost predicate Conserved(max: nat, s: State) {
    s.current == |s.pending| + s.guards + |s.threads| <= max
  }

  lemma {:induction false} MapSizes<K, V>(m: map<K, V>, k: K, v: V)
    ensures |m[k := v]| == if k in m then |m| else |m| + 1
    ensures |m - {k}| == if k in m then |m| - 1 else |m|
  {
    assert m[k := v].Keys == m.Keys + {k};
    assert (m - {k}).Keys == m.Keys - {k};
    assert |m[k := v]| == |m[k := v].Keys| && |m - {k}| == |(m - {k}).Keys|;
  }

  lemma {:induction false} InsertConserves(max: nat, s: State, t: Thread, now: int)
    requires Enabled(max, s, InsertReservation(t, now)) && Conserved(max, s)
    ensures Conserved(max, Next(max, s, InsertReservation(t, now)))
  {
    MapSizes(s.threads, t, Duplicate);
    MapSizes(s.pending, s.threads[t].addr, now);
  }

  lemma {:induction false} StepConserves(max: nat, s: State, step: Step)
    requires Enabled(max, s, step) && Conserved(max, s)
    ensures Conserved(max, Next(max, s, step))
  {
    match step
    case CountReservation(t, addr) => MapSizes(s.threads, t, Reserving(addr));
    case InsertReservation(t, now) => InsertConserves(max, s, t, now);
    case ReleaseDuplicate(t) => MapSizes(s.threads, t, Duplicate);
    case Evict(addr, now) => MapSizes(s.pending, addr, now);
    case TakeReservation(addr) => MapSizes(s.pending, addr, 0);
    case CountConnection(t) => MapSizes(s.threads, t, Acquired);
    case MakeGuard(t) => MapSizes(s.threads, t, Acquired);
    case DropGuard =>
  }

  /**
   * In every interleaving, at every point: the slots add up and stay within the maximum, so admitted
   * connections do; the counter never wraps around; and it is back at zero once nothing is held.
   */
  lemma {:induction false} SlotsAreConserved(max: nat, states: seq<State>, steps: seq<Step>)
    requires IsRun(max, states, steps)
    ensures forall i :: 0 <= i < |states| ==>
              && Conserved(max, states[i]) && |states[i].pending| + states[i].guards <= max
              && (states[i].pending == map[] && states[i].guards == 0 && states[i].threads == map[] ==>
                  states[i].current == 0)
    ensures forall i :: 0 <= i < |steps| && (steps[i].ReleaseDuplicate? || steps[i].Evict? || steps[i].DropGuard?) ==>
              states[i + 1].current == states[i].current - 1
  {
    var n := 0;
    while n < |steps|
      invariant 0 <= n <= |steps| && forall i :: 0 <= i <= n ==> Conserved(max, states[i])
    {
      StepConserves(max, states[n], steps[n]);
      n := n + 1;
    }
    forall i | 0 <= i < |steps| && (steps[i].ReleaseDuplicate? || steps[i].Evict? || steps[i].DropGuard?)
      ensures states[i + 1].current == states[i].current - 1
    {
      StepConserves(max, states[i], steps[i]);
      assert states[i].current > 0 by {
        if steps[i].ReleaseDuplicate? {
          assert steps[i].t in states[i].threads;
        } else if steps[i].Evict? {
          assert steps[i].addr in states[i].pending;
        }
      }
    }
  }

  /** The reservations that have not expired. */
  function Live(pending: map<Addr, int>, now: int): map<Addr, int> {
    map a | a in pending && now - pending[a] < PENDING_TTL :: pending[a]
  }

  // ----- one thread at a time ---------------------------------------------------------------------------

  /** These steps lead from one state to the other, each of them enabled when it is taken. */
  ghost predicate Leads(max: nat, s: State, steps: seq<Step>, s': State) {
    if steps == [] then s' == s
    else
      var n := |steps| - 1;
      exists mid :: Leads(max, s, steps[..n], mid) && Enabled(max, mid, steps[n]) && s' == Next(max, mid, steps[n])
  }

  lemma {:induction false} OneMore(max: nat, s: State, steps: seq<Step>, mid: State, step: Step)
    requires Leads(max, s, steps, mid) && Enabled(max, mid, step)
    ensures Leads(max, s, steps + [step], Next(max, mid, step))
  {
    hide Enabled, Next;
    assert (steps + [step])[..|steps|] == steps;
  }

  ghost function Idle(current: nat, pending: map<Addr, int>, guards: nat): State {
    State(current, pending, guards, map[])
  }

  lemma {:induction false} EvictStep(max: nat, s: State, steps: seq<Step>, mid: State, a: Addr, now: int)
    requires Leads(max, s, steps, mid) && a in mid.pending && now - mid.pending[a] >= PENDING_TTL
    ensures Leads(max, s, steps + [Evict(a, now)],
                  mid.(current := FetchSub(mid.current), pending := mid.pending - {a}))
  {
    hide Leads;
    OneMore(max, s, steps, mid, Evict(a, now));
  }

  /** What reserving does when a slot is free: count, insert, and give the slot back if the address was there. */
  lemma {:induction false} ReserveSteps(max: nat, s: State, steps: seq<Step>, mid: State, a: Addr, now: int)
    returns (longer: seq<Step>)
    requires Leads(max, s, steps, mid) && mid.threads == map[] && mid.current < max
    ensures Leads(max, s, longer, Idle(if a in mid.pending then mid.current else mid.current + 1, mid.pending[a := now],
                                       mid.guards))
  {
    hide Leads;
    var count, insert, release := CountReservation(0, a), InsertReservation(0, now), ReleaseDuplicate(0);
    OneMore(max, s, steps, mid, count);
    var mid1 := Next(max, mid, count);
    assert mid1.threads == map[0 := Reserving(a)];
    OneMore(max, s, steps + [count], mid1, insert);
    var mid2 := Next(max, mid1, insert);
    longer := steps + [count] + [insert];
    if a in mid.pending {
      OneMore(max, s, longer, mid2, release);
      longer := longer + [release];
      assert mid2.threads - {0} == map[];
    } else {
      assert mid1.threads - {0} == map[];
    }
  }

  /** What activating does: take the reservation over, or count the connection and make its guard. */
  lemma {:induction false} ActivateSteps(max: nat, s: State, steps: seq<Step>, mid: State, addr: Option<Addr>)
    returns (longer: seq<Step>)
    requires Leads(max, s, steps, mid) && mid.threads == map[]
    requires (addr.Some? && addr.value in mid.pending) || mid.current < max
    ensures Leads(max, s, longer,
                  if addr.Some? && addr.value in mid.pending
                  then Idle(mid.current, mid.pending - {addr.value}, mid.guards + 1)
                  else Idle(mid.current + 1, mid.pending, mid.guards + 1))
  {
    hide Leads;
    if addr.Some? && addr.value in mid.pending {
      OneMore(max, s, steps, mid, TakeReservation(addr.value));
      longer := steps + [TakeReservation(addr.value)];
    } else {
      OneMore(max, s, steps, mid, CountConnection(0));
      var mid1 := Next(max, mid, CountConnection(0));
      assert mid1.threads == map[0 := Acquired] && mid1.threads - {0} == map[];
      OneMore(max, s, steps + [CountConnection(0)], mid1, MakeGuard(0));
      longer := steps + [CountConnection(0)] + [MakeGuard(0)];
    }
  }

  /** Every method is a sequence of the steps above, taken by one thread without interruption. */
  class ActiveConnectionState {
    const max: nat
    var current: nat
    var pending: map<Addr, int>
    ghost var guards: nat

    constructor (max: nat)
      ensures Valid() && this.max == (if max < 1 then 1 else max) && View() == START
    {
      this.max, current, pending, guards := if max < 1 then 1 else max, 0, map[], 0;
    }

    ghost function View(): State reads this { Idle(current, pending, guards) }

    ghost predicate Valid() reads this { current == |pending| + guards <= max }

    method Increment() returns (ok: bool)
      requires current <= max
      modifies this`current
      ensures ok == (old(current) < max) && current == if ok then old(current) + 1 else old(current)
    {
      ok := current < max;
      if ok {
        current := current + 1;
      }
    }

    method EvictExpiredPending(now: int) returns (ghost steps: seq<Step>)
      requires Valid()
      modifies this`current, this`pending
      ensures Valid() && pending == Live(old(pending), now)
      ensures forall a :: a in pending <==> a in old(pending) && now - old(pending)[a] < 65
      ensures forall a :: a in pending ==> pending[a] == old(pending)[a]
      ensures Leads(max, old(View()), steps, View())
    {
      hide Leads;
      steps := [];
      NoSteps(max, View());
      var left := pending.Keys;
      while left != {}
        invariant Valid() && left <= pending.Keys <= old(pending).Keys
        invariant forall a :: a in pending ==> pending[a] == old(pending)[a]
        invariant forall a :: a in old(pending) && a !in left ==>
                                (a in pending <==> now - old(pending)[a] < PENDING_TTL)
        invariant Leads(max, old(View()), steps, View())
        decreases left
      {
        var a :| a in left;
        if now - pending[a] >= PENDING_TTL {
          MapSizes(pending, a, 0);
          EvictStep(max, old(View()), steps, View(), a, now);
          steps := steps + [Evict(a, now)];
          current := FetchSub(current);
          pending := pending - {a};
        }
        left := left - {a};
      }
    }

    /** Reserving the same address again succeeds and keeps one slot. */
    method ReservePending(addr: Addr, evictNow: int, now: int) returns (ok: bool, ghost steps: seq<Step>)
      requires Valid()
      modifies this`current, this`pending
      ensures Valid()
      ensures var live := Live(old(pending), evictNow);
              && ok == (|live| + guards < max)
              && pending == if ok then live[addr := now] else live
      ensures Leads(max, old(View()), steps, View())
    {
      hide Leads;
      steps := EvictExpiredPending(evictNow);
      ghost var mid := View();
      ok := Increment();
      if !ok {
        return;
      }
      steps := ReserveSteps(max, old(View()), steps, mid, addr, now);
      var again := addr in pending;
      MapSizes(pending, addr, now);
      pending := pending[addr := now];
      if again {
        current := FetchSub(current);
      }
    }

    /** A reservation becomes a guard at no cost; without one a slot must be free. */
    method Activate(addr: Option<Addr>, now: int) returns (guard: bool, ghost steps: seq<Step>)
      requires Valid()
      modifies this
      ensures Valid()
      ensures var live := Live(old(pending), now);
              var reserved := addr.Some? && addr.value in live;
              && guard == (reserved || |live| + old(guards) < max)
              && guards == old(guards) + (if guard then 1 else 0)
              && pending == if reserved then live - {addr.value} else live
      ensures Leads(max, old(View()), steps, View())
    {
      hide Leads;
      steps := EvictExpiredPending(now);
      ghost var mid := View();
      if (addr.Some? && addr.value in mid.pending) || mid.current < max {
        steps := ActivateSteps(max, old(View()), steps, mid, addr);
      }
      if addr.Some? && addr.value in pending {
        MapSizes(pending, addr.value, 0);
        pending := pending - {addr.value};
        guards := guards + 1;
        return true, steps;
      }
      guard := Increment();
      if guard {
        guards := guards + 1;
      }
    }

    method Drop() returns (ghost steps: seq<Step>)
      requires Valid() && guards > 0
      modifies this`current, this`guards
      ensures Valid() && guards == old(guards) - 1 && Leads(max, old(View()), steps, View())
    {
      hide Leads;
      NoSteps(max, View());
      OneMore(max, View(), [], View(), DropGuard);
      steps := [] + [DropGuard];
      current, guards := FetchSub(current), guards - 1;
    }
  }

  lemma {:induction false} NoSteps(max: nat, s: State)
    ensures Leads(max, s, [], s)
  {}
}
