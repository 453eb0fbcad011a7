/** The strictly monotonic clock: a compare-and-swap loop on one shared cell,
    run by any number of threads over wall clocks that may stand still or go
    back. */
module Clock {
  type Thread = nat

  /** Where a thread is in a call. `past` holds the calls that had returned when
      it began; `call` is the place of its own swap in the order of swaps. */
  datatype Phase =
    | Idle
    | Begun(now: int, past: set<nat>)
    | Loaded(now: int, past: set<nat>, last: int)
    | Swapped(call: nat)

  /** A successful swap: the value handed out, the wall clock the call read, and
      the calls that had returned when it began. */
  datatype Call = Call(value: int, now: int, past: set<nat>)

  /** The shared cell, the threads, the swaps in order and the calls that have
      returned. */
  datatype Shared = Shared(last: int, threads: map<Thread, Phase>, calls: seq<Call>, returned: set<nat>)

  datatype Step =
    | Begin(t: Thread, now: int)
    /** A relaxed load: any value the cell has held, not only the latest. */
    | Load(t: Thread, seen: int)
    | Swap(t: Thread)
    /** The cell changed, or the weak exchange failed without reason. */
    | Retry(t: Thread)
    | Return(t: Thread)

  function PhaseOf(s: Shared, t: Thread): Phase {
    if t in s.threads then s.threads[t] else Idle
  }

  function Tick(last: int, now: int): int {
    if now > last then now else last + 1
  }

  /** The cell after `n` swaps. */
  function Held(calls: seq<Call>, n: nat): int
    requires n <= |calls|
  {
    if n == 0 then 0 else calls[n - 1].value
  }

  ghost predicate Enabled(s: Shared, step: Step) {
    match step
    case Begin(t, _) => PhaseOf(s, t).Idle?
    case Load(t, seen) => PhaseOf(s, t).Begun? && exists n :: 0 <= n <= |s.calls| && Held(s.calls, n) == seen
    case Swap(t) => PhaseOf(s, t).Loaded? && PhaseOf(s, t).last == s.last
    case Retry(t) => PhaseOf(s, t).Loaded?
    case Return(t) => PhaseOf(s, t).Swapped?
  }

  ghost function Next(s: Shared, step: Step): Shared
    requires Enabled(s, step)
  {
    match step
    case Begin(t, now) => s.(threads := s.threads[t := Begun(now, s.returned)])
    case Load(t, seen) =>
      var p := PhaseOf(s, t);
      s.(threads := s.threads[t := Phase.Loaded(p.now, p.past, seen)])
    case Swap(t) =>
      var p := PhaseOf(s, t);
      var next := Tick(p.last, p.now);
      s.(last := next, threads := s.threads[t := Swapped(|s.calls|)], calls := s.calls + [Call(next, p.now, p.past)])
    case Retry(t) =>
      var p := PhaseOf(s, t);
      s.(threads := s.threads[t := Begun(p.now, p.past)])
    case Return(t) =>
      s.(threads := s.threads[t := Idle], returned := s.returned + {PhaseOf(s, t).call})
  }

  function Start(): Shared {
    Shared(0, map[], [], {})
  }

  ghost predicate Legal(s: Shared, steps: seq<Step>)
    decreases |steps|
  {
    steps == [] || (Enabled(s, steps[0]) && Legal(Next(s, steps[0]), steps[1..]))
  }

  ghost function End(s: Shared, steps: seq<Step>): Shared
    requires Legal(s, steps)
    decreases |steps|
  {
    if steps == [] then s else End(Next(s, steps[0]), steps[1..])
  }

  // ── The sequential clock ──────────────────────────────────────────────────

  /** The calls are those of one thread making them in this order. */
  ghost predicate Sequential(calls: seq<Call>) {
    forall n :: 0 <= n < |calls| ==> calls[n].value == Tick(Held(calls, n), calls[n].now)
  }

  /** A call that began after another returned swapped after it. */
  ghost predicate InRealTime(calls: seq<Call>) {
    forall n, m :: 0 <= n < |calls| && m in calls[n].past ==> m < n
  }

  ghost predicate PhaseOk(s: Shared, p: Phase) {
    match p
    case Idle => true
    case Begun(_, past) => past <= s.returned
    case Loaded(_, past, _) => past <= s.returned
    case Swapped(call) => call < |s.calls|
  }

  ghost predicate Inv(s: Shared) {
    && s.last == Held(s.calls, |s.calls|)
    && Sequential(s.calls) && InRealTime(s.calls)
    && (forall m :: m in s.returned ==> m < |s.calls|)
    && (forall t :: PhaseOk(s, PhaseOf(s, t)))
  }

  lemma SwapKeepsOrder(s: Shared, t: Thread)
    requires Inv(s) && Enabled(s, Swap(t))
    ensures var calls := Next(s, Swap(t)).calls; Sequential(calls) && InRealTime(calls)
  {
    var calls := Next(s, Swap(t)).calls;
    assert PhaseOk(s, PhaseOf(s, t));
    forall n | 0 <= n < |calls| ensures calls[n].value == Tick(Held(calls, n), calls[n].now) {
      if n < |s.calls| { assert calls[n] == s.calls[n] && Held(calls, n) == Held(s.calls, n); }
    }
  }

  lemma StepKeepsInv(s: Shared, step: Step)
    requires Inv(s) && Enabled(s, step)
    ensures Inv(Next(s, step))
  {
    var s' := Next(s, step);
    assert PhaseOk(s, PhaseOf(s, step.t));
    if step.Swap? { SwapKeepsOrder(s, step.t); }
    hide Sequential;
    hide InRealTime;
    forall t ensures PhaseOk(s', PhaseOf(s', t)) {
      assert PhaseOk(s, PhaseOf(s, t));
    }
  }

  lemma {:induction false} RunKeepsInv(s: Shared, steps: seq<Step>)
    requires Inv(s) && Legal(s, steps)
    ensures Inv(End(s, steps))
    decreases |steps|
  {
    hide Inv;
    hide Enabled;
    hide Next;
    if steps != [] {
      StepKeepsInv(s, steps[0]);
      RunKeepsInv(Next(s, steps[0]), steps[1..]);
    }
  }

  lemma {:induction false} SequentialGrows(calls: seq<Call>, m: nat, n: nat)
    requires Sequential(calls) && m < n < |calls|
    ensures calls[m].value < calls[n].value
    decreases n
  {
    assert calls[n].value == Tick(Held(calls, n), calls[n].now);
    if m < n - 1 {
      SequentialGrows(calls, m, n - 1);
    }
  }

  /** Any interleaving hands out what the sequential clock would in the order of
      the swaps: strictly increasing values, and a call that began after another
      returned gets a larger one. */
  lemma ClockIsLinearizable(steps: seq<Step>)
    requires Legal(Start(), steps)
    ensures var calls := End(Start(), steps).calls;
      && Sequential(calls)
      && (forall m, n :: 0 <= m < n < |calls| ==> calls[m].value < calls[n].value)
      && (forall m, n :: 0 <= n < |calls| && m in calls[n].past ==> 0 <= m < |calls| && calls[m].value < calls[n].value)
  {
    RunKeepsInv(Start(), steps);
    var calls := End(Start(), steps).calls;
    forall m, n | 0 <= m < n < |calls| ensures calls[m].value < calls[n].value {
      SequentialGrows(calls, m, n);
    }
  }

  /** How far a value runs ahead of the wall clocks: it is the largest of one per
      call made and each clock read plus one per call since. */
  lemma {:induction false} RunsAheadByCalls(calls: seq<Call>, n: nat)
    requires Sequential(calls) && n < |calls|
    ensures n + 1 <= calls[n].value
    ensures forall m :: 0 <= m <= n ==> calls[m].now + (n - m) <= calls[n].value
    ensures calls[n].value == n + 1 || exists m :: 0 <= m <= n && calls[n].value == calls[m].now + (n - m)
    decreases n
  {
    assert calls[n].value == Tick(Held(calls, n), calls[n].now);
    if n > 0 {
      RunsAheadByCalls(calls, n - 1);
      if calls[n].now > calls[n - 1].value {
        assert calls[n].value == calls[n].now + (n - n);
      } else if calls[n - 1].value != n {
        var m :| 0 <= m <= n - 1 && calls[n - 1].value == calls[m].now + (n - 1 - m);
        assert calls[n].value == calls[m].now + (n - m);
      }
    } else if calls[0].now > 0 {
      assert calls[0].value == calls[0].now + (0 - 0);
    }
  }
}
