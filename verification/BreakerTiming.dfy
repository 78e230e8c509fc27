/**
  When the circuit opens. Timing depends on the clock alone, so it holds of the breaker as it is, with a
  wrapping generation and whatever permits come back late.
 */
module BreakerTiming {
  import opened Breaker
  import opened BreakerRuns

  /** The machine, the times at which the circuit opened so far, and the time of the last event. */
  datatype Timeline = Timeline(machine: Machine, openings: seq<nat>, clock: nat)

  const DAWN := Timeline(START, [], 0)

  function Advance(c: Config, t: Timeline, e: Event, modulus: nat): Timeline {
    var n := Step(c, t.machine, e, modulus).0;
    var opens := n.shared.mode.OpenMode? && !t.machine.shared.mode.OpenMode?;
    Timeline(n, if opens then t.openings + [e.at] else t.openings, e.at)
  }

  function Timed(c: Config, t: Timeline, events: seq<Event>, modulus: nat): Timeline
    decreases |events|
  {
    if events == [] then t else Timed(c, Advance(c, t, events[0], modulus), events[1..], modulus)
  }

  /** The times at which the breaker opens during a run. */
  function Openings(c: Config, events: seq<Event>, modulus: nat): seq<nat> {
    Timed(c, DAWN, events, modulus).openings
  }

  /** The clock never runs backwards. */
  ghost predicate Monotone(from: nat, events: seq<Event>) {
    && (forall i :: 0 <= i < |events| ==> from <= events[i].at)
    && (forall i, j :: 0 <= i < j < |events| ==> events[i].at <= events[j].at)
  }

  /** Neighbouring openings are at least `timeout` apart. */
  ghost predicate Spaced(openings: seq<nat>, timeout: nat) {
    forall i :: 0 < i < |openings| ==> openings[i] >= openings[i - 1] + timeout
  }

  /** The circuit is open until `timeout` after the last opening, and no later opening precedes that. */
  ghost predicate Punctual(timeout: nat, t: Timeline) {
    var last := |t.openings| - 1;
    && Spaced(t.openings, timeout)
    && (t.machine.shared.mode.OpenMode? ==>
          last >= 0 && t.openings[last] <= t.clock && t.machine.shared.mode.until == t.openings[last] + timeout)
    && (!t.machine.shared.mode.OpenMode? && last >= 0 ==> t.openings[last] + timeout <= t.clock)
  }

  /** How one step changes the mode, whatever permits are outstanding. */
  lemma StepMovesMode(c: Config, m: Machine, e: Event, modulus: nat)
    ensures var (n, response) := Step(c, m, e, modulus);
            && (m.shared.mode.OpenMode? && n.shared.mode.OpenMode? ==>
                  n.shared.mode == m.shared.mode && !response.Admitted?)
            && (m.shared.mode.OpenMode? && !n.shared.mode.OpenMode? ==> m.shared.mode.until <= e.at)
            && (!m.shared.mode.OpenMode? && n.shared.mode.OpenMode? ==>
                  n.shared.mode.until == e.at + c.openTimeout && e.op.Fail?)
  {
  }

  lemma AdvanceIsPunctual(c: Config, t: Timeline, e: Event, modulus: nat)
    requires Punctual(c.openTimeout, t) && t.clock <= e.at
    ensures Punctual(c.openTimeout, Advance(c, t, e, modulus))
  {
    hide Step;
    StepMovesMode(c, t.machine, e, modulus);
  }

  lemma {:induction false} RunsArePunctual(c: Config, t: Timeline, events: seq<Event>, modulus: nat)
    requires Punctual(c.openTimeout, t) && Monotone(t.clock, events)
    ensures var end := Timed(c, t, events, modulus);
            && Punctual(c.openTimeout, end)
            && end.machine == Exec(c, t.machine, events, modulus)
            && end.clock == (if events == [] then t.clock else events[|events| - 1].at)
    decreases |events|
  {
    hide Step, Punctual;
    if events == [] {
    } else {
      AdvanceIsPunctual(c, t, events[0], modulus);
      RunsArePunctual(c, Advance(c, t, events[0], modulus), events[1..], modulus);
    }
  }

  lemma {:induction false} SpacingAddsUp(openings: seq<nat>, timeout: nat, i: nat, j: nat)
    requires Spaced(openings, timeout) && i <= j < |openings|
    ensures openings[j] - openings[i] >= (j - i) * timeout
    decreases j - i
  {
    if i == j {
    } else {
      SpacingAddsUp(openings, timeout, i, j - 1);
      assert (j - 1 - i) * timeout + timeout == (j - i) * timeout;
    }
  }

  lemma {:induction false} OpeningsAscend(openings: seq<nat>, timeout: nat, i: nat, j: nat)
    requires Spaced(openings, timeout) && i <= j < |openings|
    ensures openings[i] <= openings[j]
    decreases j
  {
    if i == j {
    } else {
      OpeningsAscend(openings, timeout, i, j - 1);
    }
  }

  lemma AdmissionIsLate(c: Config, t: Timeline, e: Event, modulus: nat)
    requires Punctual(c.openTimeout, t) && t.clock <= e.at && Step(c, t.machine, e, modulus).1.Admitted?
    ensures forall o <- t.openings :: o + c.openTimeout <= e.at
  {
    hide Step;
    StepMovesMode(c, t.machine, e, modulus);
    forall i | 0 <= i < |t.openings| ensures t.openings[i] <= t.openings[|t.openings| - 1] {
      OpeningsAscend(t.openings, c.openTimeout, i, |t.openings| - 1);
    }
  }

  /** Nothing is admitted until `open_timeout` has passed since every opening so far. */
  lemma NothingIsAdmittedWhileOpen(c: Config, events: seq<Event>, e: Event, modulus: nat)
    requires Monotone(0, events + [e])
    requires Step(c, Exec(c, START, events, modulus), e, modulus).1.Admitted?
    ensures forall o <- Openings(c, events, modulus) :: o + c.openTimeout <= e.at
  {
    assert forall i :: 0 <= i < |events| ==> events[i] == (events + [e])[i];
    assert (events + [e])[|events|] == e;
    RunsArePunctual(c, DAWN, events, modulus);
    AdmissionIsLate(c, Timed(c, DAWN, events, modulus), e, modulus);
  }

  /** The openings that fall into the window [from, from + length]. */
  function Within(openings: seq<nat>, from: nat, length: nat): set<nat> {
    set k | 0 <= k < |openings| && from <= openings[k] <= from + length
  }

  lemma {:induction false} IntervalCardinality(s: set<nat>, lo: nat, hi: nat)
    requires forall k <- s :: lo <= k < hi
    requires lo <= hi
    ensures |s| <= hi - lo
    decreases hi - lo
  {
    if lo == hi {
      assert s == {};
    } else {
      IntervalCardinality(s - {hi - 1}, lo, hi - 1);
    }
  }

  lemma {:induction false} MultiplesGrow(fewer: nat, more: nat, unit: nat)
    requires fewer < more
    ensures fewer * unit + unit <= more * unit
    decreases more
  {
    assert more * unit == (more - 1) * unit + unit;
    if fewer == more - 1 {
    } else {
      MultiplesGrow(fewer, more - 1, unit);
    }
  }

  lemma DivisionBounds(steps: nat, timeout: nat, length: nat)
    requires timeout > 0 && steps * timeout <= length
    ensures steps <= length / timeout
  {
    if steps > length / timeout {
      MultiplesGrow(length / timeout, steps, timeout);
    }
  }

  lemma LeastOf(s: set<nat>) returns (least: nat)
    requires s != {}
    ensures least in s && forall k <- s :: least <= k
  {
    var x :| x in s;
    var below := set k | k in s && k < x;
    if below == {} {
      least := x;
      assert forall k <- s :: k !in below;
    } else {
      assert below <= s - {x};
      least := LeastOf(below);
      assert forall k <- s :: k in below || x <= k;
    }
  }

  lemma SpacingBoundsWindow(openings: seq<nat>, timeout: nat, from: nat, length: nat)
    requires timeout > 0 && Spaced(openings, timeout)
    ensures |Within(openings, from, length)| <= length / timeout + 1
  {
    var s := Within(openings, from, length);
    if s != {} {
      var first := LeastOf(s);
      var most := length / timeout;
      forall k <- s ensures first <= k < first + most + 1 {
        SpacingAddsUp(openings, timeout, first, k);
        DivisionBounds(k - first, timeout, length);
      }
      IntervalCardinality(s, first, first + most + 1);
    }
  }

  /** Consecutive openings are `open_timeout` apart, so a window of length T holds at most floor(T / open_timeout) + 1. */
  lemma OpeningsAreRare(c: Config, events: seq<Event>, modulus: nat, from: nat, length: nat)
    requires c.Valid() && Monotone(0, events)
    ensures var openings := Openings(c, events, modulus);
            && Spaced(openings, c.openTimeout)
            && |Within(openings, from, length)| <= length / c.openTimeout + 1
  {
    RunsArePunctual(c, DAWN, events, modulus);
    SpacingBoundsWindow(Openings(c, events, modulus), c.openTimeout, from, length);
  }
}
