/** The timeout metrics with their truncated running average (synckit/statemachine/timeout.go). */
module TimeoutMetrics {
  import opened Basics

  /** Integer division as in the source: it truncates towards zero. */
  function TruncDiv(a: int, b: nat): int
    requires b > 0
  {
    if a >= 0 then a / b else -((-a) / b)
  }

  datatype Timeout = Timeout(state: string, duration: int)

  datatype Snapshot = Snapshot(total: nat, byState: map<string, nat>, average: int, max: int)

  class Tracker {
    var total: nat
    var byState: map<string, nat>
    var average: int
    var max: int

    ghost function AsSnapshot(): Snapshot
      reads this
    {
      Snapshot(total, byState, average, max)
    }

    constructor ()
      ensures AsSnapshot() == After([])
    {
      total, byState, average, max := 0, map[], 0, 0;
    }

    method RecordTimeout(state: string, duration: int)
      modifies this
      ensures AsSnapshot() == Recorded(old(AsSnapshot()), Timeout(state, duration))
    {
      total := total + 1;
      byState := byState[state := (if state in byState then byState[state] else 0) + 1];
      if duration > max {
        max := duration;
      }
      if total == 1 {
        average := duration;
      } else {
        average := average + TruncDiv(duration - average, total);
      }
    }
  }

  function CountOf(byState: map<string, nat>, state: string): nat {
    if state in byState then byState[state] else 0
  }

  function Recorded(s: Snapshot, t: Timeout): Snapshot {
    var n := s.total + 1;
    Snapshot(
      n, s.byState[t.state := CountOf(s.byState, t.state) + 1],
      if n == 1 then t.duration else s.average + TruncDiv(t.duration - s.average, n),
      Max(s.max, t.duration))
  }

  /** The metrics after a sequence of timeouts. */
  function After(ts: seq<Timeout>): Snapshot {
    if |ts| == 0 then Snapshot(0, map[], 0, 0) else Recorded(After(ts[..|ts| - 1]), ts[|ts| - 1])
  }

  function Sum(ts: seq<Timeout>): int {
    if |ts| == 0 then 0 else Sum(ts[..|ts| - 1]) + ts[|ts| - 1].duration
  }

  /** The error bound n(n-1)/2. */
  function Triangle(n: nat): nat {
    if n == 0 then 0 else Triangle(n - 1) + (n - 1)
  }

  function Abs(x: int): nat {
    if x < 0 then -x else x
  }

  /** How many of the timeouts hit a state. */
  function Hits(ts: seq<Timeout>, state: string): nat {
    if |ts| == 0 then 0 else Hits(ts[..|ts| - 1], state) + if ts[|ts| - 1].state == state then 1 else 0
  }

  lemma {:induction false} TriangleClosedForm(n: nat)
    ensures 2 * Triangle(n) == n * (n - 1)
  {
    if n > 0 {
      TriangleClosedForm(n - 1);
    }
  }

  /** Truncation moves a quotient towards zero, by less than one. */
  lemma TruncDivBounds(a: int, b: nat)
    requires b > 0
    ensures Abs(b * TruncDiv(a, b) - a) < b
    ensures a >= 0 ==> 0 <= TruncDiv(a, b) <= a
    ensures a <= 0 ==> a <= TruncDiv(a, b) <= 0
  {
    var m: nat := Abs(a);
    assert b * (m / b) + m % b == m;
    TimesAtLeast(b, m / b);
    if a < 0 {
      assert TruncDiv(a, b) == -(m / b);
      assert b * -(m / b) == -(b * (m / b));
    }
  }

  lemma {:induction false} TimesAtLeast(b: nat, q: nat)
    requires b >= 1
    ensures b * q >= q
  {
    if b > 1 {
      TimesAtLeast(b - 1, q);
      assert b * q == (b - 1) * q + q;
    }
  }

  /** One more value adds at most n - 1 to the error of n times the average. */
  lemma ErrorStep(n: nat, avg: int, sum: int, d: int)
    requires n >= 2
    ensures var avg' := avg + TruncDiv(d - avg, n);
            Abs(n * avg' - (sum + d)) <= Abs((n - 1) * avg - sum) + (n - 1)
  {
    var q := TruncDiv(d - avg, n);
    TruncDivBounds(d - avg, n);
    assert n * (avg + q) == n * avg + n * q;
    assert (n - 1) * avg == n * avg - avg;
  }

  /** After n timeouts, n times the average is within n(n-1)/2 of the sum of the durations. */
  lemma {:induction false} AverageError(ts: seq<Timeout>)
    ensures var s := After(ts); s.total == |ts| && Abs(|ts| * s.average - Sum(ts)) <= Triangle(|ts|)
    decreases |ts|
  {
    if |ts| > 0 {
      var front, n := ts[..|ts| - 1], |ts|;
      AverageError(front);
      if n == 1 {
        assert front == [];
      } else {
        ErrorStep(n, After(front).average, Sum(front), ts[n - 1].duration);
      }
    }
  }

  lemma AverageErrorBound(ts: seq<Timeout>)
    ensures 2 * Abs(|ts| * After(ts).average - Sum(ts)) <= |ts| * (|ts| - 1)
  {
    AverageError(ts);
    TriangleClosedForm(|ts|);
  }

  /** The average lies between any bounds of the durations, the smallest and largest among them. */
  lemma {:induction false} AverageIsBetween(ts: seq<Timeout>, lo: int, hi: int)
    requires |ts| > 0 && forall i :: 0 <= i < |ts| ==> lo <= ts[i].duration <= hi
    ensures lo <= After(ts).average <= hi
    decreases |ts|
  {
    var front, n := ts[..|ts| - 1], |ts|;
    AverageError(front);
    if n > 1 {
      AverageIsBetween(front, lo, hi);
      TruncDivBounds(ts[n - 1].duration - After(front).average, n);
    }
  }

  /** The recorded maximum is the largest duration, or zero when all are negative. */
  lemma {:induction false} MaximumIsExact(ts: seq<Timeout>)
    ensures var m := After(ts).max;
            && m >= 0 && (forall i :: 0 <= i < |ts| ==> ts[i].duration <= m)
            && (m == 0 || exists i :: 0 <= i < |ts| && ts[i].duration == m)
    decreases |ts|
  {
    if |ts| > 0 {
      var front, n := ts[..|ts| - 1], |ts|;
      MaximumIsExact(front);
      assert forall i :: 0 <= i < n - 1 ==> ts[i] == front[i];
      if After(front).max != 0 && After(ts).max == After(front).max {
        var i :| 0 <= i < |front| && front[i].duration == After(front).max;
        assert ts[i].duration == After(ts).max;
      }
    }
  }

  ghost function SumOver(byState: map<string, nat>, states: set<string>): nat {
    if states == {} then 0 else
      var s :| s in states;
      CountOf(byState, s) + SumOver(byState, states - {s})
  }

  /** A sum over a set does not depend on the order in which it is taken. */
  lemma {:induction false} SumOverRemove(byState: map<string, nat>, states: set<string>, x: string)
    requires x in states
    ensures SumOver(byState, states) == CountOf(byState, x) + SumOver(byState, states - {x})
    decreases |states|
  {
    var s :| s in states && SumOver(byState, states) == CountOf(byState, s) + SumOver(byState, states - {s});
    if s != x {
      SumOverRemove(byState, states - {s}, x);
      SumOverRemove(byState, states - {x}, s);
      assert states - {s} - {x} == states - {x} - {s};
    }
  }

  lemma {:induction false} SumOverSame(a: map<string, nat>, b: map<string, nat>, states: set<string>)
    requires forall s :: s in states ==> CountOf(a, s) == CountOf(b, s)
    ensures SumOver(a, states) == SumOver(b, states)
    decreases |states|
  {
    if states != {} {
      var s :| s in states;
      SumOverRemove(a, states, s);
      SumOverRemove(b, states, s);
      SumOverSame(a, b, states - {s});
    }
  }

  /** The per-state counts are exact, and together they are the total. */
  lemma {:induction false} CountsSumToTotal(ts: seq<Timeout>)
    ensures var s := After(ts);
            && (forall state: string :: CountOf(s.byState, state) == Hits(ts, state))
            && SumOver(s.byState, s.byState.Keys) == s.total == |ts|
    decreases |ts|
  {
    if |ts| > 0 {
      var front, t := ts[..|ts| - 1], ts[|ts| - 1];
      CountsSumToTotal(front);
      var a, b := After(front).byState, After(ts).byState;
      SumOverRemove(b, b.Keys, t.state);
      SumOverSame(a, b, b.Keys - {t.state});
      if t.state in a {
        SumOverRemove(a, a.Keys, t.state);
        assert b.Keys == a.Keys;
      } else {
        assert b.Keys - {t.state} == a.Keys;
      }
    }
  }
}
