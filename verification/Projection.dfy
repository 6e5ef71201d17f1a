/**
 The projection runner (projection/runner.go): batched catch-up from a persisted offset.

 The event store numbers its events 1, 2, 3, ..., so an offset o names the first o events of
 the log.  The projector is the function `apply` from a read model and a batch to the next
 read model.  Every load, apply and offset write may fail; a failing apply may have handled
 part of its batch, and a failing offset write may or may not have been persisted.
 */
module Projections {
  import opened Basics

  datatype Fault =
    | NoFault
    | LoadFails
    | ApplyFails(handled: nat)     // the first `handled` events took effect
    | SetFails(persisted: bool)

  /** An attempt to deliver the events from+1 .. to; a failed one may have handled fewer than its batch. */
  datatype Segment = Segment(from: nat, to: nat, ok: bool)

  /** The persisted offset, the read model, and the trace of all deliveries so far. */
  datatype State<M> = State(offset: Option<nat>, model: M, trace: seq<Segment>)

  /** What ApplySince returns, the state it leaves, and the log as its last load found it. */
  datatype Outcome<M, E> = Outcome(state: State<M>, log: seq<E>, applied: nat, last: Option<nat>, ok: bool)

  /** getStartVersion: the stored offset, or zero when there is none. */
  function StartVersion<M>(s: State<M>): nat {
    if s.offset.Some? then s.offset.value else 0
  }

  /** The version of the last event of the batch loaded after version `after`. */
  function BatchEnd(total: nat, after: nat, batchSize: nat): (end: nat)
    ensures after <= end <= Max(after, total)
  {
    if total <= after then after else Min(after + batchSize, total)
  }

  /** ApplyBatch on the events after+1 .. end of the log. */
  function BatchApplied<M, E>(apply: (M, seq<E>) -> M, log: seq<E>, s: State<M>, after: nat, end: nat, fault: Fault)
    : (State<M>, bool)
    requires after <= end <= |log|
  {
    var done := State(s.offset, apply(s.model, log[after..end]), s.trace + [Segment(after, end, true)]);
    var saved := done.(offset := Some(end));
    match fault
    case ApplyFails(k) =>
      var part := Min(after + k, end);
      (State(s.offset, apply(s.model, log[after..part]), s.trace + [Segment(after, part, false)]), false)
    case SetFails(persisted) => (if persisted then saved else done, false)
    case _ => (saved, true)
  }

  /** One iteration of the loop: it handled `count` more events, and either stops or goes on. */
  datatype Round<M> = Stopped(state: State<M>, count: nat, ok: bool) | Continued(state: State<M>, count: nat)

  function RoundOf<M, E>(apply: (M, seq<E>) -> M, log: seq<E>, batchSize: nat, s: State<M>, after: nat, fault: Fault)
    : (r: Round<M>)
    requires batchSize > 0
    ensures r.Continued? ==> r.count > 0 && after + r.count <= |log|
  {
    var end := BatchEnd(|log|, after, batchSize);
    if fault.LoadFails? then Stopped(s, 0, false)
    else if end == after then Stopped(s, 0, true)
    else
      var (s', ok) := BatchApplied(apply, log, s, after, end, fault);
      if !ok then Stopped(s', 0, false)
      else if end - after < batchSize then Stopped(s', end - after, true)
      else Continued(s', end - after)
  }

  /** The fault that iteration i meets; iterations beyond the list meet none. */
  function FaultAt(faults: seq<Fault>, i: nat): Fault {
    if i < |faults| then faults[i] else NoFault
  }

  /** The log in iteration i, when others append arrivals[i] before it loads. */
  function Grown<E>(log: seq<E>, arrivals: seq<seq<E>>, i: nat): seq<E> {
    if i < |arrivals| then log + arrivals[i] else log
  }

  /**
   The loop of ApplySince from iteration i and version `after` on, while the log grows;
   `applied` and `last` are the counters so far.
   */
  function Catchup<M, E>(apply: (M, seq<E>) -> M, log: seq<E>, arrivals: seq<seq<E>>, batchSize: nat, s: State<M>,
                         after: nat, faults: seq<Fault>, i: nat, applied: nat, last: Option<nat>): Outcome<M, E>
    requires batchSize > 0
    decreases if i < |arrivals| then |arrivals| - i else 0, |log| - after
  {
    var now := Grown(log, arrivals, i);
    match RoundOf(apply, now, batchSize, s, after, FaultAt(faults, i))
    case Stopped(s', n, ok) => Outcome(s', now, applied + n, if n > 0 then Some(after + n) else last, ok)
    case Continued(s', n) =>
      Catchup(apply, now, arrivals, batchSize, s', after + n, faults, i + 1, applied + n, Some(after + n))
  }

  class Runner<M(!new), E(!new)> {
    const apply: (M, seq<E>) -> M
    const batchSize: nat
    var offset: Option<nat>
    var model: M
    ghost var trace: seq<Segment>

    ghost function View(): State<M>
      reads this
    {
      State(offset, model, trace)
    }

    /** A batch size that is not positive leaves the default of 500. */
    constructor (apply: (M, seq<E>) -> M, init: M, batchSize: int)
      ensures this.apply == apply && this.batchSize == if batchSize > 0 then batchSize else 500
      ensures View() == State(None, init, [])
    {
      this.apply := apply;
      this.batchSize := if batchSize > 0 then batchSize else 500;
      offset, model, trace := None, init, [];
    }

    /** Applies log[after..end] and stores its last version as the offset. */
    method ApplyBatch(log: seq<E>, after: nat, end: nat, fault: Fault) returns (ok: bool)
      requires after <= end <= |log|
      modifies this
      ensures after == end ==> ok && View() == old(View())
      ensures after < end ==> (View(), ok) == BatchApplied(apply, log, old(View()), after, end, fault)
    {
      if after == end {
        return true;
      }
      if fault.ApplyFails? {
        var part := Min(after + fault.handled, end);
        model := apply(model, log[after..part]);
        trace := trace + [Segment(after, part, false)];
        return false;
      }
      model := apply(model, log[after..end]);
      trace := trace + [Segment(after, end, true)];
      if fault.SetFails? {
        if fault.persisted {
          offset := Some(end);
        }
        return false;
      }
      offset := Some(end);
      return true;
    }

    /** Applies all events since the stored offset, batch by batch, while others append events. */
    method ApplySince(log: seq<E>, arrivals: seq<seq<E>>, getFails: bool, faults: seq<Fault>)
      returns (applied: nat, last: Option<nat>, ok: bool, ghost seen: seq<E>)
      requires batchSize > 0
      modifies this
      ensures getFails ==> applied == 0 && last.None? && !ok && View() == old(View())
      ensures !getFails ==>
                Outcome(View(), seen, applied, last, ok) ==
                Catchup(apply, log, arrivals, batchSize, old(View()), StartVersion(old(View())), faults, 0, 0, None)
      ensures !getFails ==>
                var start := if old(offset).Some? then old(offset).value else 0;
                && last == (if applied > 0 then Some(start + applied) else None)
                && old(trace) <= trace && Accounts(trace[|old(trace)|..], start, applied, ok, faults)
    {
      hide Catchup, BatchApplied, BatchEnd, AccountsAt;
      applied, last, seen := 0, None, log;
      if getFails {
        return 0, None, false, log;
      }
      var currentAfter: nat := if offset.Some? then offset.value else 0;
      var i: nat, stored := 0, log;
      ghost var n := CatchupCounts(apply, log, arrivals, batchSize, View(), currentAfter, faults, 0, 0, None);
      ghost var whole := Catchup(apply, log, arrivals, batchSize, View(), currentAfter, faults, 0, 0, None);
      while true
        invariant whole ==
                  Catchup(apply, stored, arrivals, batchSize, View(), currentAfter, faults, i, applied, last)
        decreases if i < |arrivals| then |arrivals| - i else 0, |stored| - currentAfter
      {
        CatchupStep(apply, stored, arrivals, batchSize, View(), currentAfter, faults, i, applied, last);
        stored := Grown(stored, arrivals, i);
        seen := stored;
        if FaultAt(faults, i).LoadFails? {
          return applied, last, false, seen;
        }
        var end := BatchEnd(|stored|, currentAfter, batchSize);
        if end == currentAfter {
          return applied, last, true, seen;
        }
        var batchOk := ApplyBatch(stored, currentAfter, end, FaultAt(faults, i));
        if !batchOk {
          return applied, last, false, seen;
        }
        var count := end - currentAfter;
        applied, last, currentAfter, i := applied + count, Some(end), end, i + 1;
        if count < batchSize {
          return applied, last, true, seen;
        }
      }
    }
  }

  // ---------------------------------------------------------------- delivery, for every projector

  /** The furthest version that a successful delivery has reached. */
  function Furthest(trace: seq<Segment>): nat {
    if |trace| == 0 then 0 else
      var rest, last := Furthest(trace[..|trace| - 1]), trace[|trace| - 1];
      if last.ok then Max(rest, last.to) else rest
  }

  /** Every delivery, failed ones included, starts no later than the furthest version reached before it. */
  predicate InOrder(trace: seq<Segment>) {
    |trace| == 0 ||
    (InOrder(trace[..|trace| - 1]) && trace[|trace| - 1].from <= Furthest(trace[..|trace| - 1]))
  }

  ghost predicate Within(trace: seq<Segment>, total: nat) {
    forall k :: 0 <= k < |trace| ==> trace[k].from <= trace[k].to <= total
  }

  predicate Covers(g: Segment, i: nat) {
    g.ok && g.from <= i < g.to
  }

  /** Deliveries in order leave no gap: every event below the furthest version was delivered successfully. */
  lemma {:induction false} InOrderCovers(trace: seq<Segment>, i: nat)
    requires InOrder(trace) && i < Furthest(trace)
    ensures exists k :: 0 <= k < |trace| && Covers(trace[k], i)
    decreases |trace|
  {
    var front, last := trace[..|trace| - 1], trace[|trace| - 1];
    if i < Furthest(front) {
      InOrderCovers(front, i);
      var k :| 0 <= k < |front| && Covers(front[k], i);
      assert Covers(trace[k], i);
    } else {
      assert Covers(last, i);
    }
  }

  /** When an event is attempted, every earlier event has already been delivered or is in the same attempt. */
  lemma {:induction false} NothingIsSkipped(trace: seq<Segment>, n: nat, i: nat)
    requires InOrder(trace) && n < |trace| && i < trace[n].from
    ensures exists k :: 0 <= k < n && Covers(trace[k], i)
    decreases |trace|
  {
    var front := trace[..|trace| - 1];
    if n < |front| {
      NothingIsSkipped(front, n, i);
      var k :| 0 <= k < n && Covers(front[k], i);
      assert Covers(trace[k], i);
    } else {
      InOrderCovers(front, i);
      var k :| 0 <= k < |front| && Covers(front[k], i);
      assert Covers(trace[k], i);
    }
  }

  /** The stored offset names a prefix of the log that was delivered in order and without gaps. */
  ghost predicate Delivered<M>(s: State<M>, total: nat) {
    StartVersion(s) <= total && StartVersion(s) <= Furthest(s.trace) && InOrder(s.trace) && Within(s.trace, total)
  }

  lemma OffsetIsDelivered<M>(s: State<M>, total: nat, i: nat)
    requires Delivered(s, total) && i < StartVersion(s)
    ensures exists k :: 0 <= k < |s.trace| && Covers(s.trace[k], i)
  {
    InOrderCovers(s.trace, i);
  }

  /** How far one iteration gets. */
  lemma RoundAdvances<M, E>(apply: (M, seq<E>) -> M, log: seq<E>, batchSize: nat, s: State<M>, fault: Fault)
    requires batchSize > 0 && StartVersion(s) <= |log|
    ensures var r := RoundOf(apply, log, batchSize, s, StartVersion(s), fault);
            && (r.Continued? || r.ok ==> StartVersion(r.state) == StartVersion(s) + r.count)
            && (r.Stopped? && r.ok ==> StartVersion(r.state) == |log|)
  {
  }

  lemma OneMoreSegment(trace: seq<Segment>, g: Segment)
    ensures Furthest(trace + [g]) == if g.ok then Max(Furthest(trace), g.to) else Furthest(trace)
    ensures InOrder(trace + [g]) <==> InOrder(trace) && g.from <= Furthest(trace)
  {
    assert (trace + [g])[..|trace|] == trace;
  }

  /** Every iteration, with any fault and any projector, keeps deliveries in order. */
  lemma RoundDelivers<M, E>(apply: (M, seq<E>) -> M, log: seq<E>, batchSize: nat, s: State<M>, fault: Fault)
    requires batchSize > 0 && Delivered(s, |log|)
    ensures Delivered(RoundOf(apply, log, batchSize, s, StartVersion(s), fault).state, |log|)
  {
    hide Furthest, InOrder;
    var o := StartVersion(s);
    var end := BatchEnd(|log|, o, batchSize);
    OneMoreSegment(s.trace, Segment(o, end, true));
    if fault.ApplyFails? {
      OneMoreSegment(s.trace, Segment(o, Min(o + fault.handled, end), false));
    }
  }

  lemma CatchupStep<M, E>(apply: (M, seq<E>) -> M, log: seq<E>, arrivals: seq<seq<E>>, batchSize: nat, s: State<M>,
                          after: nat, faults: seq<Fault>, i: nat, applied: nat, last: Option<nat>)
    requires batchSize > 0
    ensures var now := Grown(log, arrivals, i);
            Catchup(apply, log, arrivals, batchSize, s, after, faults, i, applied, last) ==
            match RoundOf(apply, now, batchSize, s, after, FaultAt(faults, i))
            case Stopped(s', n, ok) => Outcome(s', now, applied + n, if n > 0 then Some(after + n) else last, ok)
            case Continued(s', n) =>
              Catchup(apply, now, arrivals, batchSize, s', after + n, faults, i + 1, applied + n, Some(after + n))
  {
    hide RoundOf, Grown;
  }

  lemma DeliveredInLonger<M>(s: State<M>, total: nat, more: nat)
    requires Delivered(s, total) && total <= more
    ensures Delivered(s, more)
  {
  }

  // ---------------------------------------------------------------- what a call counts

  /** Successful deliveries, one after the other, of the events start+1 .. start+count. */
  ghost predicate Consecutive(done: seq<Segment>, start: nat, count: nat)
    decreases |done|
  {
    if |done| == 0 then count == 0 else
      && done[0].ok && done[0].from == start < done[0].to <= start + count
      && Consecutive(done[1..], done[0].to, start + count - done[0].to)
  }

  /**
   The deliveries of one call account for its counter: the counted events are those of its first n
   batches, which met no fault; after these the call succeeds, fails to load, or attempts one more
   batch that meets a fault, of which nothing is counted.
   */
  ghost predicate Accounts(made: seq<Segment>, start: nat, applied: nat, ok: bool, faults: seq<Fault>) {
    exists n: nat :: AccountsAt(made, start, applied, ok, faults, 0, n)
  }

  ghost predicate AccountsAt(
    made: seq<Segment>, start: nat, applied: nat, ok: bool, faults: seq<Fault>, i: nat, n: nat)
  {
    && n <= |made| && Consecutive(made[..n], start, applied)
    && (forall k :: i <= k < i + n && k < |faults| ==> faults[k].NoFault?)
    && (ok ==> |made| == n)
    && (!ok ==> i + n < |faults| && !faults[i + n].NoFault?)
    && (!ok && faults[i + n].LoadFails? ==> |made| == n)
    && (!ok && !faults[i + n].LoadFails? ==> |made| == n + 1 && made[n].from == start + applied)
  }

  /** One more batch in front. */
  lemma AccountsLonger(g: Segment, made: seq<Segment>, start: nat, applied: nat, ok: bool, faults: seq<Fault>,
                       i: nat, n: nat)
    requires g.ok && g.from == start < g.to && (i < |faults| ==> faults[i].NoFault?)
    requires AccountsAt(made, g.to, applied, ok, faults, i + 1, n)
    ensures AccountsAt([g] + made, start, g.to - start + applied, ok, faults, i, n + 1)
  {
    var all := [g] + made;
    assert all[..n + 1][1..] == made[..n];
  }

  /** What one iteration delivers and counts. */
  lemma RoundCounts<M, E>(apply: (M, seq<E>) -> M, log: seq<E>, batchSize: nat, s: State<M>, after: nat, fault: Fault)
    requires batchSize > 0
    ensures var r := RoundOf(apply, log, batchSize, s, after, fault);
            && (r.Continued? ==> fault.NoFault? && r.state.trace == s.trace + [Segment(after, after + r.count, true)])
            && (r.Stopped? && r.ok && r.count > 0 ==>
                  fault.NoFault? && r.state.trace == s.trace + [Segment(after, after + r.count, true)])
            && (r.Stopped? && r.ok && r.count == 0 ==> r.state.trace == s.trace)
            && (r.Stopped? && !r.ok ==> r.count == 0 && !fault.NoFault?)
            && (r.Stopped? && !r.ok && fault.LoadFails? ==> r.state.trace == s.trace)
            && (r.Stopped? && !r.ok && !fault.LoadFails? ==>
                  |r.state.trace| == |s.trace| + 1 && r.state.trace[..|s.trace|] == s.trace &&
                  r.state.trace[|s.trace|].from == after)
  {
  }

  /** The counters of a call, successful or not. */
  lemma {:induction false} CatchupCounts<M, E>(
    apply: (M, seq<E>) -> M, log: seq<E>, arrivals: seq<seq<E>>, batchSize: nat, s: State<M>, after: nat,
    faults: seq<Fault>, i: nat, applied: nat, last: Option<nat>) returns (n: nat)
    requires batchSize > 0
    ensures var r := Catchup(apply, log, arrivals, batchSize, s, after, faults, i, applied, last);
            && applied <= r.applied && s.trace <= r.state.trace
            && r.last == (if r.applied > applied then Some(after + r.applied - applied) else last)
            && AccountsAt(r.state.trace[|s.trace|..], after, r.applied - applied, r.ok, faults, i, n)
    decreases if i < |arrivals| then |arrivals| - i else 0, |log| - after
  {
    hide Catchup, RoundOf, BatchApplied, AccountsAt;
    var now := Grown(log, arrivals, i);
    CatchupStep(apply, log, arrivals, batchSize, s, after, faults, i, applied, last);
    RoundCounts(apply, now, batchSize, s, after, FaultAt(faults, i));
    var round := RoundOf(apply, now, batchSize, s, after, FaultAt(faults, i));
    var r := Catchup(apply, log, arrivals, batchSize, s, after, faults, i, applied, last);
    match round
    case Stopped(s', count, ok) =>
      n := if count > 0 then 1 else 0;
      AccountsForOne(s.trace, s'.trace, after, count, ok, faults, i);
    case Continued(s', count) =>
      n := CatchupCounts(
        apply, now, arrivals, batchSize, s', after + count, faults, i + 1, applied + count, Some(after + count));
      var g, rest := Segment(after, after + count, true), r.state.trace[|s'.trace|..];
      AccountsLonger(g, rest, after, r.applied - applied - count, r.ok, faults, i, n);
      n := n + 1;
      assert r.state.trace[|s.trace|..] == [g] + rest;
  }

  lemma AccountsForOne(before: seq<Segment>, trace: seq<Segment>, after: nat, count: nat, ok: bool,
                       faults: seq<Fault>, i: nat)
    requires ok && count > 0 ==> FaultAt(faults, i).NoFault? && trace == before + [Segment(after, after + count, true)]
    requires ok && count == 0 ==> trace == before
    requires !ok ==> count == 0 && !FaultAt(faults, i).NoFault?
    requires !ok && FaultAt(faults, i).LoadFails? ==> trace == before
    requires !ok && !FaultAt(faults, i).LoadFails? ==>
               |trace| == |before| + 1 && trace[..|before|] == before && trace[|before|].from == after
    ensures before <= trace
    ensures AccountsAt(trace[|before|..], after, count, ok, faults, i, if count > 0 then 1 else 0)
  {
    if ok && count > 0 {
      var g := Segment(after, after + count, true);
      assert trace[|before|..] == [g] && [g][..1] == [g] && |[g][1..]| == 0;
    } else {
      assert |trace[|before|..][..0]| == 0;
    }
  }

  /** Every counted event was delivered successfully. */
  lemma {:induction false} CountedIsDelivered(done: seq<Segment>, start: nat, count: nat, v: nat)
    requires Consecutive(done, start, count) && start <= v < start + count
    ensures exists k :: 0 <= k < |done| && Covers(done[k], v)
    decreases |done|
  {
    if v < done[0].to {
      assert Covers(done[0], v);
    } else {
      CountedIsDelivered(done[1..], done[0].to, start + count - done[0].to, v);
      var k :| 0 <= k < |done[1..]| && Covers(done[1..][k], v);
      assert Covers(done[k + 1], v);
    }
  }

  /**
   So does every call, also while the log grows; a successful one reaches the end of the log as
   its last load found it, and applies exactly the missing events.
   */
  lemma {:induction false} CatchupDelivers<M, E>(
    apply: (M, seq<E>) -> M, log: seq<E>, arrivals: seq<seq<E>>, batchSize: nat, s: State<M>,
    faults: seq<Fault>, i: nat, applied: nat, last: Option<nat>)
    requires batchSize > 0 && Delivered(s, |log|)
    ensures var r := Catchup(apply, log, arrivals, batchSize, s, StartVersion(s), faults, i, applied, last);
            && log <= r.log && (i < |arrivals| ==> log + arrivals[i] <= r.log) && Delivered(r.state, |r.log|)
            && (r.ok ==> StartVersion(r.state) == |r.log| && r.applied == applied + |r.log| - StartVersion(s))
    decreases if i < |arrivals| then |arrivals| - i else 0, |log| - StartVersion(s)
  {
    hide Catchup, BatchApplied, RoundOf, Furthest, InOrder, Within;
    var now := Grown(log, arrivals, i);
    CatchupStep(apply, log, arrivals, batchSize, s, StartVersion(s), faults, i, applied, last);
    DeliveredInLonger(s, |log|, |now|);
    RoundDelivers(apply, now, batchSize, s, FaultAt(faults, i));
    RoundAdvances(apply, now, batchSize, s, FaultAt(faults, i));
    match RoundOf(apply, now, batchSize, s, StartVersion(s), FaultAt(faults, i))
    case Stopped(_, _, _) =>
    case Continued(s', n) =>
      CatchupDelivers(apply, now, arrivals, batchSize, s', faults, i + 1, applied + n, Some(StartVersion(s')));
  }

  // ---------------------------------------------------------------- applying and replaying

  /** Handling nothing changes nothing, and batches may be handled in pieces. */
  ghost predicate Sequential<M(!new), E(!new)>(apply: (M, seq<E>) -> M) {
    && (forall m: M :: apply(m, []) == m)
    && (forall m: M, a: seq<E>, b: seq<E> :: Composes(apply, m, a, b))
  }

  ghost predicate Composes<M, E>(apply: (M, seq<E>) -> M, m: M, a: seq<E>, b: seq<E>) {
    apply(m, a + b) == apply(apply(m, a), b)
  }

  /** The documented duty of a projector: handling the same events twice changes nothing. */
  ghost predicate Idempotent<M(!new), E(!new)>(apply: (M, seq<E>) -> M) {
    forall m: M, es: seq<E> :: HandledTwice(apply, m, es)
  }

  ghost predicate HandledTwice<M, E>(apply: (M, seq<E>) -> M, m: M, es: seq<E>) {
    apply(apply(m, es), es) == apply(m, es)
  }

  lemma Replay<M(!new), E(!new)>(apply: (M, seq<E>) -> M, m: M, p: seq<E>, b: seq<E>)
    requires Sequential(apply) && Idempotent(apply) && p <= b
    ensures apply(apply(m, p), b) == apply(m, b)
  {
    var c := b[|p|..];
    assert b == p + c && HandledTwice(apply, m, p);
    assert Composes(apply, apply(m, p), p, c) && Composes(apply, m, p, c);
  }

  /** Whatever extends the attempted events p leads from m to where it leads from base. */
  ghost predicate Absorbs<M, E(!new)>(apply: (M, seq<E>) -> M, m: M, base: M, p: seq<E>) {
    forall b: seq<E> :: p <= b ==> apply(m, b) == apply(base, b)
  }

  /** Attempting log[o..j] on top of log[o..k] amounts to attempting the longer of the two. */
  lemma AbsorbsAttempt<M(!new), E(!new)>(apply: (M, seq<E>) -> M, m: M, base: M, log: seq<E>, o: nat, k: nat, j: nat)
    requires Sequential(apply) && Idempotent(apply) && o <= k <= |log| && o <= j <= |log|
    requires Absorbs(apply, m, base, log[o..k])
    ensures Absorbs(apply, apply(m, log[o..j]), base, log[o..Max(k, j)])
  {
    forall b: seq<E> | log[o..Max(k, j)] <= b
      ensures apply(apply(m, log[o..j]), b) == apply(base, b)
    {
      assert log[o..k] <= b && log[o..j] <= b;
      Replay(apply, m, log[o..j], b);
    }
  }

  // ---------------------------------------------------------------- what every call keeps

  /** The events from the offset up to version k may have been handled already. */
  ghost predicate Attempted<M, E(!new)>(
    apply: (M, seq<E>) -> M, init: M, log: seq<E>, batchSize: nat, s: State<M>, k: nat)
  {
    var o := StartVersion(s);
    o <= k <= o + batchSize && k <= |log| && Absorbs(apply, s.model, apply(init, log[..o]), log[o..k])
  }

  /** The read model is that of the events up to the offset, apart from events already attempted. */
  ghost predicate Consistent<M, E(!new)>(apply: (M, seq<E>) -> M, init: M, log: seq<E>, batchSize: nat, s: State<M>) {
    exists k: nat :: Attempted(apply, init, log, batchSize, s, k)
  }

  /** A batch whose offset was stored leaves the read model exact. */
  lemma SavedBatchIsExact<M(!new), E(!new)>(
    apply: (M, seq<E>) -> M, init: M, log: seq<E>, batchSize: nat, s: State<M>, s': State<M>, end: nat)
    requires Sequential(apply) && Consistent(apply, init, log, batchSize, s)
    requires end == BatchEnd(|log|, StartVersion(s), batchSize) && StartVersion(s) <= end <= |log|
    requires s'.model == apply(s.model, log[StartVersion(s)..end]) && s'.offset == Some(end)
    ensures s'.model == apply(init, log[..end]) && Consistent(apply, init, log, batchSize, s')
  {
    var o := StartVersion(s);
    var k: nat :| Attempted(apply, init, log, batchSize, s, k);
    assert log[o..k] <= log[o..end];
    assert log[..end] == log[..o] + log[o..end] && Composes(apply, init, log[..o], log[o..end]);
    assert Attempted(apply, init, log, batchSize, s', end);
  }

  /** A batch handled up to version j, with the offset left alone, is an attempt. */
  lemma AttemptKeepsConsistent<M(!new), E(!new)>(
    apply: (M, seq<E>) -> M, init: M, log: seq<E>, batchSize: nat, s: State<M>, s': State<M>, j: nat)
    requires Sequential(apply) && Idempotent(apply) && Consistent(apply, init, log, batchSize, s)
    requires StartVersion(s) <= j <= StartVersion(s) + batchSize && j <= |log|
    requires s'.model == apply(s.model, log[StartVersion(s)..j]) && s'.offset == s.offset
    ensures Consistent(apply, init, log, batchSize, s')
  {
    var o := StartVersion(s);
    var k: nat :| Attempted(apply, init, log, batchSize, s, k);
    AbsorbsAttempt(apply, s.model, apply(init, log[..o]), log, o, k, j);
    assert Attempted(apply, init, log, batchSize, s', Max(k, j));
  }

  lemma RoundKeeps<M(!new), E(!new)>(
    apply: (M, seq<E>) -> M, init: M, log: seq<E>, batchSize: nat, s: State<M>, fault: Fault)
    requires batchSize > 0 && Sequential(apply) && Idempotent(apply) && Consistent(apply, init, log, batchSize, s)
    ensures Consistent(apply, init, log, batchSize, RoundOf(apply, log, batchSize, s, StartVersion(s), fault).state)
  {
    var o := StartVersion(s);
    var end := BatchEnd(|log|, o, batchSize);
    if !fault.LoadFails? && end != o {
      var s' := BatchApplied(apply, log, s, o, end, fault).0;
      match fault
      case ApplyFails(k) => AttemptKeepsConsistent(apply, init, log, batchSize, s, s', Min(o + k, end));
      case SetFails(persisted) =>
        if persisted {
          SavedBatchIsExact(apply, init, log, batchSize, s, s', end);
        } else {
          AttemptKeepsConsistent(apply, init, log, batchSize, s, s', end);
        }
      case NoFault => SavedBatchIsExact(apply, init, log, batchSize, s, s', end);
    }
  }

  lemma {:induction false} CatchupKeeps<M(!new), E(!new)>(
    apply: (M, seq<E>) -> M, init: M, log: seq<E>, arrivals: seq<seq<E>>, batchSize: nat, s: State<M>,
    faults: seq<Fault>, i: nat, applied: nat, last: Option<nat>)
    requires batchSize > 0 && Sequential(apply) && Idempotent(apply) && Consistent(apply, init, log, batchSize, s)
    ensures var r := Catchup(apply, log, arrivals, batchSize, s, StartVersion(s), faults, i, applied, last);
            Consistent(apply, init, r.log, batchSize, r.state)
    decreases if i < |arrivals| then |arrivals| - i else 0, |log| - StartVersion(s)
  {
    hide Catchup, BatchApplied, RoundOf, Attempted, Consistent, Sequential, Idempotent;
    var now := Grown(log, arrivals, i);
    CatchupStep(apply, log, arrivals, batchSize, s, StartVersion(s), faults, i, applied, last);
    if i < |arrivals| {
      ConsistentAfterAppend(apply, init, log, arrivals[i], batchSize, s);
    }
    OffsetWithinLog(apply, init, now, batchSize, s);
    RoundKeeps(apply, init, now, batchSize, s, FaultAt(faults, i));
    RoundAdvances(apply, now, batchSize, s, FaultAt(faults, i));
    match RoundOf(apply, now, batchSize, s, StartVersion(s), FaultAt(faults, i))
    case Stopped(_, _, _) =>
    case Continued(s', n) =>
      CatchupKeeps(apply, init, now, arrivals, batchSize, s', faults, i + 1, applied + n, Some(StartVersion(s')));
  }

  lemma OffsetWithinLog<M, E(!new)>(apply: (M, seq<E>) -> M, init: M, log: seq<E>, batchSize: nat, s: State<M>)
    requires Consistent(apply, init, log, batchSize, s)
    ensures StartVersion(s) <= |log|
  {
  }

  /** A consistent state whose offset is the end of the log has the read model of the whole log. */
  lemma ConsistentAtEnd<M(!new), E(!new)>(apply: (M, seq<E>) -> M, init: M, log: seq<E>, batchSize: nat, s: State<M>)
    requires Sequential(apply) && Consistent(apply, init, log, batchSize, s) && StartVersion(s) == |log|
    ensures s.model == apply(init, log)
  {
    var k: nat :| Attempted(apply, init, log, batchSize, s, k);
    var nothing: seq<E> := [];
    assert log[..|log|] == log && log[|log|..k] == nothing;
    assert apply(s.model, nothing) == apply(apply(init, log), nothing);
  }

  // ---------------------------------------------------------------- whole runs

  /** What can happen to a projection: the log grows, or ApplySince is called, during which it may grow too. */
  datatype Action<E> = Append(events: seq<E>) | Call(getFails: bool, faults: seq<Fault>, arrivals: seq<seq<E>>)

  datatype World<M, E> = World(log: seq<E>, state: State<M>, ok: bool)

  ghost function Do<M, E>(apply: (M, seq<E>) -> M, batchSize: nat, w: World<M, E>, a: Action<E>): World<M, E>
    requires batchSize > 0
  {
    match a
    case Append(es) => World(w.log + es, w.state, false)
    case Call(getFails, faults, arrivals) =>
      if getFails then w.(ok := false) else
        var r := Catchup(apply, w.log, arrivals, batchSize, w.state, StartVersion(w.state), faults, 0, 0, None);
        World(r.log, r.state, r.ok)
  }

  ghost function DoAll<M, E>(apply: (M, seq<E>) -> M, batchSize: nat, init: M, run: seq<Action<E>>): World<M, E>
    requires batchSize > 0
  {
    if |run| == 0 then World([], State(None, init, []), false)
    else Do(apply, batchSize, DoAll(apply, batchSize, init, run[..|run| - 1]), run[|run| - 1])
  }

  lemma ConsistentAfterAppend<M, E(!new)>(
    apply: (M, seq<E>) -> M, init: M, log: seq<E>, es: seq<E>, batchSize: nat, s: State<M>)
    requires Consistent(apply, init, log, batchSize, s)
    ensures Consistent(apply, init, log + es, batchSize, s)
  {
    var o := StartVersion(s);
    var k: nat :| Attempted(apply, init, log, batchSize, s, k);
    assert (log + es)[..o] == log[..o] && (log + es)[o..k] == log[o..k];
    assert Attempted(apply, init, log + es, batchSize, s, k);
  }

  /**
   After any run of appends and calls, with any faults, any projector and events appended also
   during calls: the stored offset names
   a prefix of the log that was delivered in order and without gaps, and after a successful call
   that prefix is the whole log.
   */
  lemma {:induction false} RunDelivers<M, E>(apply: (M, seq<E>) -> M, batchSize: nat, init: M, run: seq<Action<E>>)
    requires batchSize > 0
    ensures var w := DoAll(apply, batchSize, init, run);
            Delivered(w.state, |w.log|) && (w.ok ==> StartVersion(w.state) == |w.log|)
    decreases |run|
  {
    hide Catchup, Furthest, InOrder;
    if |run| > 0 {
      var before, a := DoAll(apply, batchSize, init, run[..|run| - 1]), run[|run| - 1];
      RunDelivers(apply, batchSize, init, run[..|run| - 1]);
      if a.Call? {
        CatchupDelivers(apply, before.log, a.arrivals, batchSize, before.state, a.faults, 0, 0, None);
      }
    } else {
      NothingDelivered(init);
    }
  }

  /** The read model to which the deliveries of a trace lead, one after the other. */
  ghost function Replayed<M, E>(apply: (M, seq<E>) -> M, init: M, log: seq<E>, trace: seq<Segment>): M
    requires Within(trace, |log|)
  {
    if |trace| == 0 then init else
      var n := |trace| - 1;
      apply(Replayed(apply, init, log, trace[..n]), log[trace[n].from..trace[n].to])
  }

  ghost predicate Replays<M, E>(apply: (M, seq<E>) -> M, init: M, log: seq<E>, s: State<M>) {
    Within(s.trace, |log|) && s.model == Replayed(apply, init, log, s.trace)
  }

  lemma {:induction false} ReplayedInLonger<M, E>(
    apply: (M, seq<E>) -> M, init: M, log: seq<E>, more: seq<E>, trace: seq<Segment>)
    requires Within(trace, |log|)
    ensures Within(trace, |log + more|)
    ensures Replayed(apply, init, log + more, trace) == Replayed(apply, init, log, trace)
    decreases |trace|
  {
    if |trace| > 0 {
      var n := |trace| - 1;
      ReplayedInLonger(apply, init, log, more, trace[..n]);
      assert (log + more)[trace[n].from..trace[n].to] == log[trace[n].from..trace[n].to];
    }
  }

  lemma OneMoreReplayed<M, E>(apply: (M, seq<E>) -> M, init: M, log: seq<E>, trace: seq<Segment>, g: Segment)
    requires Within(trace, |log|) && g.from <= g.to <= |log|
    ensures Within(trace + [g], |log|)
    ensures Replayed(apply, init, log, trace + [g]) == apply(Replayed(apply, init, log, trace), log[g.from..g.to])
  {
    assert (trace + [g])[..|trace|] == trace;
  }

  lemma RoundReplays<M, E>(apply: (M, seq<E>) -> M, init: M, log: seq<E>, batchSize: nat, s: State<M>, fault: Fault)
    requires batchSize > 0 && StartVersion(s) <= |log| && Replays(apply, init, log, s)
    ensures Replays(apply, init, log, RoundOf(apply, log, batchSize, s, StartVersion(s), fault).state)
  {
    hide Within, Replayed;
    var o := StartVersion(s);
    var end := BatchEnd(|log|, o, batchSize);
    OneMoreReplayed(apply, init, log, s.trace, Segment(o, end, true));
    if fault.ApplyFails? {
      OneMoreReplayed(apply, init, log, s.trace, Segment(o, Min(o + fault.handled, end), false));
    }
  }

  lemma {:induction false} CatchupReplays<M, E>(
    apply: (M, seq<E>) -> M, init: M, log: seq<E>, arrivals: seq<seq<E>>, batchSize: nat, s: State<M>,
    faults: seq<Fault>, i: nat, applied: nat, last: Option<nat>)
    requires batchSize > 0 && StartVersion(s) <= |log| && Replays(apply, init, log, s)
    ensures var r := Catchup(apply, log, arrivals, batchSize, s, StartVersion(s), faults, i, applied, last);
            Replays(apply, init, r.log, r.state)
    decreases if i < |arrivals| then |arrivals| - i else 0, |log| - StartVersion(s)
  {
    hide Catchup, BatchApplied, RoundOf, Within, Replayed;
    var now := Grown(log, arrivals, i);
    CatchupStep(apply, log, arrivals, batchSize, s, StartVersion(s), faults, i, applied, last);
    if i < |arrivals| {
      ReplayedInLonger(apply, init, log, arrivals[i], s.trace);
    }
    RoundReplays(apply, init, now, batchSize, s, FaultAt(faults, i));
    RoundAdvances(apply, now, batchSize, s, FaultAt(faults, i));
    match RoundOf(apply, now, batchSize, s, StartVersion(s), FaultAt(faults, i))
    case Stopped(_, _, _) =>
    case Continued(s', n) =>
      CatchupReplays(apply, init, now, arrivals, batchSize, s', faults, i + 1, applied + n, Some(StartVersion(s')));
  }

  /** After any run, the read model of any projector is what the deliveries of the trace lead to, in their order. */
  lemma {:induction false} RunReplays<M, E>(apply: (M, seq<E>) -> M, batchSize: nat, init: M, run: seq<Action<E>>)
    requires batchSize > 0
    ensures var w := DoAll(apply, batchSize, init, run);
            Replays(apply, init, w.log, w.state)
    decreases |run|
  {
    hide Catchup, Within, Replayed, Delivered;
    if |run| > 0 {
      var front, a := run[..|run| - 1], run[|run| - 1];
      var before := DoAll(apply, batchSize, init, front);
      RunReplays(apply, batchSize, init, front);
      RunDelivers(apply, batchSize, init, front);
      OffsetOfDelivered(before.state, |before.log|);
      match a
      case Append(es) =>
        ReplayedInLonger(apply, init, before.log, es, before.state.trace);
      case Call(getFails, faults, arrivals) =>
        CatchupReplays(apply, init, before.log, arrivals, batchSize, before.state, faults, 0, 0, None);
    } else {
      NothingReplayed(apply, init);
    }
  }

  lemma OffsetOfDelivered<M>(s: State<M>, total: nat)
    requires Delivered(s, total)
    ensures StartVersion(s) <= total
  {
  }

  lemma NothingReplayed<M, E>(apply: (M, seq<E>) -> M, init: M)
    ensures Replays(apply, init, [], State(None, init, []))
  {
  }

  /**
   What a single faulty call leaves behind on a log that fits into one batch: a failing Apply may have
   handled a part, and a failing write of the offset has handled all and may or may not have stored it.
   */
  lemma FaultsLeave<M, E>(apply: (M, seq<E>) -> M, log: seq<E>, batchSize: nat, init: M, handled: nat, persisted: bool)
    requires 0 < |log| <= batchSize && handled <= |log|
    ensures var s, part, write := State(None, init, []), [ApplyFails(handled)], [SetFails(persisted)];
            var r1 := Catchup(apply, log, [], batchSize, s, 0, part, 0, 0, None);
            var r2 := Catchup(apply, log, [], batchSize, s, 0, write, 0, 0, None);
            && !r1.ok && r1.applied == 0 && r1.state.offset == None && r1.state.model == apply(init, log[..handled])
            && !r2.ok && r2.applied == 0 && r2.state.model == apply(init, log)
            && r2.state.offset == if persisted then Some(|log|) else None
  {
    assert log[0..|log|] == log && log[0..handled] == log[..handled];
  }

  lemma NothingDelivered<M>(init: M)
    ensures Delivered(State(None, init, []), 0)
  {
  }

  /** For an idempotent projector, the read model after a successful call is that of the whole log applied once. */
  lemma {:induction false} RunIsExact<M(!new), E(!new)>(
    apply: (M, seq<E>) -> M, batchSize: nat, init: M, run: seq<Action<E>>)
    requires batchSize > 0 && Sequential(apply) && Idempotent(apply)
    ensures var w := DoAll(apply, batchSize, init, run);
            && Consistent(apply, init, w.log, batchSize, w.state)
            && (w.ok ==> w.state.model == apply(init, w.log))
    decreases |run|
  {
    hide Catchup, Sequential, Idempotent, Consistent, Delivered;
    var w := DoAll(apply, batchSize, init, run);
    RunDelivers(apply, batchSize, init, run);
    if |run| == 0 {
      NothingAttempted(apply, init, batchSize);
    } else {
      var before, a := DoAll(apply, batchSize, init, run[..|run| - 1]), run[|run| - 1];
      RunIsExact(apply, batchSize, init, run[..|run| - 1]);
      match a
      case Append(es) =>
        ConsistentAfterAppend(apply, init, before.log, es, batchSize, before.state);
      case Call(getFails, faults, arrivals) =>
        CatchupKeeps(apply, init, before.log, arrivals, batchSize, before.state, faults, 0, 0, None);
        if w.ok {
          ConsistentAtEnd(apply, init, w.log, batchSize, w.state);
        }
    }
  }

  lemma NothingAttempted<M(!new), E(!new)>(apply: (M, seq<E>) -> M, init: M, batchSize: nat)
    requires Sequential(apply)
    ensures Consistent(apply, init, [], batchSize, State(None, init, []))
  {
    var none: seq<E> := [];
    var s := State(None, init, []);
    assert none[..0] == none && none[0..0] == none && apply(init, none) == init;
    assert Attempted(apply, init, none, batchSize, s, 0);
  }

  /** Whatever happened before, a successful call leaves the read model of the log applied once. */
  ghost predicate ExactAfter<M, E>(apply: (M, seq<E>) -> M, batchSize: nat, init: M, run: seq<Action<E>>) {
    batchSize > 0 ==>
      var w := DoAll(apply, batchSize, init, run);
      w.ok ==> w.state.model == apply(init, w.log)
  }

  /**
   Idempotence is needed: for any projector without it there is a run, one failed offset
   write followed by a successful call, after which the read model is not that of the log.
   */
  lemma IdempotenceIsNeeded<M(!new), E(!new)>(apply: (M, seq<E>) -> M, m: M, es: seq<E>, batchSize: nat)
    requires !HandledTwice(apply, m, es) && |es| > 0 && batchSize >= |es|
    ensures exists run: seq<Action<E>> :: !ExactAfter(apply, batchSize, m, run)
  {
    var flaky, healthy: seq<Fault> := [SetFails(false)], [];
    var r1: seq<Action<E>> := [Append(es)];
    var r2: seq<Action<E>> := r1 + [Call(false, flaky, [])];
    var r3: seq<Action<E>> := r2 + [Call(false, healthy, [])];
    assert r1[..0] == [] && r2[..1] == r1 && r3[..2] == r2;
    assert [] + es == es && es[0..|es|] == es;
    var w1 := World(es, State(None, m, []), false);
    assert DoAll(apply, batchSize, m, r1) == w1;
    var w2 := Do(apply, batchSize, w1, Call(false, flaky, []));
    assert w2.state.model == apply(m, es) && w2.state.offset.None? && w2.log == es;
    WholeCall(apply, es, batchSize, w2.state);
    var w3 := Do(apply, batchSize, w2, Call(false, healthy, []));
    assert w3.ok && w3.log == es && w3.state.model == apply(apply(m, es), es);
    assert DoAll(apply, batchSize, m, r2) == w2;
    assert DoAll(apply, batchSize, m, r3) == w3;
    assert !ExactAfter(apply, batchSize, m, r3);
  }

  /** A call without faults and without an offset handles a log that fits into one batch. */
  lemma WholeCall<M, E>(apply: (M, seq<E>) -> M, log: seq<E>, batchSize: nat, s: State<M>)
    requires s.offset.None? && 0 < |log| <= batchSize
    ensures var r := Catchup(apply, log, [], batchSize, s, 0, [], 0, 0, None);
            r.ok && r.log == log && r.state.model == apply(s.model, log)
  {
    assert log[0..|log|] == log;
    var r := RoundOf(apply, log, batchSize, s, 0, NoFault);
    assert r.state.model == apply(s.model, log) && r.count == |log|;
    if r.Continued? {
      assert RoundOf(apply, log, batchSize, r.state, |log|, NoFault) == Stopped(r.state, 0, true);
    }
  }

  /**
   For a projector that may handle batches in pieces: every run, with every batch size and from
   every initial read model, ends exact after a successful call if and only if it is idempotent.
   */
  lemma ExactIffIdempotent<M(!new), E(!new)>(apply: (M, seq<E>) -> M)
    requires Sequential(apply)
    ensures Idempotent(apply) <==>
            forall batchSize: nat, init: M, run: seq<Action<E>> :: ExactAfter(apply, batchSize, init, run)
  {
    if Idempotent(apply) {
      forall batchSize: nat, init: M, run: seq<Action<E>>
        ensures ExactAfter(apply, batchSize, init, run)
      {
        if batchSize > 0 {
          RunIsExact(apply, batchSize, init, run);
        }
      }
    } else {
      var m, es :| !HandledTwice(apply, m, es);
      assert |es| == 0 ==> es == [];
      IdempotenceIsNeeded(apply, m, es, |es|);
    }
  }
}
