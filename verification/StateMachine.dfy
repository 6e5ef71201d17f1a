/**
 The generic state machine (synckit/statemachine/machine.go, types.go): a table of allowed
 transitions, an optional validator, a bounded history, snapshots and their restoration.
 Calls are sequential; times are passed in.
 */
module StateMachines {
  import opened Basics

  datatype Transition<T> = Transition(from: T, to: T, at: int, duration: int)

  datatype Config<!T(==)> = Config(
    initial: T, rules: map<T, seq<T>>, validator: Option<(T, T) -> bool>, maxHistory: int)

  datatype TransitionError = InvalidTransition | ValidationFailed

  /** TransitionRules.Contains. */
  predicate Allows<T(==)>(rules: map<T, seq<T>>, from: T, to: T) {
    from in rules && to in rules[from]
  }

  predicate Approves<T>(validator: Option<(T, T) -> bool>, from: T, to: T) {
    validator.None? || validator.value(from, to)
  }

  /** The whole state of a machine.  The validator in use was copied from the configuration once. */
  datatype View<!T(==)> = View(
    config: Config<T>, validator: Option<(T, T) -> bool>, state: T, stateStart: int, history: seq<Transition<T>>)

  predicate Accepts<T(==)>(v: View<T>, to: T) {
    Allows(v.config.rules, v.state, to) && Approves(v.validator, v.state, to)
  }

  /** addToHistory: one element longer, and the oldest element dropped when that is too long. */
  function Remembered<T>(history: seq<T>, t: T, max: int): seq<T> {
    var longer := history + [t];
    if |longer| > max then longer[1..] else longer
  }

  function Record<T(==)>(v: View<T>, to: T, now: int): Transition<T> {
    Transition(v.state, to, now, now - v.stateStart)
  }

  /** A transition request: an accepted one moves the machine, a rejected one changes nothing. */
  function Step<T(==)>(v: View<T>, to: T, now: int): View<T> {
    if !Accepts(v, to) then v else
      v.(state := to, stateStart := now, history := Remembered(v.history, Record(v, to, now), v.config.maxHistory))
  }

  class Machine<T(==,!new)> {
    var config: Config<T>
    var validator: Option<(T, T) -> bool>
    var state: T
    var stateStart: int
    var history: seq<Transition<T>>

    ghost function AsView(): View<T>
      reads this
    {
      View(config, validator, state, stateStart, history)
    }

    /** A history size that is not positive stands for 50. */
    constructor (config: Config<T>, now: int)
      ensures AsView() == Fresh(config, now)
      ensures this.config == config.(maxHistory := if config.maxHistory <= 0 then 50 else config.maxHistory)
      ensures validator == config.validator && state == config.initial && stateStart == now && history == []
    {
      var c := config.(maxHistory := if config.maxHistory <= 0 then 50 else config.maxHistory);
      this.config := c;
      validator, state, stateStart, history := c.validator, c.initial, now, [];
    }

    /** Looks the target up in the list of allowed states. */
    method CanTransition(to: T) returns (allowed: bool)
      ensures allowed == Allows(config.rules, state, to)
    {
      if state !in config.rules {
        return false;
      }
      var targets := config.rules[state];
      for i := 0 to |targets|
        invariant to !in targets[..i]
      {
        if targets[i] == to {
          return true;
        }
      }
      return false;
    }

    method AddToHistory(t: Transition<T>)
      modifies this`history
      ensures history == Remembered(old(history), t, config.maxHistory)
    {
      history := history + [t];
      if |history| > config.maxHistory {
        history := history[1..];
      }
    }

    method TransitionTo(to: T, now: int) returns (err: Option<TransitionError>)
      modifies this
      ensures AsView() == Step(old(AsView()), to, now)
      ensures err == if !Allows(old(config.rules), old(state), to) then Some(InvalidTransition)
                     else if !Approves(old(validator), old(state), to) then Some(ValidationFailed) else None
      ensures var listed := old(state) in old(config.rules) && to in old(config.rules)[old(state)];
              var vetoed := old(validator).Some? && !old(validator).value(old(state), to);
              && (err == Some(InvalidTransition) <==> !listed) && (err == Some(ValidationFailed) <==> listed && vetoed)
      ensures config == old(config) && validator == old(validator)
      ensures err.Some? ==> state == old(state) && stateStart == old(stateStart) && history == old(history)
      ensures err.None? ==>
                && state == to && stateStart == now
                && var longer := old(history) + [Transition(old(state), to, now, now - old(stateStart))];
                   history == if |longer| > config.maxHistory then longer[1..] else longer
    {
      var from := state;
      var allowed := CanTransition(to);
      if !allowed {
        return Some(InvalidTransition);
      }
      if validator.Some? && !validator.value(from, to) {
        return Some(ValidationFailed);
      }
      var t := Transition(from, to, now, now - stateStart);
      state := to;
      stateStart := now;
      AddToHistory(t);
      return None;
    }

    method CreateSnapshot() returns (s: Snapshot<T>)
      ensures s == SnapshotOf(AsView())
      ensures s.config == config && s.state == state && s.stateStart == stateStart && s.history == history
    {
      s := Snapshot(config, state, stateStart, history);
    }

    /** Restores everything but the validator in use. */
    method RestoreFromSnapshot(s: Snapshot<T>)
      modifies this
      ensures AsView() == Restored(old(AsView()), s)
      ensures config == s.config && state == s.state && stateStart == s.stateStart && history == s.history
      ensures validator == old(validator)
    {
      config := s.config;
      state := s.state;
      stateStart := s.stateStart;
      history := s.history;
    }
  }

  /** A new machine. */
  function Fresh<T(==)>(config: Config<T>, now: int): View<T> {
    var c := config.(maxHistory := if config.maxHistory <= 0 then 50 else config.maxHistory);
    View(c, c.validator, c.initial, now, [])
  }

  // ---------------------------------------------------------------- whole runs

  datatype Request<T> = Request(to: T, now: int)

  function Run<T(==)>(v: View<T>, reqs: seq<Request<T>>): View<T> {
    if |reqs| == 0 then v else
      Step(Run(v, reqs[..|reqs| - 1]), reqs[|reqs| - 1].to, reqs[|reqs| - 1].now)
  }

  /** The true trace: every transition that was accepted, in order. */
  function Trace<T(==)>(v: View<T>, reqs: seq<Request<T>>): seq<Transition<T>> {
    if |reqs| == 0 then [] else
      var before, r := Run(v, reqs[..|reqs| - 1]), reqs[|reqs| - 1];
      Trace(v, reqs[..|reqs| - 1]) + if Accepts(before, r.to) then [Record(before, r.to, r.now)] else []
  }

  /** The last n elements of a sequence, or all of them. */
  function Last<T>(s: seq<T>, n: nat): seq<T> {
    if |s| <= n then s else s[|s| - n..]
  }

  /** The consecutive steps of a walk from one state to another that the table and the validator allow. */
  ghost predicate Walk<T>(v: View<T>, from: T, trace: seq<Transition<T>>, to: T) {
    && (if |trace| == 0 then from == to else trace[0].from == from && trace[|trace| - 1].to == to)
    && (forall k :: 0 < k < |trace| ==>
                      trace[k].from == trace[k - 1].to && trace[k].duration == trace[k].at - trace[k - 1].at)
    && (forall k :: 0 <= k < |trace| ==>
          Allows(v.config.rules, trace[k].from, trace[k].to) && Approves(v.validator, trace[k].from, trace[k].to))
  }

  lemma RememberedIsWindow<T>(history: seq<T>, all: seq<T>, t: T, max: nat)
    requires max > 0 && history == Last(all, max)
    ensures Remembered(history, t, max) == Last(all + [t], max)
  {
  }

  lemma WalkOneMore<T>(v: View<T>, from: T, trace: seq<Transition<T>>, t: Transition<T>)
    requires Walk(v, from, trace, t.from)
    requires Allows(v.config.rules, t.from, t.to) && Approves(v.validator, t.from, t.to)
    requires |trace| > 0 ==> t.duration == t.at - trace[|trace| - 1].at
    ensures Walk(v, from, trace + [t], t.to)
  {
  }

  /**
   In every run of a new machine, the history is exactly the last MaxHistorySize steps of the
   true trace, and the trace is a walk of allowed steps from the initial to the current state.
   */
  lemma {:induction false} HistoryIsWindow<T(!new)>(config: Config<T>, start: int, reqs: seq<Request<T>>)
    ensures var v0 := Fresh(config, start);
            var v := Run(v0, reqs);
            && v.config == v0.config && v.validator == v0.validator
            && v.history == Last(Trace(v0, reqs), v0.config.maxHistory)
            && Walk(v0, config.initial, Trace(v0, reqs), v.state)
            && v.stateStart == (if |Trace(v0, reqs)| == 0 then start else Trace(v0, reqs)[|Trace(v0, reqs)| - 1].at)
    decreases |reqs|
  {
    if |reqs| > 0 {
      var front, r := reqs[..|reqs| - 1], reqs[|reqs| - 1];
      HistoryIsWindow(config, start, front);
      var v0 := Fresh(config, start);
      var v, trace := Run(v0, front), Trace(v0, front);
      hide Walk, Last, Remembered;
      if Accepts(v, r.to) {
        RememberedIsWindow(v.history, trace, Record(v, r.to, r.now), v0.config.maxHistory);
        WalkOneMore(v0, config.initial, trace, Record(v, r.to, r.now));
      } else {
        assert trace + [] == trace;
      }
    }
  }

  // ---------------------------------------------------------------- snapshots

  datatype Snapshot<!T(==)> = Snapshot(config: Config<T>, state: T, stateStart: int, history: seq<Transition<T>>)

  function SnapshotOf<T(==)>(v: View<T>): Snapshot<T> {
    Snapshot(v.config, v.state, v.stateStart, v.history)
  }

  function Restored<T(==)>(v: View<T>, s: Snapshot<T>): View<T> {
    v.(config := s.config, state := s.state, stateStart := s.stateStart, history := s.history)
  }

  /** Two machines that differ at most in their validator. */
  ghost predicate Twins<T>(a: View<T>, b: View<T>) {
    b == a.(validator := b.validator)
  }

  /** No sequence of requests can tell the two machines apart. */
  ghost predicate BehaveAlike<T(!new)>(a: View<T>, b: View<T>) {
    forall reqs: seq<Request<T>> :: Twins(Run(a, reqs), Run(b, reqs))
  }

  ghost predicate CanReach<T(!new)>(v: View<T>, state: T) {
    exists reqs: seq<Request<T>> :: Run(v, reqs).state == state
  }

  /** The validators agree on every allowed transition out of a state that the machine can reach. */
  ghost predicate AgreeWhereReachable<T(!new)>(a: View<T>, b: View<T>) {
    forall from: T, to: T :: CanReach(a, from) && Allows(a.config.rules, from, to) ==>
      (Approves(a.validator, from, to) <==> Approves(b.validator, from, to))
  }

  lemma {:induction false} RunKeepsConfig<T(!new)>(v: View<T>, reqs: seq<Request<T>>)
    ensures Run(v, reqs).config == v.config && Run(v, reqs).validator == v.validator
    decreases |reqs|
  {
    if |reqs| > 0 {
      RunKeepsConfig(v, reqs[..|reqs| - 1]);
    }
  }

  lemma {:induction false} TwinsStayTwins<T(!new)>(a: View<T>, b: View<T>, reqs: seq<Request<T>>)
    requires Twins(a, b) && AgreeWhereReachable(a, b)
    ensures Twins(Run(a, reqs), Run(b, reqs))
    decreases |reqs|
  {
    if |reqs| > 0 {
      var front, r := reqs[..|reqs| - 1], reqs[|reqs| - 1];
      TwinsStayTwins(a, b, front);
      RunKeepsConfig(a, front);
      RunKeepsConfig(b, front);
      assert CanReach(a, Run(a, front).state);
    }
  }

  lemma TwinsMustAgree<T(!new)>(a: View<T>, b: View<T>, from: T, to: T)
    requires Twins(a, b) && BehaveAlike(a, b)
    requires CanReach(a, from) && Allows(a.config.rules, from, to)
    ensures Approves(a.validator, from, to) <==> Approves(b.validator, from, to)
  {
    var reqs: seq<Request<T>> :| Run(a, reqs).state == from;
    var now := Run(a, reqs).stateStart + 1;
    var more := reqs + [Request(to, now)];
    assert more[..|reqs|] == reqs;
    RunKeepsConfig(a, reqs);
    RunKeepsConfig(b, reqs);
    assert Twins(Run(a, reqs), Run(b, reqs)) && Twins(Run(a, more), Run(b, more));
    assert Run(a, more) == Step(Run(a, reqs), to, now) && Run(b, more) == Step(Run(b, reqs), to, now);
  }

  /**
   A machine restored from a snapshot of another accepts and rejects every later sequence of
   requests as the original would, with the same states and history, exactly when the two
   validators agree wherever the original can get to.
   */
  lemma RestoreIsFaithful<T(!new)>(original: View<T>, other: View<T>)
    ensures var restored := Restored(other, SnapshotOf(original));
            BehaveAlike(original, restored) <==> AgreeWhereReachable(original, restored)
  {
    var restored := Restored(other, SnapshotOf(original));
    if AgreeWhereReachable(original, restored) {
      forall reqs: seq<Request<T>>
        ensures Twins(Run(original, reqs), Run(restored, reqs))
      {
        TwinsStayTwins(original, restored, reqs);
      }
    }
    if BehaveAlike(original, restored) {
      forall from: T, to: T | CanReach(original, from) && Allows(original.config.rules, from, to)
        ensures Approves(original.validator, from, to) <==> Approves(restored.validator, from, to)
      {
        TwinsMustAgree(original, restored, from, to);
      }
    }
  }
}
