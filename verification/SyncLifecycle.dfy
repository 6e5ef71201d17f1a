/**
 The life cycle of a sync manager (synckit/sync_state.go and Sync, Push, Pull in
 synckit/manager.go): which states a call passes through for every outcome of the store, the
 transport, the resolver and the projections, and when it leaves the machine idle.
 */
module SyncLifecycle {
  import opened Basics
  import opened StateMachines
  import SyncProtocol

  datatype SyncState =
    | SyncIdle | SyncInitializing | SyncPushing | SyncPulling
    | SyncResolvingConflicts | SyncCompleted | SyncFailed | SyncCancelled

  /** The table of NewSyncStateMachine. */
  function SyncRules(): map<SyncState, seq<SyncState>> {
    map[
      SyncIdle := [SyncInitializing],
      SyncInitializing := [SyncPushing, SyncPulling, SyncFailed, SyncCancelled],
      SyncPushing := [SyncPulling, SyncCompleted, SyncFailed, SyncCancelled],
      SyncPulling := [SyncPushing, SyncResolvingConflicts, SyncCompleted, SyncFailed, SyncCancelled],
      SyncResolvingConflicts := [SyncCompleted, SyncFailed, SyncCancelled],
      SyncCompleted := [SyncIdle],
      SyncFailed := [SyncIdle],
      SyncCancelled := [SyncIdle]
    ]
  }

  /** The same table, read as a relation. */
  predicate Follows(from: SyncState, to: SyncState) {
    match from
    case SyncIdle => to.SyncInitializing?
    case SyncInitializing => to.SyncPushing? || to.SyncPulling? || to.SyncFailed? || to.SyncCancelled?
    case SyncPushing => to.SyncPulling? || to.SyncCompleted? || to.SyncFailed? || to.SyncCancelled?
    case SyncPulling =>
      to.SyncPushing? || to.SyncResolvingConflicts? || to.SyncCompleted? || to.SyncFailed? || to.SyncCancelled?
    case SyncResolvingConflicts => to.SyncCompleted? || to.SyncFailed? || to.SyncCancelled?
    case _ => to.SyncIdle?
  }

  lemma TableIsRelation(from: SyncState, to: SyncState)
    ensures Allows(SyncRules(), from, to) <==> Follows(from, to)
  {
  }

  /** The table read by its targets. */
  lemma TableByTarget(s: SyncState)
    ensures Allows(SyncRules(), s, SyncInitializing) <==> s == SyncIdle
    ensures Allows(SyncRules(), s, SyncPulling) <==> s in [SyncInitializing, SyncPushing]
    ensures Allows(SyncRules(), s, SyncPushing) <==> s in [SyncInitializing, SyncPulling]
    ensures Allows(SyncRules(), s, SyncResolvingConflicts) <==> s == SyncPulling
    ensures Allows(SyncRules(), s, SyncCompleted) <==> s in [SyncPushing, SyncPulling, SyncResolvingConflicts]
    ensures Allows(SyncRules(), s, SyncFailed) <==>
            s in [SyncInitializing, SyncPushing, SyncPulling, SyncResolvingConflicts]
    ensures Allows(SyncRules(), s, SyncCancelled) <==> Allows(SyncRules(), s, SyncFailed)
    ensures Allows(SyncRules(), s, SyncIdle) <==> s in [SyncCompleted, SyncFailed, SyncCancelled]
  {
  }

  predicate CanAutoSync(s: SyncState) {
    s == SyncIdle
  }

  type Options = SyncProtocol.Options

  /** What a pull meets: whether it detects conflicts, and whether it ends in an error. */
  datatype PullFate = PullFate(conflicts: bool, fails: bool)

  datatype Fate = Fate(pull: PullFate, pushFails: bool, projectionsFail: bool, versionFails: bool)

  datatype Answer = Rejected | Answered(errors: nat, pushed: bool)

  /** A pull inside this sync detects conflicts. */
  predicate MeetsConflicts(opts: Options, fate: Fate) {
    !opts.pushOnly && fate.pull.conflicts
  }

  /** A sync that resolved conflicts cannot go on to push: the table does not allow it. */
  predicate PushBlocked(opts: Options, fate: Fate) {
    MeetsConflicts(opts, fate) && !opts.pullOnly
  }

  predicate Pushes(opts: Options, fate: Fate) {
    !opts.pullOnly && !MeetsConflicts(opts, fate)
  }

  /** The errors recorded in the phases of a sync. */
  function PhaseErrors(opts: Options, fate: Fate): nat {
    (if !opts.pushOnly && fate.pull.fails then 1 else 0) +
    (if PushBlocked(opts, fate) then 1 else 0) +
    (if Pushes(opts, fate) && fate.pushFails then 1 else 0)
  }

  /** All errors: projections run only after phases without error, and a blocked sync stops early. */
  function Errors(opts: Options, fate: Fate): nat {
    PhaseErrors(opts, fate) +
    (if PushBlocked(opts, fate) then 0 else
      (if PhaseErrors(opts, fate) == 0 && fate.projectionsFail then 1 else 0) +
      (if fate.versionFails then 1 else 0))
  }

  /** Neither phase runs and nothing goes wrong: there is no way out of the initial phase. */
  predicate Stuck(opts: Options, fate: Fate) {
    opts.pushOnly && opts.pullOnly && Errors(opts, fate) == 0
  }

  function PullPath(opts: Options, fate: Fate): seq<SyncState> {
    if opts.pushOnly then []
    else if fate.pull.conflicts then [SyncPulling, SyncResolvingConflicts]
    else [SyncPulling]
  }

  function PushPath(opts: Options, fate: Fate): seq<SyncState> {
    if Pushes(opts, fate) then [SyncPushing] else []
  }

  function EndPath(opts: Options, fate: Fate): seq<SyncState> {
    if Stuck(opts, fate) then []
    else if Errors(opts, fate) > 0 then [SyncFailed, SyncIdle]
    else [SyncCompleted, SyncIdle]
  }

  /** The states a sync enters from idle. */
  function Path(opts: Options, fate: Fate): seq<SyncState> {
    [SyncInitializing] + PullPath(opts, fate) + PushPath(opts, fate) + EndPath(opts, fate)
  }

  class Manager {
    const machine: Machine<SyncState>
    const options: Options
    var closed: bool

    // Every state entered so far.
    ghost var entered: seq<SyncState>

    ghost predicate Valid()
      reads this, machine
    {
      machine.config.rules == SyncRules() && machine.validator.None?
    }

    constructor (options: Options, now: int)
      ensures Valid() && fresh(machine) && machine.state == SyncIdle
      ensures this.options == options && !closed && entered == []
    {
      this.options := options;
      machine := new Machine(Config(SyncIdle, SyncRules(), None, 50), now);
      entered, closed := [], false;
    }

    method Close()
      modifies this`closed
      ensures closed
    {
      closed := true;
    }

    method Move(to: SyncState, now: int) returns (ok: bool)
      requires Valid()
      modifies this`entered, machine
      ensures Valid() && ok == Follows(old(machine.state), to)
      ensures machine.state == if ok then to else old(machine.state)
      ensures entered == if ok then old(entered) + [to] else old(entered)
    {
      TableIsRelation(machine.state, to);
      var err := machine.TransitionTo(to, now);
      ok := err.None?;
      if ok {
        entered := entered + [to];
      }
    }

    /** The deferred end of a sync: the final state, then idle. */
    method FinishSync(errors: nat, now: int)
      requires Valid()
      modifies this`entered, machine
      ensures Valid()
      ensures var final := if errors > 0 then SyncFailed else SyncCompleted;
              if Follows(old(machine.state), final)
              then machine.state == SyncIdle && entered == old(entered) + [final, SyncIdle]
              else if Follows(old(machine.state), SyncIdle)
              then machine.state == SyncIdle && entered == old(entered) + [SyncIdle]
              else machine.state == old(machine.state) && entered == old(entered)
    {
      hide SyncRules;
      var final := if errors > 0 then SyncFailed else SyncCompleted;
      var _ := Move(final, now);
      var _ := Move(SyncIdle, now);
    }
  }

  function StateAfterPull(opts: Options, fate: Fate): SyncState {
    if opts.pushOnly then SyncInitializing
    else if fate.pull.conflicts then SyncResolvingConflicts
    else SyncPulling
  }

  /** The final state can be entered after the last phase unless the sync is stuck. */
  lemma EndStates(opts: Options, fate: Fate, s: SyncState)
    requires s == if Pushes(opts, fate) then SyncPushing else StateAfterPull(opts, fate)
    ensures Stuck(opts, fate) ==> !Follows(s, SyncCompleted) && !Follows(s, SyncIdle) && EndPath(opts, fate) == []
    ensures !Stuck(opts, fate) ==>
              var final := if Errors(opts, fate) > 0 then SyncFailed else SyncCompleted;
              Follows(s, final) && EndPath(opts, fate) == [final, SyncIdle]
  {
  }

  /** A sync from idle ends idle exactly when some phase runs or some error is recorded. */
  lemma EndsIdleExactly(opts: Options, fate: Fate)
    ensures Path(opts, fate)[|Path(opts, fate)| - 1] == SyncIdle <==>
            !(opts.pushOnly && opts.pullOnly) || fate.projectionsFail || fate.versionFails
  {
  }

  /**
   It passes through Failed exactly when it records an error, and through Completed exactly when
   it records none and does not get stuck.
   */
  lemma PassesThroughVerdict(opts: Options, fate: Fate)
    ensures SyncFailed in Path(opts, fate) <==> Errors(opts, fate) > 0
    ensures SyncCompleted in Path(opts, fate) <==> Errors(opts, fate) == 0 && !Stuck(opts, fate)
  {
  }

  /**
   A sync enters the pushing state exactly when it is to push and has not met conflicts; a
   two-way sync that has met some always ends in failure.
   */
  lemma PushesExactly(opts: Options, fate: Fate)
    ensures SyncPushing in Path(opts, fate) <==> !opts.pullOnly && (opts.pushOnly || !fate.pull.conflicts)
    ensures !opts.pushOnly && !opts.pullOnly && fate.pull.conflicts ==>
              SyncFailed in Path(opts, fate) && SyncCompleted !in Path(opts, fate)
  {
  }

  /** A call on a manager. */
  datatype CallOp = CallSync(fate: Fate) | CallPull(pullFate: PullFate) | CallPush

  /** The state after a call that finds the machine in the given state. */
  function AfterCall(opts: Options, s: SyncState, call: CallOp): SyncState {
    match call
    case CallSync(fate) => if !CanAutoSync(s) then s else if Stuck(opts, fate) then SyncInitializing else SyncIdle
    case CallPull(fate) => if fate.conflicts && Follows(s, SyncResolvingConflicts) then SyncResolvingConflicts else s
    case CallPush => s
  }

  function AfterCalls(opts: Options, calls: seq<CallOp>): SyncState {
    if |calls| == 0 then SyncIdle else AfterCall(opts, AfterCalls(opts, calls[..|calls| - 1]), calls[|calls| - 1])
  }

  /**
   Sequential calls leave the machine idle at every boundary, so that the next sync is
   accepted, exactly when no sync among them got stuck; once one did, every later sync is
   rejected.
   */
  lemma {:induction false} CallsLeaveIdle(opts: Options, calls: seq<CallOp>)
    ensures AfterCalls(opts, calls) == SyncIdle <==>
            forall k :: 0 <= k < |calls| && calls[k].CallSync? ==> !Stuck(opts, calls[k].fate)
    ensures AfterCalls(opts, calls) == SyncIdle || AfterCalls(opts, calls) == SyncInitializing
    decreases |calls|
  {
    if |calls| > 0 {
      var front := calls[..|calls| - 1];
      CallsLeaveIdle(opts, front);
      assert forall k :: 0 <= k < |front| ==> calls[k] == front[k];
      if exists k :: 0 <= k < |front| && front[k].CallSync? && Stuck(opts, front[k].fate) {
        var k :| 0 <= k < |front| && front[k].CallSync? && Stuck(opts, front[k].fate);
        assert calls[k].CallSync? && Stuck(opts, calls[k].fate);
      }
    }
  }

  /** Unless both restrictions are set, sequential calls always leave the machine idle. */
  lemma OneDirectionIsEnough(opts: Options, calls: seq<CallOp>)
    requires !(opts.pushOnly && opts.pullOnly)
    ensures AfterCalls(opts, calls) == SyncIdle
  {
    CallsLeaveIdle(opts, calls);
  }
}
