/**
 Sync of a manager with state tracking (synckit/manager.go:39-208): the logs of SyncProtocol and
 the states of SyncLifecycle together.  What each phase meets is computed from the two logs, not
 given.
 */
module SyncSession {
  import opened Versions
  import opened MemStores
  import opened SyncProtocol
  import opened SyncLifecycle
  import opened PullConflicts
  import ConflictDetection
  import Resolvers

  /** What a sync meets from outside: failures of its phases, another writer, and failures after the phases. */
  datatype Surroundings = Surroundings(env: SyncEnv, other: Meanwhile, projectionsFail: bool, versionFails: bool)

  function Seen(around: Surroundings, storeClosed: bool, transportClosed: bool): Surroundings {
    Surroundings(SyncSeen(around.env, storeClosed, transportClosed), MeanwhileSeen(around.other, storeClosed),
                 around.projectionsFail, around.versionFails || storeClosed)
  }

  /** What the settings of a manager decide. */
  datatype Settings = Settings(opts: Options, keep: Event -> bool, resolve: Resolvers.Strategy)

  /** The pull phase of a sync, in which conflicts may be resolved; without it the logs stay as they are. */
  function PullPart(cfg: Settings, local: Log, remote: seq<EventWithVersion>, around: Surroundings): PullOutcome {
    if cfg.opts.pushOnly then PullOutcome(local, [], true)
    else PullAmid(cfg.keep, cfg.resolve, local, remote, around.env.pull, around.other, true)
  }

  /** What the phases of a sync meet, as a function of the two logs. */
  function FateOfSync(cfg: Settings, local: Log, remote: seq<EventWithVersion>, around: Surroundings): Fate {
    var p := PullPart(cfg, local, remote, around);
    Fate(PullFate(|p.conflicts| > 0, !p.ok),
         !AfterPush(cfg.opts, cfg.keep, p.local, remote, around.env.push).1,
         around.projectionsFail, around.versionFails)
  }

  /** The two logs after a sync: a sync that met conflicts cannot enter the pushing state. */
  function LogsAfter(cfg: Settings, local: Log, remote: seq<EventWithVersion>, around: Surroundings)
    : (Log, seq<EventWithVersion>)
  {
    var p := PullPart(cfg, local, remote, around);
    (p.local,
     if cfg.opts.pullOnly || |p.conflicts| > 0 then remote
     else AfterPush(cfg.opts, cfg.keep, p.local, remote, around.env.push).0)
  }

  class Session {
    const sync: SyncManager
    const lifecycle: Manager

    ghost predicate Valid()
      reads this, sync.store, lifecycle, lifecycle.machine
    {
      sync.store.Valid() && lifecycle.Valid() && lifecycle.options == sync.options
    }

    ghost function GetSettings(): Settings {
      Settings(sync.options, sync.keep, sync.resolve)
    }

    constructor (sync: SyncManager, now: int)
      requires sync.store.Valid()
      ensures Valid() && this.sync == sync && fresh(lifecycle) && fresh(lifecycle.machine)
      ensures lifecycle.machine.state == SyncIdle && !lifecycle.closed && lifecycle.entered == []
    {
      this.sync := sync;
      lifecycle := new Manager(sync.options, now);
    }

    /** pull: the conflict state is entered before anything is resolved; where it cannot be, nothing is stored. */
    method Pull(env: PullEnv, other: Meanwhile, now: int) returns (conflicts: bool, ok: bool)
      requires Valid()
      modifies sync.store, lifecycle`entered, lifecycle.machine
      ensures Valid() && sync.store.closed == old(sync.store.closed)
      ensures var mayResolve := Follows(old(lifecycle.machine.state), SyncResolvingConflicts);
              var p := PullAmid(sync.keep, sync.resolve, old(sync.store.Log()), sync.transport.events,
                                PullSeen(env, sync.store.closed, sync.transport.closed),
                                MeanwhileSeen(other, sync.store.closed), mayResolve);
              var resolving := mayResolve && |p.conflicts| > 0;
              && sync.store.Log() == p.local && ok == p.ok && conflicts == (|p.conflicts| > 0)
              && lifecycle.machine.state == (if resolving then SyncResolvingConflicts else old(lifecycle.machine.state))
              && lifecycle.machine.state ==
                 AfterCall(sync.options, old(lifecycle.machine.state), CallPull(PullFate(|p.conflicts| > 0, !p.ok)))
              && lifecycle.entered ==
                 (if resolving then old(lifecycle.entered) + [SyncResolvingConflicts] else old(lifecycle.entered))
    {
      hide Fetch, Settled, Disturbed, MemStore.Valid, MemStore.Log, SyncRules;
      var f := sync.FetchRemote(env, other);
      if f.Nothing? {
        return false, f.ok;
      }
      if |f.conflicts| > 0 {
        var entered := lifecycle.Move(SyncResolvingConflicts, now);
        if !entered {
          return true, true;
        }
      }
      var _, stored := sync.Settle(f.theirs, f.conflicts, other.cancelled, env.storeFault);
      return |f.conflicts| > 0, stored;
    }

    /** The pull phase of a sync. */
    method PullPhase(around: Surroundings, now: int) returns (errors: nat)
      requires Valid() && lifecycle.machine.state == SyncInitializing
      modifies sync.store, lifecycle`entered, lifecycle.machine
      ensures Valid() && sync.store.closed == old(sync.store.closed)
      ensures var seen := Seen(around, sync.store.closed, sync.transport.closed);
              var p := PullPart(GetSettings(), old(sync.store.Log()), sync.transport.events, seen);
              var fate := FateOfSync(GetSettings(), old(sync.store.Log()), sync.transport.events, seen);
              && sync.store.Log() == p.local && errors == (if p.ok then 0 else 1)
              && lifecycle.entered == old(lifecycle.entered) + PullPath(sync.options, fate)
              && lifecycle.machine.state == StateAfterPull(sync.options, fate)
    {
      hide PullAmid, AfterPush, MemStore.Valid, MemStore.Log, SyncRules;
      if sync.options.pushOnly {
        return 0;
      }
      var _ := lifecycle.Move(SyncPulling, now);
      var _, ok := Pull(around.env.pull, around.other, now);
      return if ok then 0 else 1;
    }

    /** The push phase of a sync, which ends the sync when the pushing state cannot be entered. */
    method PushPhase(env: PushEnv, now: int) returns (errors: nat, pushed: bool, blocked: bool)
      requires Valid()
      modifies sync.transport`events, lifecycle`entered, lifecycle.machine
      ensures Valid()
      ensures var state := old(lifecycle.machine.state);
              var enters := !sync.options.pullOnly && Follows(state, SyncPushing);
              var (remote', ok) := AfterPush(sync.options, sync.keep, sync.store.Log(), old(sync.transport.events),
                                             PushSeen(env, sync.store.closed, sync.transport.closed));
              && sync.transport.events == (if enters then remote' else old(sync.transport.events))
              && lifecycle.machine.state == (if enters then SyncPushing else state)
              && lifecycle.entered ==
                 (if enters then old(lifecycle.entered) + [SyncPushing] else old(lifecycle.entered))
              && blocked == (!sync.options.pullOnly && !enters) && pushed == (enters && ok)
              && errors == (if blocked || (enters && !ok) then 1 else 0)
    {
      hide AfterPush, MemStore.Valid, MemStore.Log, SyncRules;
      if sync.options.pullOnly {
        return 0, false, false;
      }
      var entered := lifecycle.Move(SyncPushing, now);
      if !entered {
        return 1, false, true;
      }
      var _, ok := sync.Push(env);
      return if ok then 0 else 1, ok, false;
    }

    /** Both phases, as far as they run. */
    method Phases(around: Surroundings, now: int) returns (errors: nat, pushed: bool, blocked: bool)
      requires Valid() && lifecycle.machine.state == SyncInitializing
      modifies sync.store, sync.transport`events, lifecycle`entered, lifecycle.machine
      ensures Valid() && sync.store.closed == old(sync.store.closed)
      ensures var seen := Seen(around, sync.store.closed, sync.transport.closed);
              var fate := FateOfSync(GetSettings(), old(sync.store.Log()), old(sync.transport.events), seen);
              && (sync.store.Log(), sync.transport.events) ==
                 LogsAfter(GetSettings(), old(sync.store.Log()), old(sync.transport.events), seen)
              && lifecycle.entered ==
                 old(lifecycle.entered) + PullPath(sync.options, fate) + PushPath(sync.options, fate)
              && lifecycle.machine.state ==
                 (if Pushes(sync.options, fate) then SyncPushing else StateAfterPull(sync.options, fate))
              && errors == PhaseErrors(sync.options, fate) && blocked == PushBlocked(sync.options, fate)
              && pushed == (Pushes(sync.options, fate) && !fate.pushFails)
    {
      hide PullAmid, AfterPush, MemStore.Valid, MemStore.Log, SyncRules, PullPath;
      errors := PullPhase(around, now);
      var pushErrors;
      pushErrors, pushed, blocked := PushPhase(around.env.push, now);
      errors := errors + pushErrors;
    }

    /** The errors recorded after the phases, which a blocked sync does not reach. */
    method CountRest(around: Surroundings, errors: nat, blocked: bool) returns (total: nat)
      requires sync.store.Valid()
      ensures var seen := Seen(around, sync.store.closed, sync.transport.closed);
              total == errors + if blocked then 0 else
                (if errors == 0 && seen.projectionsFail then 1 else 0) + (if seen.versionFails then 1 else 0)
    {
      total := errors;
      if blocked {
        return;
      }
      if errors == 0 && around.projectionsFail {
        total := total + 1;
      }
      var localVersion := sync.store.LatestVersion(around.versionFails);
      if localVersion.Err? {
        total := total + 1;
      }
    }

    /** What follows the phases: the remaining errors, the final state, and idle. */
    method Finish(ghost fate: Fate, around: Surroundings, phaseErrors: nat, blocked: bool, now: int)
      returns (errors: nat)
      requires Valid()
      requires lifecycle.machine.state ==
               if Pushes(sync.options, fate) then SyncPushing else StateAfterPull(sync.options, fate)
      requires phaseErrors == PhaseErrors(sync.options, fate) && blocked == PushBlocked(sync.options, fate)
      requires var seen := Seen(around, sync.store.closed, sync.transport.closed);
               fate.projectionsFail == seen.projectionsFail && fate.versionFails == seen.versionFails
      modifies lifecycle`entered, lifecycle.machine
      ensures Valid() && errors == Errors(sync.options, fate)
      ensures lifecycle.entered == old(lifecycle.entered) + EndPath(sync.options, fate)
      ensures lifecycle.machine.state == if Stuck(sync.options, fate) then SyncInitializing else SyncIdle
    {
      hide MemStore.Valid, MemStore.Log, SyncRules, PhaseErrors, EndPath;
      errors := CountRest(around, phaseErrors, blocked);
      EndStates(sync.options, fate, lifecycle.machine.state);
      lifecycle.FinishSync(errors, now);
    }

    /**
     Sync.  From idle it leaves the logs `LogsAfter` says, enters exactly the states of `Path` for
     what its phases met, and records exactly the errors of that; otherwise it is rejected and
     changes nothing.
     */
    method Sync(around: Surroundings, now: int) returns (r: Answer)
      requires Valid()
      modifies sync.store, sync.transport`events, lifecycle`entered, lifecycle.machine
      ensures Valid() && sync.store.closed == old(sync.store.closed)
      ensures r.Rejected? <==> lifecycle.closed || old(lifecycle.machine.state) != SyncIdle
      ensures r.Rejected? ==>
                && sync.store.Log() == old(sync.store.Log()) && sync.transport.events == old(sync.transport.events)
                && lifecycle.machine.state == old(lifecycle.machine.state)
                && lifecycle.entered == old(lifecycle.entered)
      ensures r.Answered? ==>
                var seen := Seen(around, sync.store.closed, sync.transport.closed);
                var fate := FateOfSync(GetSettings(), old(sync.store.Log()), old(sync.transport.events), seen);
                && (sync.store.Log(), sync.transport.events) ==
                   LogsAfter(GetSettings(), old(sync.store.Log()), old(sync.transport.events), seen)
                && lifecycle.entered == old(lifecycle.entered) + Path(sync.options, fate)
                && lifecycle.machine.state == AfterCall(sync.options, SyncIdle, CallSync(fate))
                && r.errors == Errors(sync.options, fate)
                && r.pushed == (Pushes(sync.options, fate) && !fate.pushFails)
    {
      hide FateOfSync, LogsAfter, MemStore.Valid, MemStore.Log, SyncRules, Seen;
      hide PullPath, PushPath, EndPath, PhaseErrors, PushBlocked, Pushes, Errors, Stuck, StateAfterPull;
      if lifecycle.closed {
        return Rejected;
      }
      if !CanAutoSync(lifecycle.machine.state) {
        return Rejected;
      }
      ghost var seen := Seen(around, sync.store.closed, sync.transport.closed);
      ghost var fate := FateOfSync(GetSettings(), sync.store.Log(), sync.transport.events, seen);
      FateKeepsRest(GetSettings(), sync.store.Log(), sync.transport.events, seen);
      var _ := lifecycle.Move(SyncInitializing, now);
      var phaseErrors, pushed, blocked := Phases(around, now);
      var errors := Finish(fate, around, phaseErrors, blocked, now);
      return Answered(errors, pushed);
    }
  }

  lemma FateKeepsRest(cfg: Settings, local: Log, remote: seq<EventWithVersion>, around: Surroundings)
    ensures var fate := FateOfSync(cfg, local, remote, around);
            fate.projectionsFail == around.projectionsFail && fate.versionFails == around.versionFails
  {
  }

  // ---------------------------------------------------------------- the two models meet

  /** A sync that nobody disturbs leaves the logs of `AfterSync`, and records no error exactly when nothing failed. */
  lemma QuietSyncMeets(cfg: Settings, local: Log, remote: seq<EventWithVersion>, around: Surroundings)
    requires |around.other.stored| == 0
    ensures var r := AfterSync(cfg.opts, cfg.keep, local, remote, around.env);
            var fate := FateOfSync(cfg, local, remote, around);
            && LogsAfter(cfg, local, remote, around) == (r.local, r.remote) && !fate.pull.conflicts
            && (Errors(cfg.opts, fate) == 0 <==> r.ok && !around.projectionsFail && !around.versionFails)
  {
    hide PullAmid, AfterPull, AfterPush;
    QuietPull(cfg.keep, cfg.resolve, local, remote, around.env.pull, around.other, true);
  }

  /**
   A two-way sync whose reads succeed and find something enters the pushing state exactly when no
   event stored locally meanwhile clashes with a pulled one; otherwise it fails and the remote log
   stays as it was.
   */
  lemma PushesUnlessClash(cfg: Settings, local: Log, remote: seq<EventWithVersion>, around: Surroundings)
    requires !cfg.opts.pushOnly && !cfg.opts.pullOnly
    requires Fetch(cfg.keep, local, remote, around.env.pull, around.other).Fetched?
    ensures var fate := FateOfSync(cfg, local, remote, around);
            var clean := NoClash(Mine(local, around.other), Theirs(cfg.keep, local, remote));
            && (SyncPushing in Path(cfg.opts, fate) <==> clean)
            && (!clean ==> SyncFailed in Path(cfg.opts, fate) && LogsAfter(cfg, local, remote, around).1 == remote)
  {
    hide AfterPush, Path, NoClash, Mine, Theirs, ConflictDetection.Conflicts;
    ConflictsIffClash(Mine(local, around.other), Theirs(cfg.keep, local, remote));
    PushesExactly(cfg.opts, FateOfSync(cfg, local, remote, around));
  }
}
