/**
 What becomes of logs that have parted: every call only appends, so logs that are not prefixes
 of one another never meet again.  Together with a round that makes prefixes equal, this says
 exactly from which states convergence is possible.
 */
module Divergence {
  import opened Basics
  import opened Versions
  import opened MemStores
  import opened MemChans
  import opened ConflictDetection
  import opened SyncProtocol
  import opened SyncLifecycle
  import opened SyncSession
  import opened PullConflicts
  import opened Convergence
  import Resolvers

  // ---------------------------------------------------------------- unguarded runs

  ghost predicate Runnable(s: System, run: seq<Action>) {
    forall k :: 0 <= k < |run| ==> run[k].client < |s.clients|
  }

  /** The system after any calls at all: any writer, settings, filters, resolvers, failures and disturbances. */
  ghost function After(s: System, run: seq<Action>): (s': System)
    requires Runnable(s, run)
    ensures |s'.clients| == |s.clients|
    decreases |run|
  {
    if |run| == 0 then s else After(Do(s, run[0]), run[1..])
  }

  lemma PullAppends(keep: Event -> bool, resolve: Resolvers.Strategy, local: Log, remote: seq<EventWithVersion>,
                    env: PullEnv, other: Meanwhile, mayResolve: bool)
    ensures local <= PullAmid(keep, resolve, local, remote, env, other, mayResolve).local
  {
    hide Fetch, Incoming;
  }

  lemma PushAppends(opts: Options, keep: Event -> bool, local: Log, remote: seq<EventWithVersion>, env: PushEnv)
    ensures remote <= AfterPush(opts, keep, local, remote, env).0
  {
    hide Outgoing, Delivered;
  }

  /** Every log of the second system extends the same log of the first. */
  ghost predicate Extends(s: System, s': System) {
    && |s'.clients| == |s.clients| && s.remote <= s'.remote
    && forall j :: 0 <= j < |s.clients| ==> s.clients[j] <= s'.clients[j]
  }

  lemma DoAppends(s: System, a: Action)
    requires a.client < |s.clients|
    ensures Extends(s, Do(s, a))
  {
    hide PullAmid, AfterPush;
    var local := s.clients[a.client];
    match a
    case Write(_, _) =>
    case Sync(_, cfg, around) =>
      PullAppends(cfg.keep, cfg.resolve, local, s.remote, around.env.pull, around.other, true);
      PushAppends(cfg.opts, cfg.keep, PullPart(cfg, local, s.remote, around).local, s.remote, around.env.push);
    case Pull(_, cfg, env, other, mayResolve) =>
      PullAppends(cfg.keep, cfg.resolve, local, s.remote, env, other, mayResolve);
    case Push(_, cfg, env) =>
      PushAppends(cfg.opts, cfg.keep, local, s.remote, env);
  }

  lemma {:induction false} AfterAppends(s: System, run: seq<Action>)
    requires Runnable(s, run)
    ensures Extends(s, After(s, run))
    decreases |run|
  {
    hide Do;
    if |run| > 0 {
      DoAppends(s, run[0]);
      AfterAppends(Do(s, run[0]), run[1..]);
    }
  }

  lemma ApartStaysApart(a: Log, b: Log, a': Log, b': Log)
    requires a <= a' && b <= b' && !Comparable(a, b)
    ensures !Comparable(a', b')
  {
    if |a| <= |b| {
      assert a != b[..|a|];
      var i :| 0 <= i < |a| && a[i] != b[i];
      assert a'[i] != b'[i];
    } else {
      assert b != a[..|b|];
      var i :| 0 <= i < |b| && a[i] != b[i];
      assert a'[i] != b'[i];
    }
  }

  /**
   Logs that have parted never meet again: whatever is called afterwards, with any settings,
   filters and failures, they stay incomparable.
   */
  lemma DivergenceIsForever(s: System, run: seq<Action>)
    requires Runnable(s, run)
    ensures var s' := After(s, run);
            && (forall i, j :: 0 <= i < |s.clients| && 0 <= j < |s.clients| && !Comparable(s.clients[i], s.clients[j])
                               ==> !Comparable(s'.clients[i], s'.clients[j]))
            && (forall i :: 0 <= i < |s.clients| && !Comparable(s.clients[i], Strip(s.remote))
                            ==> !Comparable(s'.clients[i], Strip(s'.remote)))
  {
    hide Comparable;
    var s' := After(s, run);
    AfterAppends(s, run);
    assert Strip(s.remote) <= Strip(s'.remote);
    forall i, j | 0 <= i < |s.clients| && 0 <= j < |s.clients| && !Comparable(s.clients[i], s.clients[j])
      ensures !Comparable(s'.clients[i], s'.clients[j])
    {
      ApartStaysApart(s.clients[i], s.clients[j], s'.clients[i], s'.clients[j]);
    }
    forall i | 0 <= i < |s.clients| && !Comparable(s.clients[i], Strip(s.remote))
      ensures !Comparable(s'.clients[i], Strip(s'.remote))
    {
      ApartStaysApart(s.clients[i], Strip(s.remote), s'.clients[i], Strip(s'.remote));
    }
  }

  // ---------------------------------------------------------------- when convergence is possible

  /** All logs are equal, in events and in versions. */
  ghost predicate Converged(s: System) {
    s.remote == Numbered(Strip(s.remote)) && forall i :: 0 <= i < |s.clients| ==> s.clients[i] == Strip(s.remote)
  }

  /** Any two logs are comparable. */
  ghost predicate Chain(s: System) {
    && (forall i :: 0 <= i < |s.clients| ==> Comparable(s.clients[i], Strip(s.remote)))
    && (forall i, j :: 0 <= i < |s.clients| && 0 <= j < |s.clients| ==> Comparable(s.clients[i], s.clients[j]))
  }

  /** All logs hold stored copies. */
  ghost predicate AllNormal(s: System) {
    Normal(Strip(s.remote)) && forall i :: 0 <= i < |s.clients| ==> Normal(s.clients[i])
  }

  /** The remote versions are 1, 2, 3, ... without gaps. */
  ghost predicate HasNoGaps(s: System) {
    s.remote == Numbered(Strip(s.remote))
  }

  /** Some continuation makes all logs equal. */
  ghost predicate CanConverge(s: System) {
    exists run: seq<Action> :: Runnable(s, run) && Converged(After(s, run))
  }

  /** A run of syncs during which nothing new is written. */
  ghost predicate OnlySyncs(run: seq<Action>) {
    forall k :: 0 <= k < |run| ==> run[k].Sync? && |Stores(run[k])| == 0
  }

  ghost predicate SyncingConverges(s: System) {
    exists run: seq<Action> :: Runnable(s, run) && OnlySyncs(run) && Converged(After(s, run))
  }

  predicate KeepEvery(e: Event) {
    true
  }

  const Healthy := SyncEnv(PullEnv(false, false, false, None), PushEnv(false, false, []))

  const TwoWay := Options(0, false, false)

  function UndisturbedSync(i: nat, env: SyncEnv): Action {
    Action.Sync(i, Settings(TwoWay, KeepEvery, Resolvers.DefaultResolver), Surroundings(env, Quiet, false, false))
  }

  function AsRun(round: seq<(nat, SyncEnv)>): seq<Action> {
    seq(|round|, k requires 0 <= k < |round| => UndisturbedSync(round[k].0, round[k].1))
  }

  ghost predicate Fits(s: System, round: seq<(nat, SyncEnv)>) {
    forall k :: 0 <= k < |round| ==> round[k].0 < |s.clients|
  }

  lemma {:induction false} RoundIsRun(s: System, round: seq<(nat, SyncEnv)>)
    requires Fits(s, round)
    ensures Runnable(s, AsRun(round)) && OnlySyncs(AsRun(round))
    ensures After(s, AsRun(round)) == SyncEach(KeepEvery, TwoWay, s, round).0
    decreases |round|
  {
    hide AfterSync, LogsAfter, FateOfSync;
    if |round| > 0 {
      var a := AsRun(round)[0];
      QuietSyncMeets(a.cfg, s.clients[a.client], s.remote, a.around);
      var s1 := SyncAt(KeepEvery, s, round[0].0, TwoWay, round[0].1).0;
      assert Do(s, a) == s1;
      assert AsRun(round)[1..] == AsRun(round[1..]);
      RoundIsRun(s1, round[1..]);
    }
  }

  lemma {:induction false} HealthyRound(s: System, history: Log, round: seq<(nat, SyncEnv)>)
    requires Prefixes(s, history) && Fits(s, round)
    requires forall k :: 0 <= k < |round| ==> round[k].1 == Healthy
    ensures SyncEach(KeepEvery, TwoWay, s, round).1
    decreases |round|
  {
    hide AfterSync, Prefixes;
    if |round| > 0 {
      var i := round[0].0;
      SyncKeepsPrefixes(KeepEvery, s, history, i, TwoWay, Healthy);
      RemoteIsNumbered(s, history);
      HealthySync(TwoWay, KeepEvery, s.clients[i], Strip(s.remote), Healthy);
      HealthyRound(SyncAt(KeepEvery, s, i, TwoWay, Healthy).0, history, round[1..]);
    }
  }

  lemma {:induction false} LongestOf(logs: seq<Log>) returns (h: nat)
    requires |logs| > 0
    ensures h < |logs| && forall j :: 0 <= j < |logs| ==> |logs[j]| <= |logs[h]|
    decreases |logs|
  {
    h := 0;
    if |logs| > 1 {
      var n := |logs| - 1;
      var front := logs[..n];
      h := LongestOf(front);
      assert forall j :: 0 <= j < n ==> front[j] == logs[j];
      h := if |logs[h]| < |logs[n]| then n else h;
    }
  }

  /** In a chain all logs are prefixes of the longest one, which some client or the remote holds. */
  lemma ChainHasHistory(s: System, h: nat) returns (history: Log)
    requires AllNormal(s) && HasNoGaps(s) && Chain(s) && h < |s.clients|
    requires forall j :: 0 <= j < |s.clients| ==> |s.clients[j]| <= |s.clients[h]|
    ensures Prefixes(s, history) && (Strip(s.remote) == history || s.clients[h] == history)
  {
    var R := Strip(s.remote);
    history := if |s.clients[h]| <= |R| then R else s.clients[h];
    forall j | 0 <= j < |s.clients|
      ensures s.clients[j] <= history
    {
      assert Comparable(s.clients[j], R) && Comparable(s.clients[j], s.clients[h]);
    }
    assert Comparable(s.clients[h], R);
  }

  /** The longest client first, then everyone. */
  function FullRound(h: nat, n: nat): seq<(nat, SyncEnv)> {
    [(h, Healthy)] + seq(n, i => (i, Healthy))
  }

  lemma RoundConverges(s: System, history: Log, h: nat)
    requires Prefixes(s, history) && h < |s.clients| && (Strip(s.remote) == history || s.clients[h] == history)
    ensures Fits(s, FullRound(h, |s.clients|)) && Converged(SyncEach(KeepEvery, TwoWay, s, FullRound(h, |s.clients|)).0)
  {
    hide AfterSync;
    var n := |s.clients|;
    var round := FullRound(h, n);
    HealthyRound(s, history, round);
    SyncKeepsPrefixes(KeepEvery, s, history, h, TwoWay, Healthy);
    var s1 := SyncAt(KeepEvery, s, h, TwoWay, Healthy).0;
    RemoteIsNumbered(s1, history);
    assert SyncEach(KeepEvery, TwoWay, s, round) ==
           (SyncEach(KeepEvery, TwoWay, s1, round[1..]).0,
            SyncAt(KeepEvery, s, h, TwoWay, Healthy).1 && SyncEach(KeepEvery, TwoWay, s1, round[1..]).1);
    assert Strip(s1.remote) == history;
    RoundSpreadsHistory(KeepEvery, TwoWay, s1, history, round[1..]);
    var s' := SyncEach(KeepEvery, TwoWay, s, round).0;
    forall i | 0 <= i < n
      ensures s'.clients[i] == history
    {
      assert round[1..][i] == (i, Healthy);
    }
  }

  lemma GapsStay(s: System, s': System)
    requires Extends(s, s') && HasNoGaps(s')
    ensures HasNoGaps(s)
  {
    forall i | 0 <= i < |s.remote|
      ensures s.remote[i] == Numbered(Strip(s.remote))[i]
    {
      assert s.remote[i] == s'.remote[i] == Numbered(Strip(s'.remote))[i];
    }
  }

  /**
   All logs can become equal, by whatever calls, exactly when the remote log has no gaps and any
   two logs are comparable; and then syncing alone does it.
   */
  lemma ConvergenceIsPossibleExactly(s: System)
    requires AllNormal(s)
    ensures CanConverge(s) <==> HasNoGaps(s) && Chain(s)
    ensures SyncingConverges(s) <==> HasNoGaps(s) && Chain(s)
  {
    hide Prefixes, AfterSync, LogsAfter, Do, SyncEach;
    if HasNoGaps(s) && Chain(s) {
      if |s.clients| == 0 {
        assert After(s, []) == s;
      } else {
        var h := LongestOf(s.clients);
        var history := ChainHasHistory(s, h);
        RoundConverges(s, history, h);
        RoundIsRun(s, FullRound(h, |s.clients|));
      }
    }
    forall run: seq<Action> | Runnable(s, run) && Converged(After(s, run))
      ensures HasNoGaps(s) && Chain(s)
    {
      DivergenceIsForever(s, run);
      AfterAppends(s, run);
      GapsStay(s, After(s, run));
    }
  }

  // ---------------------------------------------------------------- reachable states

  lemma PullKeepsNormal(keep: Event -> bool, resolve: Resolvers.Strategy, local: Log, remote: seq<EventWithVersion>,
                        env: PullEnv, other: Meanwhile, mayResolve: bool)
    requires Normal(local)
    ensures Normal(PullAmid(keep, resolve, local, remote, env, other, mayResolve).local)
  {
    hide Fetch, Incoming;
  }

  /** What a push offers is part of the local log. */
  lemma OutgoingIsLocal(local: Log, remote: seq<EventWithVersion>, keep: Event -> bool, ev: EventWithVersion)
    requires ev in Outgoing(local, remote, keep)
    ensures ev in Numbered(local)
  {
    hide Selected, Kept, Numbered;
    KeptExactly(Selected(Numbered(local), MaxSeq(remote), map[]), keep, ev);
    SelectedExactly(Numbered(local), MaxSeq(remote), map[], ev);
  }

  lemma PushKeepsNormal(opts: Options, keep: Event -> bool, local: Log, remote: seq<EventWithVersion>, env: PushEnv)
    requires Normal(local) && Normal(Strip(remote))
    ensures Normal(Strip(AfterPush(opts, keep, local, remote, env).0))
  {
    hide Outgoing, Delivered;
    var remote', out := AfterPush(opts, keep, local, remote, env).0, Outgoing(local, remote, keep);
    forall i | 0 <= i < |remote'|
      ensures Copied(Strip(remote')[i]) == Strip(remote')[i]
    {
      if i < |remote| {
        assert Strip(remote')[i] == Strip(remote)[i];
      } else {
        OutgoingIsLocal(local, remote, keep, out[i - |remote|]);
        assert remote'[i] in Numbered(local);
      }
    }
  }

  lemma PushKeepsNumbered(opts: Options, keep: Event -> bool, local: Log, R: Log, env: PushEnv)
    requires Unfiltered(keep)
    ensures var remote' := AfterPush(opts, keep, local, Numbered(R), env).0;
            remote' == Numbered(Strip(remote'))
  {
    hide Selected, Delivered, Kept;
    var remote' := AfterPush(opts, keep, local, Numbered(R), env).0;
    OutgoingOnChain(keep, local, R);
    var tail := if |R| <= |local| then Numbered(local)[|R|..] else [];
    KeptIsAll(tail, keep);
    assert forall i :: |R| <= i < |remote'| ==> remote'[i] == tail[i - |R|];
  }

  lemma DoKeepsNormal(s: System, a: Action)
    requires AllNormal(s) && a.client < |s.clients|
    ensures AllNormal(Do(s, a))
  {
    hide PullAmid, AfterPush;
    var local := s.clients[a.client];
    match a
    case Write(_, _) =>
    case Sync(_, cfg, around) =>
      PullKeepsNormal(cfg.keep, cfg.resolve, local, s.remote, around.env.pull, around.other, true);
      PushKeepsNormal(cfg.opts, cfg.keep, PullPart(cfg, local, s.remote, around).local, s.remote, around.env.push);
    case Pull(_, cfg, env, other, mayResolve) =>
      PullKeepsNormal(cfg.keep, cfg.resolve, local, s.remote, env, other, mayResolve);
    case Push(_, cfg, env) =>
      PushKeepsNormal(cfg.opts, cfg.keep, local, s.remote, env);
  }

  lemma DoKeepsNumbered(s: System, a: Action)
    requires HasNoGaps(s) && a.client < |s.clients| && (a.Write? || Unfiltered(a.cfg.keep))
    ensures HasNoGaps(Do(s, a))
  {
    hide PullAmid, AfterPush;
    var local, R := s.clients[a.client], Strip(s.remote);
    match a
    case Write(_, _) =>
    case Sync(_, cfg, around) =>
      PushKeepsNumbered(cfg.opts, cfg.keep, PullPart(cfg, local, s.remote, around).local, R, around.env.push);
    case Pull(_, cfg, env, other, mayResolve) =>
    case Push(_, cfg, env) =>
      PushKeepsNumbered(cfg.opts, cfg.keep, local, R, env);
  }

  /** No call of the run filters. */
  ghost predicate NoFilters(run: seq<Action>) {
    forall k :: 0 <= k < |run| ==> run[k].Write? || Unfiltered(run[k].cfg.keep)
  }

  /** Every run keeps stored copies; a run without filters also leaves no gaps. */
  lemma {:induction false} AfterKeepsNormal(s: System, run: seq<Action>)
    requires AllNormal(s) && Runnable(s, run)
    ensures AllNormal(After(s, run))
    ensures HasNoGaps(s) && NoFilters(run) ==> HasNoGaps(After(s, run))
    decreases |run|
  {
    hide AllNormal, HasNoGaps;
    if |run| > 0 {
      DoKeepsNormal(s, run[0]);
      DoAppends(s, run[0]);
      hide Do;
      if HasNoGaps(s) && NoFilters(run) {
        DoKeepsNumbered(s, run[0]);
      }
      AfterKeepsNormal(Do(s, run[0]), run[1..]);
    }
  }

  ghost function Empty(n: nat): System {
    System(seq(n, i => []), [])
  }

  /**
   After any run from empty logs, with any writers, filters and failures, the logs can still
   become equal exactly when the remote log has no gaps and no two logs have parted; without
   filters there are never gaps.
   */
  lemma ReachableConvergesExactly(n: nat, run: seq<Action>)
    requires Runnable(Empty(n), run)
    ensures var s := After(Empty(n), run);
            && (CanConverge(s) <==> HasNoGaps(s) && Chain(s))
            && (NoFilters(run) ==> HasNoGaps(s))
  {
    assert AllNormal(Empty(n)) && HasNoGaps(Empty(n));
    hide After, CanConverge, Chain, AllNormal, HasNoGaps, SyncingConverges, NoFilters, Runnable, Empty;
    AfterKeepsNormal(Empty(n), run);
    ConvergenceIsPossibleExactly(After(Empty(n), run));
  }

  // ---------------------------------------------------------------- when a write is safe

  /** The log that a new event would extend is behind the other, or the other already has the event next. */
  ghost predicate Admits(local: Log, e: Event, other: Log) {
    other <= local || local + [e] <= other
  }

  lemma AdmitsExactly(local: Log, e: Event, other: Log)
    requires Comparable(local, other)
    ensures Comparable(local + [e], other) <==> Admits(local, e, other)
  {
    if other <= local + [e] && !(other <= local) {
      assert |other| == |local| + 1;
      assert other == local + [e];
    } else if other <= local {
      assert other <= local + [e];
    }
  }

  /**
   A write leaves convergence possible exactly when every other log is behind the writer's or
   already has the written event next.
   */
  lemma WriteIsSafeExactly(s: System, i: nat, e: Event)
    requires AllNormal(s) && HasNoGaps(s) && Chain(s) && i < |s.clients|
    ensures CanConverge(Do(s, Action.Write(i, e))) <==>
            && Admits(s.clients[i], Copied(e), Strip(s.remote))
            && forall j :: 0 <= j < |s.clients| && j != i ==> Admits(s.clients[i], Copied(e), s.clients[j])
  {
    hide CanConverge, SyncingConverges, Admits, Comparable;
    var s', local := Do(s, Action.Write(i, e)), s.clients[i];
    DoKeepsNormal(s, Action.Write(i, e));
    DoKeepsNumbered(s, Action.Write(i, e));
    ConvergenceIsPossibleExactly(s');
    hide AllNormal, HasNoGaps;
    AdmitsExactly(local, Copied(e), Strip(s.remote));
    forall j | 0 <= j < |s.clients| && j != i
      ensures Comparable(s'.clients[i], s'.clients[j]) <==> Admits(local, Copied(e), s.clients[j])
      ensures Comparable(s'.clients[i], s'.clients[j]) <==> Comparable(s'.clients[j], s'.clients[i])
    {
      AdmitsExactly(local, Copied(e), s.clients[j]);
      ComparableIsSymmetric(s'.clients[i], s'.clients[j]);
    }
    ComparableIsReflexive(s'.clients[i]);
    assert forall j :: 0 <= j < |s.clients| && j != i ==> s'.clients[j] == s.clients[j];
  }

  lemma ComparableIsSymmetric(a: Log, b: Log)
    ensures Comparable(a, b) <==> Comparable(b, a)
  {
  }

  lemma ComparableIsReflexive(a: Log)
    ensures Comparable(a, a)
  {
  }

  // ---------------------------------------------------------------- a disturbed sync

  lemma ResolveOne(resolve: Resolvers.Strategy, c: Conflict)
    requires resolve(c).Ok?
    ensures ResolveAll(resolve, [c]) == Some(resolve(c).value.events)
  {
    var none: seq<Conflict> := [];
    assert [c][..0] == none && ResolveAll(resolve, none) == Some([]);
    var empty: seq<EventWithVersion> := [];
    assert empty + resolve(c).value.events == resolve(c).value.events;
  }

  /** The conflict of z, stored meanwhile, with y; x clashes with nothing. */
  lemma ConflictsOfExample(x: Event, y: Event, z: Event)
    requires Key(z) == Key(y) && Key(x) != Key(z)
    ensures var l, r := EventWithVersion(z, Cursor(1)), EventWithVersion(y, Cursor(2));
            && Conflicts([l], Numbered([x, y])) == [MakeConflict(l, r)]
            && ResolveAll(Resolvers.DefaultResolver, [MakeConflict(l, r)]) == Some([r])
  {
    var l, r, u := EventWithVersion(z, Cursor(1)), EventWithVersion(y, Cursor(2)), EventWithVersion(x, Cursor(1));
    assert Numbered([x, y]) == [u, r] && [u, r][..1] == [u] && [u][..0] == [] && [l][..0] == [];
    assert Clash(l, r) && !Clash(l, u);
    assert ClashesWith([l], r) == [MakeConflict(l, r)];
    assert ClashesWith([l], u) == [];
    assert Conflicts([l], [u]) == [];
    assert Conflicts([l], [u, r]) == Conflicts([l], [u]) + ClashesWith([l], r);
    var c := MakeConflict(l, r);
    assert Resolvers.DefaultResolver(c) == Resolvers.LastWriteWins(c) == Resolvers.KeepRemote(c, "remote newer");
    ResolveOne(Resolvers.DefaultResolver, c);
  }

  /**
   A sync during which another caller stores z, of the same aggregate and type as the pulled y:
   the conflict is resolved in favour of y, the unrelated x is dropped, the sync does not push
   and reports an error, and the logs can never become equal again.
   */
  lemma DisturbedSyncLosesEvents(x: Event, y: Event, z: Event, v: Version)
    requires Normal([x, y, z]) && Key(z) == Key(y) && Key(x) != Key(z)
    ensures var cfg := Settings(TwoWay, KeepEvery, Resolvers.DefaultResolver);
            var around := Surroundings(Healthy, Meanwhile([EventWithVersion(z, v)], false), false, false);
            var fate := FateOfSync(cfg, [], Numbered([x, y]), around);
            var s := Do(System([[]], Numbered([x, y])), Action.Sync(0, cfg, around));
            && s == System([[z, y]], Numbered([x, y])) && !CanConverge(s)
            && fate.pull == PullFate(true, false)
            && SyncPushing !in Path(TwoWay, fate) && Errors(TwoWay, fate) > 0
  {
    var cfg := Settings(TwoWay, KeepEvery, Resolvers.DefaultResolver);
    var other := Meanwhile([EventWithVersion(z, v)], false);
    var around := Surroundings(Healthy, other, false, false);
    DisturbedPullExample(x, y, z, other);
    hide PullAmid, AfterPush;
    var s0 := System([[]], Numbered([x, y]));
    var s := Do(s0, Action.Sync(0, cfg, around));
    assert s == System([[z, y]], Numbered([x, y]));
    PushesExactly(TwoWay, FateOfSync(cfg, [], Numbered([x, y]), around));
    ExampleHasParted(s, x, y, z);
  }

  lemma DisturbedPullExample(x: Event, y: Event, z: Event, other: Meanwhile)
    requires Normal([x, y, z]) && Key(z) == Key(y) && Key(x) != Key(z)
    requires |other.stored| == 1 && other.stored[0].event == z && !other.cancelled
    ensures var p := PullAmid(KeepEvery, Resolvers.DefaultResolver, [], Numbered([x, y]), Healthy.pull, other, true);
            p.local == [z, y] && |p.conflicts| == 1 && p.ok
  {
    var none: Log := [];
    var all := Numbered([x, y]);
    assert [x, y, z][1] == y && [x, y, z][2] == z;
    SelectedIsTail([x, y], 0);
    assert all[0..] == all;
    KeptIsAll(all, KeepEvery);
    hide Selected, Kept;
    assert Theirs(KeepEvery, none, all) == all;
    assert Disturbed(none, other) == [z];
    assert Mine(none, other) == [EventWithVersion(z, Cursor(1))];
    ConflictsOfExample(x, y, z);
    hide Conflicts, ResolveAll, Mine, Theirs;
    assert CopiedAll([EventWithVersion(y, Cursor(2))]) == [y];
  }

  lemma ExampleHasParted(s: System, x: Event, y: Event, z: Event)
    requires s == System([[z, y]], Numbered([x, y])) && x != z && Normal([x, y, z])
    ensures !CanConverge(s)
  {
    assert Strip(s.remote) == [x, y];
    assert [x, y, z][0] == x && [x, y, z][1] == y && [x, y, z][2] == z;
    assert AllNormal(s);
    assert [z, y][0] != [x, y][0];
    assert !Comparable(s.clients[0], Strip(s.remote));
    hide CanConverge;
    ConvergenceIsPossibleExactly(s);
  }
}
