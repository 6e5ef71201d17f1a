/**
 Several clients that sync with one remote store: what every run of writes, syncs, pulls and
 pushes keeps, and exactly when all logs can still become equal.  Every call has arbitrary
 failures, and others may write while it runs.
 */
module Convergence {
  import opened Basics
  import opened Versions
  import opened MemStores
  import opened MemChans
  import opened SyncProtocol
  import opened SyncSession
  import Resolvers

  /** The events of a versioned log. */
  function Strip(evs: seq<EventWithVersion>): Log {
    seq(|evs|, i requires 0 <= i < |evs| => evs[i].event)
  }

  ghost predicate Unfiltered(keep: Event -> bool) {
    forall e: Event :: keep(e)
  }

  ghost predicate KeepsAll(keep: Event -> bool, log: Log) {
    forall i :: 0 <= i < |log| ==> keep(log[i])
  }

  ghost predicate Comparable(a: Log, b: Log) {
    a <= b || b <= a
  }

  // ---------------------------------------------------------------- one push, one pull, one sync

  /** A filter changes nothing exactly when it keeps every event. */
  lemma {:induction false} KeptIsAll(evs: seq<EventWithVersion>, keep: Event -> bool)
    ensures |Kept(evs, keep)| <= |evs|
    ensures Kept(evs, keep) == evs <==> KeepsAll(keep, Strip(evs))
    ensures |Kept(evs, keep)| == |evs| ==> Kept(evs, keep) == evs
    decreases |evs|
  {
    if |evs| > 0 {
      var front := evs[..|evs| - 1];
      KeptIsAll(front, keep);
      assert evs == front + [evs[|evs| - 1]];
      assert Strip(evs) == Strip(front) + [evs[|evs| - 1].event];
      if KeepsAll(keep, Strip(evs)) {
        assert forall i :: 0 <= i < |front| ==> Strip(front)[i] == Strip(evs)[i];
        assert keep(Strip(evs)[|evs| - 1]);
      }
    }
  }

  /** What a push offers when the remote log is a numbered log. */
  lemma OutgoingOnChain(keep: Event -> bool, local: Log, R: Log)
    ensures var tail := if |R| <= |local| then Numbered(local)[|R|..] else [];
            Outgoing(local, Numbered(R), keep) == Kept(tail, keep)
  {
    MaxSeqOfNumbered(R);
    SelectedIsTail(local, |R|);
  }

  lemma NumberedSplit(a: Log, b: Log, n: nat)
    requires a <= b && |a| + n <= |b|
    ensures Numbered(a) + Numbered(b)[|a|..][..n] == Numbered(b[..|a| + n])
  {
    var c := b[..|a| + n];
    assert forall i :: 0 <= i < |c| ==> Numbered(c)[i] == EventWithVersion(b[i], Cursor(i + 1));
  }

  /** An unfiltered push extends the remote log towards the local one and never beyond it. */
  lemma PushOnChain(opts: Options, keep: Event -> bool, local: Log, R: Log, env: PushEnv)
    requires Unfiltered(keep) && Comparable(local, R)
    ensures var (remote', ok) := AfterPush(opts, keep, local, Numbered(R), env);
            var R' := Strip(remote');
            && remote' == Numbered(R') && R <= R'
            && (if R <= local then R' <= local && (ok ==> R' == local) else R' == R)
  {
    hide Selected, Delivered, Kept;
    OutgoingOnChain(keep, local, R);
    var tail := if |R| <= |local| then Numbered(local)[|R|..] else [];
    KeptIsAll(tail, keep);
    var (remote', ok) := AfterPush(opts, keep, local, Numbered(R), env);
    if env.versionFails || env.loadFails {
      assert Strip(Numbered(R)) == R;
    } else {
      var (n, fine) := Delivered(|tail|, 0, BatchSize(opts), env.fates, 0);
      if R <= local {
        NumberedSplit(R, local, n);
        assert Strip(remote') == local[..|R| + n];
      } else {
        assert remote' == Numbered(R) && Strip(remote') == R;
      }
    }
  }

  lemma CopiedAllOfNormal(R: Log, from: nat)
    requires Normal(R) && from <= |R|
    ensures CopiedAll(Numbered(R)[from..]) == R[from..]
  {
  }

  /** An unfiltered pull extends the local log towards the remote one and never beyond it. */
  lemma PullOnChain(keep: Event -> bool, local: Log, R: Log, env: PullEnv)
    requires Unfiltered(keep) && Comparable(local, R) && Normal(R)
    ensures var (local', ok) := AfterPull(keep, local, Numbered(R), env);
            && local <= local'
            && (if local <= R then local' <= R && (ok ==> local' == R) else local' == local)
  {
    hide Selected, Kept;
    SelectedIsTail(R, |local|);
    var found := if |local| <= |R| then Numbered(R)[|local|..] else [];
    KeptIsAll(found, keep);
    if |local| <= |R| {
      CopiedAllOfNormal(R, |local|);
      assert local + R[|local|..] == R;
    }
  }

  lemma PullOfShorter(keep: Event -> bool, local: Log, R: Log, env: PullEnv)
    requires |R| <= |local|
    ensures AfterPull(keep, local, Numbered(R), env).0 == local
  {
    SelectedIsTail(R, |local|);
  }

  lemma PushOfShorter(opts: Options, keep: Event -> bool, local: Log, R: Log, env: PushEnv)
    requires |local| <= |R|
    ensures AfterPush(opts, keep, local, Numbered(R), env).0 == Numbered(R)
  {
    hide Selected, Delivered;
    OutgoingOnChain(keep, local, R);
  }

  // ---------------------------------------------------------------- the system

  datatype System = System(clients: seq<Log>, remote: seq<EventWithVersion>)

  /** The calls that concern one client; every call may have its own settings. */
  datatype Action =
    | Write(client: nat, event: Event)
    | Sync(client: nat, cfg: Settings, around: Surroundings)
    | Pull(client: nat, cfg: Settings, pullEnv: PullEnv, other: Meanwhile, mayResolve: bool)
    | Push(client: nat, cfg: Settings, pushEnv: PushEnv)

  ghost function Do(s: System, a: Action): System
    requires a.client < |s.clients|
  {
    var i := a.client;
    match a
    case Write(_, e) => s.(clients := s.clients[i := s.clients[i] + [Copied(e)]])
    case Sync(_, cfg, around) =>
      var (local', remote') := LogsAfter(cfg, s.clients[i], s.remote, around);
      System(s.clients[i := local'], remote')
    case Pull(_, cfg, env, other, mayResolve) =>
      var p := PullAmid(cfg.keep, cfg.resolve, s.clients[i], s.remote, env, other, mayResolve);
      s.(clients := s.clients[i := p.local])
    case Push(_, cfg, env) =>
      s.(remote := AfterPush(cfg.opts, cfg.keep, s.clients[i], s.remote, env).0)
  }

  /** The events newly written in a call: by a write, or by another caller during a pull. */
  function Stores(a: Action): Log {
    match a
    case Write(_, e) => [Copied(e)]
    case Sync(_, cfg, around) => if cfg.opts.pushOnly then [] else CopiedAll(around.other.stored)
    case Pull(_, _, _, other, _) => CopiedAll(other.stored)
    case Push(_, _, _) => []
  }

  /** A sync of client i that nobody disturbs. */
  function SyncAt(keep: Event -> bool, s: System, i: nat, opts: Options, env: SyncEnv): (System, bool)
    requires i < |s.clients|
  {
    var r := AfterSync(opts, keep, s.clients[i], s.remote, env);
    (System(s.clients[i := r.local], r.remote), r.ok)
  }

  /** A client may write when its log is the longest: every other log is a prefix of it. */
  ghost predicate MayWrite(s: System, i: nat) {
    && i < |s.clients|
    && Strip(s.remote) <= s.clients[i]
    && forall j :: 0 <= j < |s.clients| ==> s.clients[j] <= s.clients[i]
  }

  /** Calls do not filter, and a call that writes, itself or meanwhile, does so at the longest log. */
  ghost predicate Allowed(s: System, a: Action) {
    && a.client < |s.clients|
    && (a.Write? || Unfiltered(a.cfg.keep))
    && (|Stores(a)| > 0 ==> MayWrite(s, a.client))
  }

  /** Where a run leads from n empty clients and an empty remote, if all its actions are allowed. */
  ghost function Exec(n: nat, run: seq<Action>): Option<System> {
    if |run| == 0 then Some(System(seq(n, i => []), [])) else
      var s := Exec(n, run[..|run| - 1]);
      if s.Some? && Allowed(s.value, run[|run| - 1]) then Some(Do(s.value, run[|run| - 1])) else None
  }

  /** The events written in a run, in order. */
  function Written(run: seq<Action>): Log {
    if |run| == 0 then [] else Written(run[..|run| - 1]) + Stores(run[|run| - 1])
  }

  /** Every log is a prefix of the history, and some log is all of it. */
  ghost predicate Prefixes(s: System, history: Log) {
    && s.remote == Numbered(Strip(s.remote)) && Strip(s.remote) <= history && Normal(history)
    && (forall i :: 0 <= i < |s.clients| ==> s.clients[i] <= history)
    && (Strip(s.remote) == history || exists i :: 0 <= i < |s.clients| && s.clients[i] == history)
  }

  lemma PrefixesComparable(a: Log, b: Log, history: Log)
    requires a <= history && b <= history
    ensures Comparable(a, b)
  {
    if |a| <= |b| {
      assert a == history[..|a|] == b[..|a|];
    } else {
      assert b == history[..|b|] == a[..|b|];
    }
  }

  /** What one sync of client i does to a system of prefixes. */
  lemma SyncKeepsPrefixes(keep: Event -> bool, s: System, history: Log, i: nat, opts: Options, env: SyncEnv)
    requires Unfiltered(keep) && Prefixes(s, history) && i < |s.clients|
    ensures var (s', ok) := SyncAt(keep, s, i, opts, env);
            && Prefixes(s', history)
            && |s'.clients| == |s.clients| && s.clients[i] <= s'.clients[i]
            && (forall j :: 0 <= j < |s.clients| && j != i ==> s'.clients[j] == s.clients[j])
            && Strip(s.remote) <= Strip(s'.remote)
            && (ok && !opts.pushOnly && !opts.pullOnly ==> s'.clients[i] == Strip(s'.remote))
            && (ok && !opts.pullOnly && s.clients[i] == history ==> Strip(s'.remote) == history)
            && (ok && !opts.pushOnly && Strip(s.remote) == history ==> s'.clients[i] == history)
  {
    hide AfterPull, AfterPush;
    var local, R := s.clients[i], Strip(s.remote);
    PrefixesComparable(local, R, history);
    NormalPrefix(R, history);
    PullOnChain(keep, local, R, env.pull);
    var local' := if opts.pushOnly then local else AfterPull(keep, local, s.remote, env.pull).0;
    PrefixesComparable(local', R, history);
    PushOnChain(opts, keep, local', R, env.push);
    var s' := SyncAt(keep, s, i, opts, env).0;
    if R != history {
      var h :| 0 <= h < |s.clients| && s.clients[h] == history;
      assert s'.clients[h] == history;
    }
  }

  lemma NormalPrefix(a: Log, b: Log)
    requires a <= b && Normal(b)
    ensures Normal(a)
  {
    assert forall i :: 0 <= i < |a| ==> a[i] == b[i];
  }

  lemma WriteKeepsPrefixes(s: System, history: Log, i: nat, es: Log)
    requires Prefixes(s, history) && MayWrite(s, i) && Normal(es)
    ensures i < |s.clients| && s.clients[i] == history
    ensures Prefixes(s.(clients := s.clients[i := history + es]), history + es)
  {
    if Strip(s.remote) != history {
      var h :| 0 <= h < |s.clients| && s.clients[h] == history;
      assert s.clients[h] <= s.clients[i];
    }
    var s' := s.(clients := s.clients[i := history + es]);
    assert s'.clients[i] == history + es;
  }

  /** A pull from a remote log that is not longer meets no conflicts, whoever writes meanwhile. */
  lemma GuardedPull(
    keep: Event -> bool, resolve: Resolvers.Strategy, local: Log, R: Log, env: PullEnv, other: Meanwhile, may: bool)
    requires |other.stored| == 0 || |R| <= |local|
    ensures var p := PullAmid(keep, resolve, local, Numbered(R), env, other, may);
            p.conflicts == [] && (p.local, p.ok) == AfterPull(keep, Disturbed(local, other), Numbered(R), env)
  {
    hide Selected, Numbered;
    if |other.stored| == 0 {
      assert Disturbed(local, other) == local;
      QuietPull(keep, resolve, local, Numbered(R), env, other, may);
    } else {
      SelectedIsTail(R, |local|);
      SelectedIsTail(R, |Disturbed(local, other)|);
      NumberedLength(R);
    }
  }

  lemma NumberedLength(R: Log)
    ensures |Numbered(R)| == |R|
  {
  }

  /** An allowed call amounts to its writes, followed by a sync, in one direction or both, that nobody disturbs. */
  lemma CallIsWriteThenSync(s: System, a: Action) returns (opts: Options, env: SyncEnv)
    requires Allowed(s, a) && !a.Write? && s.remote == Numbered(Strip(s.remote))
    ensures var s1 := s.(clients := s.clients[a.client := s.clients[a.client] + Stores(a)]);
            Do(s, a) == SyncAt(a.cfg.keep, s1, a.client, opts, env).0
  {
    hide AfterPull, AfterPush, PullAmid;
    var i, R, cfg := a.client, Strip(s.remote), a.cfg;
    var local := s.clients[i];
    var s1 := s.(clients := s.clients[i := local + Stores(a)]);
    assert s1.clients[i] == local + Stores(a);
    assert s.clients[i := local] == s.clients;
    match a
    case Sync(_, _, around) =>
      opts, env := cfg.opts, around.env;
      if cfg.opts.pushOnly {
        assert local + Stores(a) == local;
      } else {
        GuardedPull(cfg.keep, cfg.resolve, local, R, around.env.pull, around.other, true);
      }
    case Pull(_, _, pullEnv, other, mayResolve) =>
      GuardedPull(cfg.keep, cfg.resolve, local, R, pullEnv, other, mayResolve);
      opts, env := Options(0, false, true), SyncEnv(pullEnv, PushEnv(false, false, []));
    case Push(_, _, pushEnv) =>
      opts, env := cfg.opts.(pushOnly := true, pullOnly := false), SyncEnv(PullEnv(false, false, false, None), pushEnv);
      assert local + Stores(a) == local;
      OnlyBatchSizeMatters(cfg.opts, opts, cfg.keep, local, s.remote, pushEnv);
  }

  lemma OnlyBatchSizeMatters(
    opts: Options, opts': Options, keep: Event -> bool, local: Log, remote: seq<EventWithVersion>, env: PushEnv)
    requires opts.batchSize == opts'.batchSize
    ensures AfterPush(opts, keep, local, remote, env) == AfterPush(opts', keep, local, remote, env)
  {
    hide Outgoing, Delivered;
  }

  lemma StepKeepsPrefixes(s: System, history: Log, a: Action)
    requires Prefixes(s, history) && Allowed(s, a)
    ensures |Do(s, a).clients| == |s.clients| && Prefixes(Do(s, a), history + Stores(a))
  {
    var i := a.client;
    var s1 := s.(clients := s.clients[i := s.clients[i] + Stores(a)]);
    assert Prefixes(s1, history + Stores(a)) by {
      if |Stores(a)| > 0 {
        WriteKeepsPrefixes(s, history, i, Stores(a));
      } else {
        assert s.clients[i] + Stores(a) == s.clients[i] && history + Stores(a) == history;
        assert s1.clients == s.clients;
      }
    }
    if !a.Write? {
      var opts, env := CallIsWriteThenSync(s, a);
      SyncKeepsPrefixes(a.cfg.keep, s1, history + Stores(a), i, opts, env);
    }
  }

  /**
   In every run in which clients write only when their log is the longest, also while a sync
   or a pull of theirs is under way, and whatever fails, every log is a prefix of the events
   written so far, in the order of writing: no event is lost, duplicated or reordered.
   */
  lemma {:induction false} RunKeepsPrefixes(n: nat, run: seq<Action>, s: System)
    requires Exec(n, run) == Some(s)
    ensures |s.clients| == n && Prefixes(s, Written(run))
    decreases |run|
  {
    hide Do, Allowed, Stores, Prefixes;
    if |run| > 0 {
      var front, a := run[..|run| - 1], run[|run| - 1];
      var s0 := Exec(n, front).value;
      RunKeepsPrefixes(n, front, s0);
      StepKeepsPrefixes(s0, Written(front), a);
    } else {
      EmptyPrefixes(s);
    }
  }

  /** The events as the writers gave them, in the order of writing. */
  function Given(run: seq<Action>): Log {
    if |run| == 0 then [] else
      var a := run[|run| - 1];
      Given(run[..|run| - 1]) +
      match a
      case Write(_, e) => [e]
      case Sync(_, cfg, around) => if cfg.opts.pushOnly then [] else Strip(around.other.stored)
      case Pull(_, _, _, other, _) => Strip(other.stored)
      case Push(_, _, _) => []
  }

  /** The history holds what was given: as many events, in the same order, with the same content. */
  lemma {:induction false} WrittenIsGiven(run: seq<Action>)
    ensures |Written(run)| == |Given(run)|
    ensures forall i :: 0 <= i < |Given(run)| ==> SameContent(Written(run)[i], Given(run)[i])
    decreases |run|
  {
    if |run| > 0 {
      var a := run[|run| - 1];
      WrittenIsGiven(run[..|run| - 1]);
      match a
      case Write(_, e) =>
        CopyKeepsContent(e);
      case Sync(_, _, around) =>
        CopiesKeepContent(around.other.stored);
      case Pull(_, _, _, other, _) =>
        CopiesKeepContent(other.stored);
      case Push(_, _, _) =>
      hide SameContent, Copied;
    }
  }

  /**
   Nothing is altered either: in every guarded run every event of every log has the content that its
   writer gave, at the place of its writing.
   */
  lemma NothingIsAltered(n: nat, run: seq<Action>, s: System)
    requires Exec(n, run) == Some(s)
    ensures |Strip(s.remote)| <= |Given(run)|
    ensures forall k :: 0 <= k < |s.remote| ==> SameContent(s.remote[k].event, Given(run)[k])
    ensures forall i :: 0 <= i < |s.clients| ==> |s.clients[i]| <= |Given(run)|
    ensures forall i, k :: 0 <= i < |s.clients| && 0 <= k < |s.clients[i]| ==>
              SameContent(s.clients[i][k], Given(run)[k])
  {
    hide SameContent, Exec, Given, Written;
    RunKeepsPrefixes(n, run, s);
    WrittenIsGiven(run);
    forall k | 0 <= k < |s.remote|
      ensures SameContent(s.remote[k].event, Given(run)[k])
    {
      assert Strip(s.remote)[k] == Written(run)[k];
    }
  }

  lemma EmptyPrefixes(s: System)
    requires |s.remote| == 0 && forall i :: 0 <= i < |s.clients| ==> |s.clients[i]| == 0
    ensures Prefixes(s, [])
  {
  }

  // ---------------------------------------------------------------- convergence

  /** A round: the listed clients sync one after the other, each with its own failures. */
  ghost function SyncEach(keep: Event -> bool, opts: Options, s: System, round: seq<(nat, SyncEnv)>): (System, bool)
    requires forall k :: 0 <= k < |round| ==> round[k].0 < |s.clients|
    decreases |round|
  {
    if |round| == 0 then (s, true) else
      var (s1, ok1) := SyncAt(keep, s, round[0].0, opts, round[0].1);
      var (s2, ok2) := SyncEach(keep, opts, s1, round[1..]);
      (s2, ok1 && ok2)
  }

  /** Once the remote holds the history, a round of successful syncs brings every listed client up to it. */
  lemma {:induction false} RoundSpreadsHistory(
    keep: Event -> bool, opts: Options, s: System, history: Log, round: seq<(nat, SyncEnv)>)
    requires Unfiltered(keep) && Prefixes(s, history) && Strip(s.remote) == history && !opts.pushOnly
    requires forall k :: 0 <= k < |round| ==> round[k].0 < |s.clients|
    requires SyncEach(keep, opts, s, round).1
    ensures var s' := SyncEach(keep, opts, s, round).0;
            && |s'.clients| == |s.clients| && Prefixes(s', history) && Strip(s'.remote) == history
            && (forall i :: 0 <= i < |s.clients| && s.clients[i] == history ==> s'.clients[i] == history)
            && forall k :: 0 <= k < |round| ==> s'.clients[round[k].0] == history
    decreases |round|
  {
    hide SyncAt, Prefixes;
    if |round| > 0 {
      var i := round[0].0;
      SyncKeepsPrefixes(keep, s, history, i, opts, round[0].1);
      var s1 := SyncAt(keep, s, i, opts, round[0].1).0;
      RemoteIsNumbered(s1, history);
      RoundSpreadsHistory(keep, opts, s1, history, round[1..]);
      var s' := SyncEach(keep, opts, s, round).0;
      forall k | 0 <= k < |round|
        ensures s'.clients[round[k].0] == history
      {
        if k > 0 {
          assert round[k] == round[1..][k - 1];
        }
      }
    }
  }

  lemma RemoteIsNumbered(s: System, history: Log)
    requires Prefixes(s, history)
    ensures s.remote == Numbered(Strip(s.remote)) && Strip(s.remote) <= history
  {
  }

  ghost predicate Listed(round: seq<(nat, SyncEnv)>, i: nat) {
    exists k :: 0 <= k < |round| && round[k].0 == i
  }

  /**
   Convergence: when the client with the longest log syncs successfully and then every
   client does, all logs and the remote log are equal, and equal to that longest log.
   */
  lemma LongestThenAllConverges(
    keep: Event -> bool, n: nat, run: seq<Action>, s: System, longest: nat, opts: Options, round: seq<(nat, SyncEnv)>)
    requires Unfiltered(keep) && Exec(n, run) == Some(s) && !opts.pushOnly && !opts.pullOnly
    requires longest < n && MayWrite(s, longest)
    requires |round| > 0 && round[0].0 == longest
    requires forall k :: 0 <= k < |round| ==> round[k].0 < n
    requires forall i :: 0 <= i < n ==> Listed(round, i)
    requires |s.clients| == n && SyncEach(keep, opts, s, round).1
    ensures var s' := SyncEach(keep, opts, s, round).0;
            && Strip(s'.remote) == s.clients[longest] == Written(run)
            && |s'.clients| == n && forall i :: 0 <= i < n ==> s'.clients[i] == s.clients[longest]
  {
    var history := Written(run);
    RunKeepsPrefixes(n, run, s);
    WriteKeepsPrefixes(s, history, longest, []);
    SyncKeepsPrefixes(keep, s, history, longest, opts, round[0].1);
    var s1 := SyncAt(keep, s, longest, opts, round[0].1).0;
    RoundSpreadsHistory(keep, opts, s1, history, round[1..]);
    var s' := SyncEach(keep, opts, s, round).0;
    forall i | 0 <= i < n
      ensures s'.clients[i] == history
    {
      assert Listed(round, i);
      var k :| 0 <= k < |round| && round[k].0 == i;
      if k > 0 {
        assert round[k] == round[1..][k - 1];
      } else {
        assert s1.clients[i] == history;
      }
    }
  }

  // ---------------------------------------------------------------- why the guard is needed

  /** Two clients that write before syncing: both syncs succeed, and the second event is lost for the remote. */
  lemma UnguardedWritesDiverge(keep: Event -> bool, a: Event, b: Event, opts: Options, env: SyncEnv)
    requires Unfiltered(keep) && Copied(a) == a && Copied(b) == b && a != b
    requires !opts.pushOnly && !opts.pullOnly
    requires env == SyncEnv(PullEnv(false, false, false, None), PushEnv(false, false, []))
    ensures var r1 := AfterSync(opts, keep, [a], [], env);
            var r2 := AfterSync(opts, keep, [b], r1.remote, env);
            r1.ok && r2.ok && r1.remote == r2.remote == Numbered([a]) && r2.local == [b]
  {
    hide AfterPull, AfterPush;
    var none: Log := [];
    assert Numbered(none) == [];
    HealthySync(opts, keep, [a], none, env);
    HealthySync(opts, keep, [b], [a], env);
    PullOfShorter(keep, [b], [a], env.pull);
    PullOfShorter(keep, [a], none, env.pull);
    PushOnChain(opts, keep, [a], none, env.push);
    PushOfShorter(opts, keep, [b], [a], env.push);
  }

  /** Nothing fails in a sync without faults. */
  lemma HealthySync(opts: Options, keep: Event -> bool, local: Log, R: Log, env: SyncEnv)
    requires env == SyncEnv(PullEnv(false, false, false, None), PushEnv(false, false, []))
    ensures AfterSync(opts, keep, local, Numbered(R), env).ok
    ensures AfterPush(opts, keep, local, Numbered(R), env.push).1
  {
    hide Selected, Kept, Delivered;
    forall l: Log
      ensures AfterPush(opts, keep, l, Numbered(R), env.push).1
    {
      AlwaysDelivered(BatchSize(opts), |Outgoing(l, Numbered(R), keep)|, 0, 0);
    }
  }

  lemma {:induction false} AlwaysDelivered(size: nat, total: nat, at: nat, i: nat)
    requires size > 0 && at <= total
    ensures Delivered(total, at, size, [], i) == (total, true)
    decreases total - at
  {
    if at < total {
      AlwaysDelivered(size, total, Min(at + size, total), i + 1);
    }
  }
}
