/**
 Push, pull and sync (synckit/manager.go) of a MemStore against a MemChan, with failures at
 every step.  The methods of `SyncManager` are proved against functions of the two logs; the
 convergence of several clients is proved about those functions.
 */
module SyncProtocol {
  import opened Basics
  import opened Versions
  import opened MemStores
  import opened MemChans
  import opened ConflictDetection
  import Resolvers

  type Log = seq<Event>

  datatype Options = Options(batchSize: int, pushOnly: bool, pullOnly: bool)

  /** What goes wrong during a pull; storeFault k means that storing event number k fails. */
  datatype PullEnv = PullEnv(versionFails: bool, pullFails: bool, loadFails: bool, storeFault: Option<nat>)

  /** The fate of one batch: sent, not sent, or stored remotely although an error is reported. */
  datatype BatchFate = Sent | NotSent | SentButFailed

  datatype PushEnv = PushEnv(versionFails: bool, loadFails: bool, fates: seq<BatchFate>)

  datatype SyncEnv = SyncEnv(pull: PullEnv, push: PushEnv)

  /**
   What others do during a pull: the events another caller stores locally after the pull has
   read the local version, and whether the context is done when conflicts are to be resolved.
   */
  datatype Meanwhile = Meanwhile(stored: seq<EventWithVersion>, cancelled: bool)

  /** Nobody else acts. */
  const Quiet := Meanwhile([], false)

  /** A closed store and a closed transport make the calls on them fail. */
  function PullSeen(env: PullEnv, storeClosed: bool, transportClosed: bool): PullEnv {
    env.(versionFails := env.versionFails || storeClosed, pullFails := env.pullFails || transportClosed)
  }

  function PushSeen(env: PushEnv, storeClosed: bool, transportClosed: bool): PushEnv {
    env.(versionFails := env.versionFails || transportClosed, loadFails := env.loadFails || storeClosed)
  }

  function SyncSeen(env: SyncEnv, storeClosed: bool, transportClosed: bool): SyncEnv {
    SyncEnv(PullSeen(env.pull, storeClosed, transportClosed), PushSeen(env.push, storeClosed, transportClosed))
  }

  function MeanwhileSeen(other: Meanwhile, storeClosed: bool): Meanwhile {
    if storeClosed then other.(stored := []) else other
  }

  /** The events that pass the user's filter. */
  function Kept(evs: seq<EventWithVersion>, keep: Event -> bool): seq<EventWithVersion> {
    if |evs| == 0 then [] else
      var ev := evs[|evs| - 1];
      Kept(evs[..|evs| - 1], keep) + if keep(ev.event) then [ev] else []
  }

  function FateOf(fates: seq<BatchFate>, i: nat): BatchFate {
    if i < |fates| then fates[i] else Sent
  }

  /** A batch size that is not positive stands for 100. */
  function BatchSize(opts: Options): (n: nat)
    ensures n > 0
  {
    if opts.batchSize <= 0 then 100 else opts.batchSize
  }

  /** How many of `total` events the batches from position `at` on deliver, and whether all went well. */
  function Delivered(total: nat, at: nat, size: nat, fates: seq<BatchFate>, i: nat): (r: (nat, bool))
    requires size > 0 && at <= total
    ensures at <= r.0 <= total && (r.1 ==> r.0 == total)
    decreases total - at
  {
    if at == total then (at, true) else
      var end := Min(at + size, total);
      match FateOf(fates, i)
      case Sent => Delivered(total, end, size, fates, i + 1)
      case NotSent => (at, false)
      case SentButFailed => (end, false)
  }

  /** How many events a push counts as pushed: those of the batches that returned without error. */
  function Reported(total: nat, at: nat, size: nat, fates: seq<BatchFate>, i: nat): nat
    requires size > 0 && at <= total
    decreases total - at
  {
    if at == total || !FateOf(fates, i).Sent? then at
    else Reported(total, Min(at + size, total), size, fates, i + 1)
  }

  /** The local events a push offers to a remote store with the given events. */
  function Outgoing(local: Log, remote: seq<EventWithVersion>, keep: Event -> bool): seq<EventWithVersion> {
    Kept(Selected(Numbered(local), MaxSeq(remote), map[]), keep)
  }

  /** The remote events after a push, and whether it succeeded. */
  function AfterPush(opts: Options, keep: Event -> bool, local: Log, remote: seq<EventWithVersion>, env: PushEnv)
    : (seq<EventWithVersion>, bool)
  {
    if env.versionFails || env.loadFails then (remote, false) else
      var out := Outgoing(local, remote, keep);
      var (n, ok) := Delivered(|out|, 0, BatchSize(opts), env.fates, 0);
      (remote + out[..n], ok)
  }

  /** The number of events a push reports. */
  function PushCount(opts: Options, keep: Event -> bool, local: Log, remote: seq<EventWithVersion>, env: PushEnv): nat {
    if env.versionFails || env.loadFails then 0
    else Reported(|Outgoing(local, remote, keep)|, 0, BatchSize(opts), env.fates, 0)
  }

  /** The log after storing events one by one, up to the first failure, and whether there was none. */
  function Stored(local: Log, incoming: seq<EventWithVersion>, fault: Option<nat>): (Log, bool) {
    if fault.Some? && fault.value < |incoming|
    then (local + CopiedAll(incoming)[..fault.value], false)
    else (local + CopiedAll(incoming), true)
  }

  /** The local log after a pull that nobody disturbs, and whether it succeeded. */
  function AfterPull(keep: Event -> bool, local: Log, remote: seq<EventWithVersion>, env: PullEnv): (Log, bool) {
    if env.versionFails || env.pullFails then (local, false) else
      var found := Selected(remote, |local|, map[]);
      if |found| == 0 then (local, true)
      else if env.loadFails then (local, false)
      else Stored(local, Kept(found, keep), env.storeFault)
  }

  datatype SyncOutcome = SyncOutcome(local: Log, remote: seq<EventWithVersion>, ok: bool)

  /** A sync that nobody disturbs pulls, and pushes even when the pull failed. */
  function AfterSync(opts: Options, keep: Event -> bool, local: Log, remote: seq<EventWithVersion>, env: SyncEnv)
    : SyncOutcome
  {
    var (local', pullOk) := if opts.pushOnly then (local, true) else AfterPull(keep, local, remote, env.pull);
    var (remote', pushOk) := if opts.pullOnly then (remote, true) else AfterPush(opts, keep, local', remote, env.push);
    SyncOutcome(local', remote', pullOk && pushOk)
  }

  // ---------------------------------------------------------------- pulls that meet other writers

  /** The local log once the other caller has stored its events. */
  function Disturbed(local: Log, other: Meanwhile): Log {
    local + CopiedAll(other.stored)
  }

  /** What the reads of a pull find: nothing to store, or the remote events and their conflicts. */
  datatype Fetched = Nothing(ok: bool) | Fetched(theirs: seq<EventWithVersion>, conflicts: seq<Conflict>)

  /** The events above the version the pull has read that are in the local log when it loads them. */
  function Mine(local: Log, other: Meanwhile): seq<EventWithVersion> {
    Numbered(Disturbed(local, other))[|local|..]
  }

  /** The remote events a pull receives and keeps. */
  function Theirs(keep: Event -> bool, local: Log, remote: seq<EventWithVersion>): seq<EventWithVersion> {
    Kept(Selected(remote, |local|, map[]), keep)
  }

  function Fetch(keep: Event -> bool, local: Log, remote: seq<EventWithVersion>, env: PullEnv, other: Meanwhile)
    : Fetched
  {
    if env.versionFails || env.pullFails then Nothing(false)
    else if |Selected(remote, |local|, map[])| == 0 then Nothing(true)
    else if env.loadFails then Nothing(false)
    else
      var theirs := Theirs(keep, local, remote);
      Fetched(theirs, Conflicts(Mine(local, other), theirs))
  }

  /** The resolved events of all conflicts in order, unless a resolver fails. */
  function ResolveAll(resolve: Resolvers.Strategy, conflicts: seq<Conflict>): Option<seq<EventWithVersion>> {
    if |conflicts| == 0 then Some([]) else
      var n := |conflicts| - 1;
      var front, last := ResolveAll(resolve, conflicts[..n]), resolve(conflicts[n]);
      if front.Some? && last.Ok? then Some(front.value + last.value.events) else None
  }

  /** What a pull stores: what it received, or, as soon as there is a conflict, only the resolved events. */
  function Incoming(
    resolve: Resolvers.Strategy, theirs: seq<EventWithVersion>, conflicts: seq<Conflict>, cancelled: bool)
    : Option<seq<EventWithVersion>>
  {
    if |conflicts| == 0 then Some(theirs) else if cancelled then None else ResolveAll(resolve, conflicts)
  }

  /** The end of a pull that is allowed to resolve its conflicts. */
  function Settled(resolve: Resolvers.Strategy, local: Log, theirs: seq<EventWithVersion>, conflicts: seq<Conflict>,
                   cancelled: bool, fault: Option<nat>): (Log, bool)
  {
    var incoming := Incoming(resolve, theirs, conflicts, cancelled);
    if incoming.None? then (local, false) else Stored(local, incoming.value, fault)
  }

  datatype PullOutcome = PullOutcome(local: Log, conflicts: seq<Conflict>, ok: bool)

  /**
   A pull while another caller stores events.  `mayResolve` says whether the manager may enter
   the state of resolving conflicts; if it may not, the pull stores nothing and returns no error.
   */
  function PullAmid(keep: Event -> bool, resolve: Resolvers.Strategy, local: Log, remote: seq<EventWithVersion>,
                    env: PullEnv, other: Meanwhile, mayResolve: bool): PullOutcome
  {
    var local1 := Disturbed(local, other);
    match Fetch(keep, local, remote, env, other)
    case Nothing(ok) => PullOutcome(local1, [], ok)
    case Fetched(theirs, conflicts) =>
      if |conflicts| > 0 && !mayResolve then PullOutcome(local1, conflicts, true) else
        var (local', ok) := Settled(resolve, local1, theirs, conflicts, other.cancelled, env.storeFault);
        PullOutcome(local', conflicts, ok)
  }

  /** A sync without state tracking while another caller stores events during its pull. */
  function SyncAmid(opts: Options, keep: Event -> bool, resolve: Resolvers.Strategy, local: Log,
                    remote: seq<EventWithVersion>, env: SyncEnv, other: Meanwhile): SyncOutcome
  {
    var p := if opts.pushOnly then PullOutcome(local, [], true)
             else PullAmid(keep, resolve, local, remote, env.pull, other, true);
    var (remote', pushOk) :=
      if opts.pullOnly then (remote, true) else AfterPush(opts, keep, p.local, remote, env.push);
    SyncOutcome(p.local, remote', p.ok && pushOk)
  }

  method FilterEvents(evs: seq<EventWithVersion>, keep: Event -> bool) returns (filtered: seq<EventWithVersion>)
    ensures filtered == Kept(evs, keep)
  {
    filtered := [];
    for i := 0 to |evs|
      invariant filtered == Kept(evs[..i], keep)
    {
      assert evs[..i + 1][..i] == evs[..i];
      if keep(evs[i].event) {
        filtered := filtered + [evs[i]];
      }
    }
    assert evs[..|evs|] == evs;
  }

  class SyncManager {
    const store: MemStore
    const transport: MemChan
    const options: Options
    const keep: Event -> bool
    const resolve: Resolvers.Strategy

    constructor (
      store: MemStore, transport: MemChan, options: Options, keep: Event -> bool, resolve: Resolvers.Strategy)
      ensures this.store == store && this.transport == transport && this.options == options
      ensures this.keep == keep && this.resolve == resolve
    {
      this.store, this.transport, this.options, this.keep, this.resolve := store, transport, options, keep, resolve;
    }

    /** The batch loop of push; events of a failed batch are not counted as pushed. */
    method PushBatches(localEvents: seq<EventWithVersion>, fates: seq<BatchFate>) returns (pushed: nat, ok: bool)
      requires !transport.closed
      modifies transport`events
      ensures var (n, fine) := Delivered(|localEvents|, 0, BatchSize(options), fates, 0);
              && transport.events == old(transport.events) + localEvents[..n]
              && ok == fine && pushed == Reported(|localEvents|, 0, BatchSize(options), fates, 0)
    {
      hide Delivered, Reported;
      var batchSize := BatchSize(options);
      var at: nat, i: nat := 0, 0;
      pushed := 0;
      while at < |localEvents|
        invariant at <= |localEvents| && pushed == at
        invariant Delivered(|localEvents|, 0, batchSize, fates, 0) == Delivered(|localEvents|, at, batchSize, fates, i)
        invariant Reported(|localEvents|, 0, batchSize, fates, 0) == Reported(|localEvents|, at, batchSize, fates, i)
        invariant transport.events == old(transport.events) + localEvents[..at]
      {
        BatchStep(|localEvents|, at, batchSize, fates, i);
        var end := at + batchSize;
        if end > |localEvents| {
          end := |localEvents|;
        }
        var batch := localEvents[at..end];
        assert localEvents[..at] + batch == localEvents[..end];
        var fate := FateOf(fates, i);
        var ctx := match fate case Sent => Live case NotSent => DoneBefore case SentButFailed => DoneWhileNotifying;
        var err := transport.Push(batch, ctx);
        if err.Some? {
          return pushed, false;
        }
        pushed := pushed + |batch|;
        at, i := end, i + 1;
      }
      BatchStep(|localEvents|, at, batchSize, fates, i);
      return pushed, true;
    }

    /** push: sends the local events above the remote version in batches. */
    method Push(env: PushEnv) returns (pushed: nat, ok: bool)
      requires store.Valid()
      modifies transport`events
      ensures (transport.events, ok) ==
              AfterPush(options, keep, store.Log(), old(transport.events),
                        PushSeen(env, store.closed, transport.closed))
      ensures pushed == PushCount(
                options, keep, store.Log(), old(transport.events), PushSeen(env, store.closed, transport.closed))
    {
      hide Delivered, Reported, Selected, Numbered, Kept;
      var remoteVersion := transport.GetLatestVersion(env.versionFails);
      if remoteVersion.Err? {
        return 0, false;
      }
      var loaded := store.Load(remoteVersion.value, [], env.loadFails);
      if loaded.Err? {
        return 0, false;
      }
      assert FiltersOf([]) == map[];
      var localEvents := loaded.value;
      KeptOfNothing(localEvents, keep);
      if |localEvents| == 0 {
        DeliveredNothing(BatchSize(options), env.fates);
        assert old(transport.events) + Kept(localEvents, keep)[..0] == old(transport.events);
        return 0, true;
      }
      localEvents := FilterEvents(localEvents, keep);
      pushed, ok := PushBatches(localEvents, env.fates);
    }

    /** The reads of a pull; another caller stores its events between them. */
    method FetchRemote(env: PullEnv, other: Meanwhile) returns (f: Fetched)
      requires store.Valid()
      modifies store
      ensures store.Valid() && store.closed == old(store.closed)
      ensures f == Fetch(keep, old(store.Log()), transport.events, PullSeen(env, store.closed, transport.closed),
                         MeanwhileSeen(other, store.closed))
      ensures store.Log() == Disturbed(old(store.Log()), MeanwhileSeen(other, store.closed))
      ensures f.Fetched? ==> !store.closed
    {
      hide Selected, Kept, Conflicts, Numbered, MemStore.Valid;
      var localVersion := store.LatestVersion(env.versionFails);
      var _ := store.StoreBatch(other.stored, false);
      if localVersion.Err? {
        return Nothing(false);
      }
      var found := transport.Pull(localVersion.value, env.pullFails);
      if found.Err? {
        return Nothing(false);
      }
      if |found.value| == 0 {
        return Nothing(true);
      }
      var remoteEvents := FilterEvents(found.value, keep);
      var localEvents := store.Load(localVersion.value, [], env.loadFails);
      if localEvents.Err? {
        return Nothing(false);
      }
      StoreLoadsTail(store, localVersion.value.seqNo);
      NoConflictsWithNothing(remoteEvents);
      var conflicts := [];
      if |localEvents.value| > 0 {
        conflicts := DetectConflicts(localEvents.value, remoteEvents);
      }
      return Fetched(remoteEvents, conflicts);
    }

    /** Resolves the conflicts one by one and stops at the first resolver that fails. */
    method ResolveConflicts(conflicts: seq<Conflict>) returns (r: Option<seq<EventWithVersion>>)
      ensures r == ResolveAll(resolve, conflicts)
    {
      var resolved := [];
      for i := 0 to |conflicts|
        invariant ResolveAll(resolve, conflicts[..i]) == Some(resolved)
      {
        assert conflicts[..i + 1][..i] == conflicts[..i];
        var outcome := resolve(conflicts[i]);
        if outcome.Err? {
          FailureIsFinal(resolve, conflicts, i + 1);
          return None;
        }
        resolved := resolved + outcome.value.events;
      }
      assert conflicts[..|conflicts|] == conflicts;
      return Some(resolved);
    }

    /** The end of a pull: the resolved events replace all pulled ones, and what remains is stored. */
    method Settle(theirs: seq<EventWithVersion>, conflicts: seq<Conflict>, cancelled: bool, fault: Option<nat>)
      returns (pulled: nat, ok: bool)
      requires store.Valid() && !store.closed
      modifies store
      ensures store.Valid() && !store.closed
      ensures (store.Log(), ok) == Settled(resolve, old(store.Log()), theirs, conflicts, cancelled, fault)
      ensures |store.Log()| == |old(store.Log())| + pulled
    {
      hide ResolveAll, MemStore.Valid;
      var remoteEvents := theirs;
      if |conflicts| > 0 {
        if cancelled {
          return 0, false;
        }
        var resolved := ResolveConflicts(conflicts);
        if resolved.None? {
          return 0, false;
        }
        remoteEvents := resolved.value;
      }
      pulled, ok := StoreEvents(remoteEvents, fault);
      assert CopiedAll(remoteEvents)[..|remoteEvents|] == CopiedAll(remoteEvents);
    }

    /** pull of a manager without state tracking, which may always resolve conflicts. */
    method Pull(env: PullEnv, other: Meanwhile) returns (pulled: nat, ok: bool)
      requires store.Valid()
      modifies store
      ensures store.Valid() && store.closed == old(store.closed)
      ensures var seen := MeanwhileSeen(other, store.closed);
              var p := PullAmid(keep, resolve, old(store.Log()), transport.events,
                                PullSeen(env, store.closed, transport.closed), seen, true);
              && (store.Log(), ok) == (p.local, p.ok)
              && |store.Log()| == |Disturbed(old(store.Log()), seen)| + pulled
    {
      hide Fetch, Settled, Disturbed, MemStore.Valid;
      var f := FetchRemote(env, other);
      if f.Nothing? {
        return 0, f.ok;
      }
      pulled, ok := Settle(f.theirs, f.conflicts, other.cancelled, env.storeFault);
    }

    /** The store loop of pull, which stops at the first failure. */
    method StoreEvents(remoteEvents: seq<EventWithVersion>, fault: Option<nat>) returns (stored: nat, ok: bool)
      requires store.Valid() && !store.closed
      modifies store
      ensures store.Valid() && !store.closed
      ensures stored == if fault.Some? && fault.value < |remoteEvents| then fault.value else |remoteEvents|
      ensures ok == (stored == |remoteEvents|)
      ensures store.Log() == old(store.Log()) + CopiedAll(remoteEvents)[..stored]
    {
      stored := 0;
      while stored < |remoteEvents|
        invariant store.Valid() && !store.closed && stored <= |remoteEvents|
        invariant fault.Some? ==> stored <= fault.value || fault.value >= |remoteEvents|
        invariant store.Log() == old(store.Log()) + CopiedAll(remoteEvents)[..stored]
      {
        var err := store.Store(remoteEvents[stored].event, remoteEvents[stored].version, fault == Some(stored));
        if err.Some? {
          return stored, false;
        }
        stored := stored + 1;
      }
      ok := true;
    }

    /** Sync without state tracking: pull, then push, unless the options restrict it to one of them. */
    method Sync(env: SyncEnv, other: Meanwhile) returns (ok: bool)
      requires store.Valid()
      modifies store, transport`events
      ensures store.Valid() && store.closed == old(store.closed)
      ensures SyncOutcome(store.Log(), transport.events, ok) ==
              SyncAmid(options, keep, resolve, old(store.Log()), old(transport.events),
                       SyncSeen(env, store.closed, transport.closed), MeanwhileSeen(other, store.closed))
    {
      hide AfterPush, PullAmid, MemStore.Valid, MemStore.Log;
      ok := true;
      if !options.pushOnly {
        var _, pullOk := Pull(env.pull, other);
        ok := pullOk;
      }
      if !options.pullOnly {
        var _, pushOk := Push(env.push);
        ok := ok && pushOk;
      }
    }
  }

  /**
   The batches of a push: the first k were sent; then either that was all, or the next one failed,
   and was stored all the same if it was sent.  Exactly the first k count as pushed.
   */
  lemma {:induction false} BatchesExactly(total: nat, at: nat, size: nat, fates: seq<BatchFate>, i: nat)
    returns (k: nat)
    requires size > 0 && at <= total && at == Min(i * size, total)
    ensures i <= k && (forall j :: i <= j < k && j < |fates| ==> fates[j] == Sent)
    ensures Reported(total, at, size, fates, i) == Min(k * size, total)
    ensures k * size < total ==> k < |fates| && fates[k] != Sent
    ensures Delivered(total, at, size, fates, i) ==
            if k * size >= total then (total, true)
            else if fates[k] == NotSent then (k * size, false)
            else (Min((k + 1) * size, total), false)
    decreases total - at
  {
    k := i;
    if at < total && FateOf(fates, i).Sent? {
      assert (i + 1) * size == i * size + size;
      k := BatchesExactly(total, Min(at + size, total), size, fates, i + 1);
    }
  }

  /**
   What a push counts and what it stores, in numbers: with b events to a batch, the first k batches
   count, and the remote log grows by these, or by one batch more if that one was stored although
   it failed.
   */
  lemma PushCountsExactly(opts: Options, keep: Event -> bool, local: Log, remote: seq<EventWithVersion>, env: PushEnv)
    returns (k: nat)
    requires !env.versionFails && !env.loadFails
    ensures var b: nat := if opts.batchSize <= 0 then 100 else opts.batchSize;
            var out := Outgoing(local, remote, keep);
            var (remote', ok) := AfterPush(opts, keep, local, remote, env);
            && (forall j :: 0 <= j < k && j < |env.fates| ==> env.fates[j] == Sent)
            && PushCount(opts, keep, local, remote, env) == Min(k * b, |out|)
            && (ok <==> k * b >= |out|) && (!ok ==> k < |env.fates| && env.fates[k] != Sent)
            && remote' == remote + out[..if !ok && env.fates[k] == SentButFailed then Min((k + 1) * b, |out|)
                                         else Min(k * b, |out|)]
  {
    hide Outgoing, Delivered, Reported;
    var b := BatchSize(opts);
    k := BatchesExactly(|Outgoing(local, remote, keep)|, 0, b, env.fates, 0);
  }

  /** An open store loads the tail of its log. */
  lemma StoreLoadsTail(store: MemStore, since: nat)
    requires store.Valid() && !store.closed && since <= |store.Log()|
    ensures Selected(store.events, since, FiltersOf([])) == Numbered(store.Log())[since..]
  {
    SelectedIsTail(store.Log(), since);
    assert FiltersOf([]) == map[];
  }

  lemma {:induction false} NoConflictsWithNothing(remotes: seq<EventWithVersion>)
    ensures Conflicts([], remotes) == []
    decreases |remotes|
  {
    if |remotes| > 0 {
      NoConflictsWithNothing(remotes[..|remotes| - 1]);
    }
  }

  /** When resolving a prefix of the conflicts fails, so does resolving all of them. */
  lemma {:induction false} FailureIsFinal(resolve: Resolvers.Strategy, conflicts: seq<Conflict>, i: nat)
    requires i <= |conflicts| && ResolveAll(resolve, conflicts[..i]).None?
    ensures ResolveAll(resolve, conflicts).None?
    decreases |conflicts|
  {
    var n := |conflicts| - 1;
    if i <= n {
      assert conflicts[..n][..i] == conflicts[..i];
      FailureIsFinal(resolve, conflicts[..n], i);
    } else {
      assert conflicts[..i] == conflicts;
    }
  }

  /** A pull that nobody disturbs meets no conflicts and does what `AfterPull` says. */
  lemma QuietPull(keep: Event -> bool, resolve: Resolvers.Strategy, local: Log, remote: seq<EventWithVersion>,
                  env: PullEnv, other: Meanwhile, mayResolve: bool)
    requires |other.stored| == 0
    ensures var p := PullAmid(keep, resolve, local, remote, env, other, mayResolve);
            p.conflicts == [] && (p.local, p.ok) == AfterPull(keep, local, remote, env)
  {
    hide Selected, Kept, Conflicts;
    assert Disturbed(local, other) == local;
    assert Mine(local, other) == [];
    NoConflictsWithNothing(Theirs(keep, local, remote));
  }

  /** A sync that nobody disturbs does what `AfterSync` says. */
  lemma QuietSync(opts: Options, keep: Event -> bool, resolve: Resolvers.Strategy, local: Log,
                  remote: seq<EventWithVersion>, env: SyncEnv, other: Meanwhile)
    requires |other.stored| == 0
    ensures SyncAmid(opts, keep, resolve, local, remote, env, other) == AfterSync(opts, keep, local, remote, env)
  {
    hide PullAmid, AfterPull, AfterPush;
    QuietPull(keep, resolve, local, remote, env.pull, other, true);
  }

  lemma KeptOfNothing(evs: seq<EventWithVersion>, keep: Event -> bool)
    ensures |evs| == 0 ==> Kept(evs, keep) == []
  {
  }

  /** One batch of a push. */
  lemma BatchStep(total: nat, at: nat, size: nat, fates: seq<BatchFate>, i: nat)
    requires size > 0 && at <= total
    ensures var end, fate := Min(at + size, total), FateOf(fates, i);
            if at == total
            then Delivered(total, at, size, fates, i) == (total, true) && Reported(total, at, size, fates, i) == total
            else if fate.Sent?
            then && Delivered(total, at, size, fates, i) == Delivered(total, end, size, fates, i + 1)
                 && Reported(total, at, size, fates, i) == Reported(total, end, size, fates, i + 1)
            else && Delivered(total, at, size, fates, i) == (if fate.NotSent? then at else end, false)
                 && Reported(total, at, size, fates, i) == at
  {
  }

  lemma DeliveredNothing(size: nat, fates: seq<BatchFate>)
    requires size > 0
    ensures Delivered(0, 0, size, fates, 0) == (0, true) && Reported(0, 0, size, fates, 0) == 0
  {
  }
}
