/**
 What a pull stores when another caller has written meanwhile (synckit/manager.go:530-636):
 which pulled events survive, and which are lost.
 */
module PullConflicts {
  import opened Basics
  import opened Versions
  import opened MemStores
  import opened ConflictDetection
  import opened Resolvers
  import opened SyncProtocol

  ghost predicate NoClash(mine: seq<EventWithVersion>, theirs: seq<EventWithVersion>) {
    forall l, r :: l in mine && r in theirs ==> !Clash(l, r)
  }

  /** There is a conflict exactly when two events clash. */
  lemma ConflictsIffClash(mine: seq<EventWithVersion>, theirs: seq<EventWithVersion>)
    ensures |Conflicts(mine, theirs)| == 0 <==> NoClash(mine, theirs)
  {
    hide Conflicts, Clash;
    var cs := Conflicts(mine, theirs);
    if |cs| > 0 {
      ConflictsExactly(mine, theirs, cs[0]);
      var l, r :| ClashPair(mine, theirs, l, r, cs[0]);
      assert Clash(l, r);
    }
    if !NoClash(mine, theirs) {
      var l, r :| l in mine && r in theirs && Clash(l, r);
      ConflictsExactly(mine, theirs, MakeConflict(l, r));
      assert ClashPair(mine, theirs, l, r, MakeConflict(l, r));
    }
  }

  ghost predicate Resolves(resolve: Strategy, c: Conflict, e: EventWithVersion) {
    resolve(c).Ok? && e in resolve(c).value.events
  }

  /** The resolved events are exactly those that the resolver returns for some conflict. */
  lemma {:induction false} ResolvedExactly(resolve: Strategy, cs: seq<Conflict>, e: EventWithVersion)
    requires ResolveAll(resolve, cs).Some?
    ensures e in ResolveAll(resolve, cs).value <==> exists c :: c in cs && Resolves(resolve, c, e)
    decreases |cs|
  {
    if |cs| > 0 {
      var front, last := cs[..|cs| - 1], cs[|cs| - 1];
      assert cs == front + [last];
      ResolvedExactly(resolve, front, e);
      assert e in ResolveAll(resolve, cs).value <==>
             e in ResolveAll(resolve, front).value || Resolves(resolve, last, e);
    }
  }

  /** The resolved events come in the order of their conflicts, and in the order of the resolver for each. */
  lemma {:induction false} ResolvedInOrder(resolve: Strategy, cs: seq<Conflict>, ds: seq<Conflict>)
    requires ResolveAll(resolve, cs + ds).Some?
    ensures ResolveAll(resolve, cs).Some? && ResolveAll(resolve, ds).Some?
    ensures ResolveAll(resolve, cs + ds).value == ResolveAll(resolve, cs).value + ResolveAll(resolve, ds).value
    ensures |ds| == 1 ==> resolve(ds[0]).Ok? && ResolveAll(resolve, ds).value == resolve(ds[0]).value.events
    decreases |ds|
  {
    if |ds| == 0 {
      assert cs + ds == cs && ResolveAll(resolve, cs).value + [] == ResolveAll(resolve, cs).value;
    } else {
      var n := |ds| - 1;
      assert (cs + ds)[..|cs| + n] == cs + ds[..n] && (cs + ds)[|cs| + n] == ds[n];
      ResolvedInOrder(resolve, cs, ds[..n]);
      var last := resolve(ds[n]).value.events;
      var front := ResolveAll(resolve, ds[..n]).value;
      assert (ResolveAll(resolve, cs).value + front) + last == ResolveAll(resolve, cs).value + (front + last);
      if n == 0 {
        assert front == [] && front + last == last;
      }
    }
  }

  /** Resolving succeeds exactly when the resolver succeeds on every conflict. */
  lemma {:induction false} ResolvesAllExactly(resolve: Strategy, cs: seq<Conflict>)
    ensures ResolveAll(resolve, cs).Some? <==> forall c :: c in cs ==> resolve(c).Ok?
    decreases |cs|
  {
    if |cs| > 0 {
      var front, last := cs[..|cs| - 1], cs[|cs| - 1];
      assert cs == front + [last];
      ResolvesAllExactly(resolve, front);
    }
  }

  /** Two events clash, and the resolver returns e for them. */
  ghost predicate Returned(
    resolve: Strategy, mine: seq<EventWithVersion>, theirs: seq<EventWithVersion>,
    l: EventWithVersion, r: EventWithVersion, e: EventWithVersion)
  {
    l in mine && r in theirs && Clash(l, r) && Resolves(resolve, MakeConflict(l, r), e)
  }

  /** Without a clash all pulled events survive; with one, only what the resolver returns for clashing pairs. */
  ghost predicate Survives(
    resolve: Strategy, mine: seq<EventWithVersion>, theirs: seq<EventWithVersion>, e: EventWithVersion)
  {
    if NoClash(mine, theirs) then e in theirs
    else exists l, r :: Returned(resolve, mine, theirs, l, r, e)
  }

  lemma IncomingExactly(
    resolve: Strategy, mine: seq<EventWithVersion>, theirs: seq<EventWithVersion>, cancelled: bool, e: EventWithVersion)
    requires Incoming(resolve, theirs, Conflicts(mine, theirs), cancelled).Some?
    ensures e in Incoming(resolve, theirs, Conflicts(mine, theirs), cancelled).value <==>
            Survives(resolve, mine, theirs, e)
  {
    hide Conflicts, Clash, NoClash, MakeConflict, ResolveAll;
    var cs := Conflicts(mine, theirs);
    ConflictsIffClash(mine, theirs);
    if |cs| > 0 {
      ResolvedExactly(resolve, cs, e);
      if c :| c in cs && Resolves(resolve, c, e) {
        ConflictsExactly(mine, theirs, c);
        var l, r :| ClashPair(mine, theirs, l, r, c);
        assert Returned(resolve, mine, theirs, l, r, e);
      }
      if l, r :| Returned(resolve, mine, theirs, l, r, e) {
        ConflictsExactly(mine, theirs, MakeConflict(l, r));
        assert ClashPair(mine, theirs, l, r, MakeConflict(l, r));
      }
    }
  }

  /** The list holds exactly the survivors. */
  ghost predicate HoldsSurvivors(
    incoming: seq<EventWithVersion>, resolve: Strategy, mine: seq<EventWithVersion>, theirs: seq<EventWithVersion>)
  {
    forall e :: e in incoming <==> Survives(resolve, mine, theirs, e)
  }

  /**
   What a successful pull adds to the local log, whatever the other caller stored meanwhile: copies
   of a list of events that holds exactly the survivors.
   */
  lemma PullStoresExactly(
    keep: Event -> bool, resolve: Strategy, local: Log, remote: seq<EventWithVersion>, env: PullEnv, other: Meanwhile)
    requires Fetch(keep, local, remote, env, other).Fetched?
    requires PullAmid(keep, resolve, local, remote, env, other, true).ok
    ensures var p := PullAmid(keep, resolve, local, remote, env, other, true);
            exists incoming :: p.local == Disturbed(local, other) + CopiedAll(incoming) &&
                               HoldsSurvivors(incoming, resolve, Mine(local, other), Theirs(keep, local, remote))
  {
    hide Conflicts, Mine, Theirs, Survives;
    var mine, theirs := Mine(local, other), Theirs(keep, local, remote);
    var incoming := Incoming(resolve, theirs, Conflicts(mine, theirs), other.cancelled).value;
    forall e
      ensures e in incoming <==> Survives(resolve, mine, theirs, e)
    {
      IncomingExactly(resolve, mine, theirs, other.cancelled, e);
    }
    assert HoldsSurvivors(incoming, resolve, mine, theirs);
  }

  /**
   What a successful pull adds has, event by event and in order, the content of what it received and
   kept, or of what the resolver returned; the versions given to it are those of the local store.
   */
  lemma PullKeepsContent(
    keep: Event -> bool, resolve: Strategy, local: Log, remote: seq<EventWithVersion>, env: PullEnv, other: Meanwhile)
    requires Fetch(keep, local, remote, env, other).Fetched?
    requires PullAmid(keep, resolve, local, remote, env, other, true).ok
    ensures var p := PullAmid(keep, resolve, local, remote, env, other, true);
            var mine, theirs := Mine(local, other), Theirs(keep, local, remote);
            var incoming := if NoClash(mine, theirs) then theirs else ResolveAll(resolve, p.conflicts).value;
            var n := |local| + |other.stored|;
            && ResolveAll(resolve, p.conflicts).Some? && |p.local| == n + |incoming| && p.local[..|local|] == local
            && (forall i :: 0 <= i < |other.stored| ==> SameContent(p.local[|local| + i], other.stored[i].event))
            && (forall i :: 0 <= i < |incoming| ==> SameContent(p.local[n + i], incoming[i].event))
  {
    hide PullAmid, Conflicts, Mine, Theirs, SameContent, NoClash, ResolveAll, CopiedAll, Fetch;
    PulledList(keep, resolve, local, remote, env, other);
    var mine, theirs := Mine(local, other), Theirs(keep, local, remote);
    var p := PullAmid(keep, resolve, local, remote, env, other, true);
    var incoming := if NoClash(mine, theirs) then theirs else ResolveAll(resolve, p.conflicts).value;
    CopiesKeepContent(other.stored);
    CopiesKeepContent(incoming);
    ContentOfThree(p.local, local, other.stored, incoming);
  }

  lemma PulledList(
    keep: Event -> bool, resolve: Strategy, local: Log, remote: seq<EventWithVersion>, env: PullEnv, other: Meanwhile)
    requires Fetch(keep, local, remote, env, other).Fetched?
    requires PullAmid(keep, resolve, local, remote, env, other, true).ok
    ensures var p := PullAmid(keep, resolve, local, remote, env, other, true);
            var mine, theirs := Mine(local, other), Theirs(keep, local, remote);
            && ResolveAll(resolve, p.conflicts).Some?
            && p.local == local + CopiedAll(other.stored) +
                          CopiedAll(if NoClash(mine, theirs) then theirs else ResolveAll(resolve, p.conflicts).value)
  {
    hide Conflicts, Mine, Theirs, NoClash, CopiedAll;
    ConflictsIffClash(Mine(local, other), Theirs(keep, local, remote));
  }

  lemma ContentOfThree(all: Log, local: Log, stored: seq<EventWithVersion>, incoming: seq<EventWithVersion>)
    requires all == local + CopiedAll(stored) + CopiedAll(incoming)
    requires |CopiedAll(stored)| == |stored| && |CopiedAll(incoming)| == |incoming|
    requires forall i :: 0 <= i < |stored| ==> SameContent(CopiedAll(stored)[i], stored[i].event)
    requires forall i :: 0 <= i < |incoming| ==> SameContent(CopiedAll(incoming)[i], incoming[i].event)
    ensures var n := |local| + |stored|;
            && |all| == n + |incoming| && all[..|local|] == local
            && (forall i :: 0 <= i < |stored| ==> SameContent(all[|local| + i], stored[i].event))
            && (forall i :: 0 <= i < |incoming| ==> SameContent(all[n + i], incoming[i].event))
  {
    hide SameContent, CopiedAll;
  }

  /**
   A pull that meets a clash where conflicts may not be resolved, that is, outside a sync, stores nothing
   and returns no error; the log is what the other caller has made of it.
   */
  lemma PullOutsideSyncStoresNothing(
    keep: Event -> bool, resolve: Strategy, local: Log, remote: seq<EventWithVersion>, env: PullEnv, other: Meanwhile)
    requires Fetch(keep, local, remote, env, other).Fetched?
    requires !NoClash(Mine(local, other), Theirs(keep, local, remote))
    ensures var p := PullAmid(keep, resolve, local, remote, env, other, false);
            p.ok && |p.conflicts| > 0 && p.local == local + CopiedAll(other.stored)
  {
    hide Conflicts, Mine, Theirs, NoClash, CopiedAll;
    ConflictsIffClash(Mine(local, other), Theirs(keep, local, remote));
  }

  /** A resolver that only ever returns the two events of the conflict, or one of them, or none. */
  ghost predicate Picks(resolve: Strategy) {
    forall c: Conflict, e :: Resolves(resolve, c, e) ==> e == c.local || e == c.remote
  }

  lemma {:induction false} FirstMatchPicks(rules: seq<Rule>, c: Conflict, e: EventWithVersion)
    requires forall k :: 0 <= k < |rules| ==> Picks(rules[k].resolve)
    requires FirstMatch(rules, c).Some? && FirstMatch(rules, c).value.Ok?
    requires e in FirstMatch(rules, c).value.value.events
    ensures e == c.local || e == c.remote
    decreases |rules|
  {
    if rules[0].matches(c) {
      assert Picks(rules[0].resolve) && Resolves(rules[0].resolve, c, e);
    } else {
      FirstMatchPicks(rules[1..], c, e);
    }
  }

  /** The resolvers of the library pick, and so does every rule list made of such resolvers. */
  lemma BuiltInResolversPick(reason: string)
    ensures Picks(LastWriteWins) && Picks(FirstWriteWins) && Picks(AdditiveMerge) && Picks(c => ManualReview(reason, c))
    ensures Picks(DefaultResolver)
  {
  }

  lemma RuleListsPick(rules: seq<Rule>, fallback: Option<Strategy>)
    requires forall k :: 0 <= k < |rules| ==> Picks(rules[k].resolve)
    requires fallback.Some? ==> Picks(fallback.value)
    ensures Picks(c => DynamicResolve(rules, fallback, c))
  {
    var resolve: Strategy := c => DynamicResolve(rules, fallback, c);
    forall c: Conflict, e | Resolves(resolve, c, e)
      ensures e == c.local || e == c.remote
    {
      if FirstMatch(rules, c).Some? {
        FirstMatchPicks(rules, c, e);
      } else {
        assert Resolves(fallback.value, c, e);
      }
    }
  }

  /**
   As soon as one pulled event clashes, every pulled event whose key no local event shares is
   lost, although it clashes with nothing.
   */
  lemma UnrelatedEventsAreLost(
    resolve: Strategy, mine: seq<EventWithVersion>, theirs: seq<EventWithVersion>, e: EventWithVersion)
    requires Picks(resolve) && !NoClash(mine, theirs) && e in theirs
    requires forall l :: l in mine ==> Key(l.event) != Key(e.event)
    ensures !Survives(resolve, mine, theirs, e)
  {
    hide MakeConflict, Resolves;
    if l, r :| Returned(resolve, mine, theirs, l, r, e) {
      PickedSide(resolve, l, r, e);
    }
  }

  lemma PickedSide(resolve: Strategy, l: EventWithVersion, r: EventWithVersion, e: EventWithVersion)
    requires Picks(resolve) && Resolves(resolve, MakeConflict(l, r), e)
    ensures e == l || e == r
  {
    assert MakeConflict(l, r).local == l && MakeConflict(l, r).remote == r;
  }

  /** Event l shares e's key and has an earlier version. */
  predicate Overtaken(l: EventWithVersion, e: EventWithVersion) {
    Key(l.event) == Key(e.event) && CompareVersions(l.version, e.version) == -1
  }

  /**
   With the default resolver, a pulled event that is not also among the local ones survives
   exactly when nothing clashes or some local event with its key has an earlier version.
   */
  lemma DefaultKeepsExactly(mine: seq<EventWithVersion>, theirs: seq<EventWithVersion>, e: EventWithVersion)
    requires e in theirs && e !in mine
    ensures Survives(DefaultResolver, mine, theirs, e) <==>
            NoClash(mine, theirs) || exists l :: l in mine && Overtaken(l, e)
  {
    if !NoClash(mine, theirs) {
      if l, r :| Returned(DefaultResolver, mine, theirs, l, r, e) {
        DefaultPicksLater(l, r, e);
        assert Overtaken(l, e);
      }
      if l :| l in mine && Overtaken(l, e) {
        DefaultPicksLater(l, e, e);
        assert Returned(DefaultResolver, mine, theirs, l, e, e);
      }
    }
  }

  lemma DefaultPicksLater(l: EventWithVersion, r: EventWithVersion, e: EventWithVersion)
    requires Clash(l, r)
    ensures Resolves(DefaultResolver, MakeConflict(l, r), e) <==>
            e == if CompareVersions(l.version, r.version) == -1 then r else l
  {
    var d := CompareVersions(l.version, r.version);
    assert d == -1 || d == 1;
    assert DefaultResolver(MakeConflict(l, r)) == LastWriteWins(MakeConflict(l, r));
  }

  /** What each built-in resolver returns: a later or an earlier event of the two, both, or none. */
  lemma BuiltInResolversExactly(c: Conflict, reason: string, e: EventWithVersion)
    ensures var d := CompareVersions(c.local.version, c.remote.version);
            && (Resolves(LastWriteWins, c, e) <==> e == if d == 1 then c.local else c.remote)
            && (Resolves(FirstWriteWins, c, e) <==> e == if d == 1 then c.remote else c.local)
            && (Resolves(AdditiveMerge, c, e) <==> e == c.local || e == c.remote)
            && !Resolves(x => ManualReview(reason, x), c, e)
    ensures var remoteWins := Resolves(LastWriteWins, c, c.remote) && !Resolves(LastWriteWins, c, c.local);
            && LastWriteWins(c).Ok? && |LastWriteWins(c).value.events| == 1
            && (remoteWins ==> LastWriteWins(c).value.decision == "keep_remote")
            && FirstWriteWins(c).Ok? && |FirstWriteWins(c).value.events| == 1
            && (remoteWins ==> FirstWriteWins(c).value.decision == "keep_local")
            && (CompareVersions(c.local.version, c.remote.version) == 1 ==>
                  LastWriteWins(c).value.decision == "keep_local" && FirstWriteWins(c).value.decision == "keep_remote")
    ensures AdditiveMerge(c).Ok? && AdditiveMerge(c).value.events == [c.local, c.remote]
    ensures AdditiveMerge(c).value.decision == "merge"
    ensures ManualReview(reason, c).Ok? && ManualReview(reason, c).value.decision == "manual_review"
  {
    ComparisonExactly(c.local.version, c.remote.version);
    ComparisonIsThreeWay(c.local.version, c.remote.version);
  }

  lemma ComparisonIsThreeWay(a: Version, b: Version)
    ensures -1 <= CompareVersions(a, b) <= 1
  {
  }

  /** The last-write-wins event is not earlier, and the first-write-wins event not later, than either of the two. */
  lemma WinnersAreExtreme(c: Conflict, e: EventWithVersion)
    ensures Resolves(LastWriteWins, c, e) ==>
              CompareVersions(e.version, c.local.version) >= 0 && CompareVersions(e.version, c.remote.version) >= 0
    ensures Resolves(FirstWriteWins, c, e) ==>
              CompareVersions(e.version, c.local.version) <= 0 && CompareVersions(e.version, c.remote.version) <= 0
  {
    BuiltInResolversExactly(c, "", e);
    ComparisonExactly(c.local.version, c.remote.version);
    ComparisonIsThreeWay(c.local.version, c.remote.version);
    ComparisonExactly(e.version, e.version);
    NotLaterThanItself(e.version);
  }

  /**
   So a pull with conflicts from a numbered remote log always loses the first event it receives,
   unless another caller has stored that very event: nothing local above the version read can
   have an earlier version.
   */
  lemma FirstReceivedIsLost(keep: Event -> bool, local: Log, R: Log, other: Meanwhile)
    requires |local| < |R| && keep(R[|local|])
    requires |other.stored| > 0 ==> Copied(other.stored[0].event) != R[|local|]
    requires !NoClash(Mine(local, other), Theirs(keep, local, Numbered(R)))
    ensures var e := Numbered(R)[|local|];
            && e in Theirs(keep, local, Numbered(R))
            && !Survives(DefaultResolver, Mine(local, other), Theirs(keep, local, Numbered(R)), e)
  {
    hide NoClash, Survives, Theirs, Mine;
    var e := Numbered(R)[|local|];
    var mine := Mine(local, other);
    FirstReceived(keep, local, R);
    forall l | l in mine
      ensures l != e && !Overtaken(l, e)
    {
      var i :| 0 <= i < |mine| && mine[i] == l;
      MineAt(local, other, i);
    }
    DefaultKeepsExactly(mine, Theirs(keep, local, Numbered(R)), e);
  }

  lemma FirstReceived(keep: Event -> bool, local: Log, R: Log)
    requires |local| < |R| && keep(R[|local|])
    ensures Numbered(R)[|local|] in Theirs(keep, local, Numbered(R))
  {
    hide Selected, Kept;
    var e := Numbered(R)[|local|];
    SelectedIsTail(R, |local|);
    assert Numbered(R)[|local|..][0] == e;
    KeptExactly(Numbered(R)[|local|..], keep, e);
  }

  lemma MineAt(local: Log, other: Meanwhile, i: nat)
    requires i < |Mine(local, other)|
    ensures i < |other.stored|
    ensures Mine(local, other)[i] == EventWithVersion(Copied(other.stored[i].event), Cursor(|local| + i + 1))
  {
  }

  /** The filter keeps exactly the events that pass it. */
  lemma {:induction false} KeptExactly(evs: seq<EventWithVersion>, keep: Event -> bool, e: EventWithVersion)
    ensures e in Kept(evs, keep) <==> e in evs && keep(e.event)
    decreases |evs|
  {
    if |evs| > 0 {
      var front := evs[..|evs| - 1];
      assert evs == front + [evs[|evs| - 1]];
      KeptExactly(front, keep, e);
    }
  }
}
