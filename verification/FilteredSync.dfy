/**
 Syncs with a filter.  A push that drops an event leaves a gap in the remote versions, and a pull
 that drops one leaves the local version behind the remote one, so a filter can make later pulls
 store events again.  The results here are about every remote log that pushes can leave: its
 versions rise, with or without gaps.
 */
module FilteredSync {
  import opened Basics
  import opened Versions
  import opened MemStores
  import opened MemChans
  import opened SyncProtocol
  import opened SyncSession
  import opened PullConflicts
  import opened Convergence
  import opened Divergence

  function SeqNo(ev: EventWithVersion): nat {
    if ev.version.Cursor? then ev.version.seqNo else 0
  }

  /** The versions are positive sequence numbers in strictly increasing order. */
  ghost predicate Rising(remote: seq<EventWithVersion>) {
    && (forall i :: 0 <= i < |remote| ==> remote[i].version.Cursor? && SeqNo(remote[i]) > 0)
    && (forall i, j :: 0 <= i < j < |remote| ==> SeqNo(remote[i]) < SeqNo(remote[j]))
  }

  ghost predicate KeepsNone(keep: Event -> bool, log: Log) {
    forall i :: 0 <= i < |log| ==> !keep(log[i])
  }

  // ---------------------------------------------------------------- rising versions

  lemma {:induction false} SeqNoAtLeast(remote: seq<EventWithVersion>, i: nat)
    requires Rising(remote) && i < |remote|
    ensures SeqNo(remote[i]) >= i + 1
    decreases i
  {
    if i > 0 {
      SeqNoAtLeast(remote, i - 1);
    }
  }

  lemma RisingPrefix(remote: seq<EventWithVersion>, n: nat)
    requires Rising(remote) && n <= |remote|
    ensures Rising(remote[..n])
  {
  }

  /** How many events of the remote log have a version up to v. */
  ghost function Passed(remote: seq<EventWithVersion>, v: nat): (p: nat)
    requires Rising(remote)
    ensures p <= |remote| && p <= v
    decreases |remote|
  {
    if |remote| == 0 then 0 else
      var n := |remote| - 1;
      SeqNoAtLeast(remote, n);
      RisingPrefix(remote, n);
      if SeqNo(remote[n]) <= v then |remote| else Passed(remote[..n], v)
  }

  /** Loading above v leaves exactly the events that v has passed. */
  lemma {:induction false} SelectedIsSuffix(remote: seq<EventWithVersion>, v: nat)
    requires Rising(remote)
    ensures Selected(remote, v, map[]) == remote[Passed(remote, v)..]
    decreases |remote|
  {
    hide Selected, Passed, Rising;
    SelectedStep(remote, v);
    if |remote| > 0 {
      var n := |remote| - 1;
      PassedStep(remote, v);
      SelectedIsSuffix(remote[..n], v);
      var p := Passed(remote[..n], v);
      if SeqNo(remote[n]) <= v {
        AllPassed(remote, n, v);
      } else {
        assert remote[p..] == remote[..n][p..] + [remote[n]];
      }
    }
  }

  lemma SelectedStep(remote: seq<EventWithVersion>, v: nat)
    requires Rising(remote)
    ensures var n := |remote| - 1;
            Selected(remote, v, map[]) == if n < 0 then [] else
              Selected(remote[..n], v, map[]) + if SeqNo(remote[n]) > v then [remote[n]] else []
  {
  }

  lemma PassedStep(remote: seq<EventWithVersion>, v: nat)
    requires Rising(remote) && |remote| > 0
    ensures var n := |remote| - 1;
            Rising(remote[..n]) &&
            Passed(remote, v) == if SeqNo(remote[n]) <= v then |remote| else Passed(remote[..n], v)
  {
    RisingPrefix(remote, |remote| - 1);
  }

  lemma AllPassed(remote: seq<EventWithVersion>, n: nat, v: nat)
    requires Rising(remote) && n == |remote| - 1 && SeqNo(remote[n]) <= v
    ensures Rising(remote[..n]) && Passed(remote[..n], v) == n
  {
    RisingPrefix(remote, n);
    if n > 0 {
      assert remote[..n][n - 1] == remote[n - 1];
    }
  }

  /** The latest version is that of the last event, and at least the number of events. */
  lemma {:induction false} MaxSeqOfRising(remote: seq<EventWithVersion>)
    requires Rising(remote)
    ensures MaxSeq(remote) == if |remote| == 0 then 0 else SeqNo(remote[|remote| - 1])
    ensures MaxSeq(remote) >= |remote|
    decreases |remote|
  {
    if |remote| > 0 {
      var n := |remote| - 1;
      RisingPrefix(remote, n);
      MaxSeqOfRising(remote[..n]);
      SeqNoAtLeast(remote, n);
      if n > 0 {
        assert remote[..n][n - 1] == remote[n - 1];
      }
    }
  }

  /** There are no gaps exactly when the latest version is the number of events. */
  lemma NoGapsExactly(remote: seq<EventWithVersion>)
    requires Rising(remote)
    ensures MaxSeq(remote) == |remote| <==> remote == Numbered(Strip(remote))
    ensures Passed(remote, |remote|) == |remote| <==> remote == Numbered(Strip(remote))
  {
    MaxSeqOfRising(remote);
    if |remote| > 0 {
      var n := |remote| - 1;
      SeqNoAtLeast(remote, n);
      if SeqNo(remote[n]) == |remote| {
        forall i | 0 <= i < |remote|
          ensures remote[i] == Numbered(Strip(remote))[i]
        {
          SeqNoAtLeast(remote, i);
          SeqNoAtMost(remote, i);
        }
      } else {
        RisingPrefix(remote, n);
      }
    }
  }

  lemma {:induction false} SeqNoAtMost(remote: seq<EventWithVersion>, i: nat)
    requires Rising(remote) && i < |remote|
    ensures SeqNo(remote[i]) + (|remote| - 1 - i) <= SeqNo(remote[|remote| - 1])
    decreases |remote| - i
  {
    if i + 1 < |remote| {
      SeqNoAtMost(remote, i + 1);
    }
  }

  // ---------------------------------------------------------------- filters

  lemma {:induction false} KeptConcat(a: seq<EventWithVersion>, b: seq<EventWithVersion>, keep: Event -> bool)
    ensures Kept(a + b, keep) == Kept(a, keep) + Kept(b, keep)
    decreases |b|
  {
    if |b| == 0 {
      assert a + b == a && Kept(b, keep) == [];
    } else {
      var n := |b| - 1;
      KeptConcat(a, b[..n], keep);
      assert (a + b)[..|a| + n] == a + b[..n];
    }
  }

  lemma {:induction false} KeptIsNone(evs: seq<EventWithVersion>, keep: Event -> bool)
    ensures |Kept(evs, keep)| == 0 <==> KeepsNone(keep, Strip(evs))
    decreases |evs|
  {
    if |evs| > 0 {
      var n := |evs| - 1;
      KeptIsNone(evs[..n], keep);
      assert forall i :: 0 <= i < n ==> Strip(evs[..n])[i] == Strip(evs)[i];
      assert Strip(evs)[n] == evs[n].event;
    }
  }

  lemma StripConcat(a: seq<EventWithVersion>, b: seq<EventWithVersion>)
    ensures Strip(a + b) == Strip(a) + Strip(b)
  {
  }

  /** All that passes the filter is kept by it. */
  lemma KeptAreKept(evs: seq<EventWithVersion>, keep: Event -> bool)
    ensures KeepsAll(keep, Strip(Kept(evs, keep)))
  {
    hide Kept;
    forall i | 0 <= i < |Kept(evs, keep)|
      ensures keep(Strip(Kept(evs, keep))[i])
    {
      KeptExactly(evs, keep, Kept(evs, keep)[i]);
    }
  }

  /** The filter leaves the events from k on exactly when it drops all before k and keeps the rest. */
  lemma KeptIsSuffix(evs: seq<EventWithVersion>, keep: Event -> bool, k: nat)
    requires k <= |evs|
    ensures Strip(Kept(evs, keep)) == Strip(evs)[k..] <==>
            KeepsNone(keep, Strip(evs)[..k]) && KeepsAll(keep, Strip(evs)[k..])
  {
    hide Kept, KeepsAll, KeepsNone;
    var a, b := evs[..k], evs[k..];
    assert evs == a + b;
    assert Strip(a) == Strip(evs)[..k] && Strip(b) == Strip(evs)[k..];
    var keptA, keptB := Kept(a, keep), Kept(b, keep);
    KeptConcat(a, b, keep);
    KeptIsNone(a, keep);
    KeptIsAll(b, keep);
    KeptAreKept(evs, keep);
    assert |Strip(keptA + keptB)| == |keptA| + |keptB| && |Strip(b)| == |b|;
    hide Strip;
    if KeepsNone(keep, Strip(a)) && KeepsAll(keep, Strip(b)) {
      assert keptA + keptB == b;
    }
    if Strip(keptA + keptB) == Strip(b) {
      assert keptB == b;
      assert |keptA| == 0;
    }
  }

  /** Copying events that a store has handed out changes nothing. */
  lemma KeptCopies(evs: seq<EventWithVersion>, keep: Event -> bool)
    requires Normal(Strip(evs))
    ensures CopiedAll(Kept(evs, keep)) == Strip(Kept(evs, keep))
  {
    hide Kept;
    var kept := Kept(evs, keep);
    forall i | 0 <= i < |kept|
      ensures Copied(kept[i].event) == kept[i].event
    {
      KeptExactly(evs, keep, kept[i]);
      var j :| 0 <= j < |evs| && evs[j] == kept[i];
      assert Strip(evs)[j] == evs[j].event;
    }
  }

  // ---------------------------------------------------------------- one pull, one push, one sync

  /** What a successful pull appends. */
  lemma PullAppendsKept(keep: Event -> bool, local: Log, remote: seq<EventWithVersion>, env: PullEnv)
    requires Rising(remote) && Normal(Strip(remote)) && AfterPull(keep, local, remote, env).1
    ensures AfterPull(keep, local, remote, env).0 ==
            local + Strip(Kept(remote[Passed(remote, |local|)..], keep))
  {
    hide Selected, Kept, Rising, Passed;
    var p := Passed(remote, |local|);
    SelectedIsSuffix(remote, |local|);
    assert Strip(remote[p..]) == Strip(remote)[p..];
    KeptCopies(remote[p..], keep);
    KeptOfNothing(remote[p..], keep);
    var none: Log := [];
    assert local + none == local;
  }

  /**
   A successful pull makes the local log that of the remote exactly when the local log was a
   prefix of it, the filter drops what the local version has not passed of that prefix, and it
   keeps the rest.  Without gaps the local version has passed all of the prefix.
   */
  lemma FilteredPullIsExact(keep: Event -> bool, local: Log, remote: seq<EventWithVersion>, env: PullEnv)
    requires Rising(remote) && Normal(Strip(remote)) && AfterPull(keep, local, remote, env).1
    ensures AfterPull(keep, local, remote, env).0 == Strip(remote) <==>
            && local <= Strip(remote)
            && KeepsNone(keep, Strip(remote)[Passed(remote, |local|)..|local|])
            && KeepsAll(keep, Strip(remote)[|local|..])
  {
    hide Kept, Rising, Passed, KeepsNone, KeepsAll;
    var R, n, p := Strip(remote), |local|, Passed(remote, |local|);
    PullAppendsKept(keep, local, remote, env);
    var rest := remote[p..];
    assert Strip(rest) == R[p..];
    if n <= |R| {
      KeptIsSuffix(rest, keep, n - p);
      assert Strip(rest)[..n - p] == R[p..n] && Strip(rest)[n - p..] == R[n..];
      assert local + Strip(Kept(rest, keep)) == R <==> local <= R && Strip(Kept(rest, keep)) == R[n..];
    }
  }

  /** So an unfiltered pull does exactly when the local log is what its version has passed. */
  lemma UnfilteredPullIsExact(keep: Event -> bool, local: Log, remote: seq<EventWithVersion>, env: PullEnv)
    requires Unfiltered(keep) && Rising(remote) && Normal(Strip(remote)) && AfterPull(keep, local, remote, env).1
    ensures AfterPull(keep, local, remote, env).0 == Strip(remote) <==>
            local == Strip(remote)[..Passed(remote, |local|)]
  {
    hide Passed, Rising;
    var R, n, p := Strip(remote), |local|, Passed(remote, |local|);
    FilteredPullIsExact(keep, local, remote, env);
    if local <= R {
      assert KeepsNone(keep, R[p..n]) <==> p == n by {
        if p < n {
          assert keep(R[p..n][0]);
        }
      }
      assert R[..n] == local;
    } else if local == R[..p] {
      assert false;
    }
  }

  /**
   A successful push makes the remote log that of the client exactly when it was already, or when
   it had no gaps, was behind, and the filter keeps the rest.
   */
  lemma FilteredPushIsExact(opts: Options, keep: Event -> bool, local: Log, remote: seq<EventWithVersion>, env: PushEnv)
    requires Rising(remote) && AfterPush(opts, keep, local, remote, env).1
    ensures var R, remote' := Strip(remote), AfterPush(opts, keep, local, remote, env).0;
            && remote <= remote'
            && (Strip(remote') == local <==>
                || local == R
                || (remote == Numbered(R) && R <= local && KeepsAll(keep, local[|R|..])))
  {
    hide Selected, Kept, Delivered, Rising, Numbered;
    var R, m := Strip(remote), MaxSeq(remote);
    MaxSeqOfRising(remote);
    NoGapsExactly(remote);
    SelectedIsTail(local, m);
    NumberedLength(local);
    var tail := if m <= |local| then Numbered(local)[m..] else [];
    var out := Kept(tail, keep);
    KeptIsAll(tail, keep);
    var remote' := AfterPush(opts, keep, local, remote, env).0;
    assert remote' == remote + out;
    StripConcat(remote, out);
    if m <= |local| {
      NumberedTail(local, m);
      if Strip(remote') == local && local != R {
        assert |R| + |out| == |local|;
        assert |out| == |tail| && m == |R|;
        assert R <= local;
      }
      if m == |R| && R <= local && KeepsAll(keep, local[m..]) {
        assert R + local[m..] == local;
      }
    }
  }

  lemma NumberedTail(local: Log, m: nat)
    requires m <= |local|
    ensures |Numbered(local)| == |local| && Strip(Numbered(local)[m..]) == local[m..]
  {
  }

  /**
   A successful sync in both directions makes the two logs equal exactly when the pull does, or
   when the remote log has no gaps, is a prefix of the local one, and the filter keeps the rest.
   */
  lemma FilteredSyncIsExact(opts: Options, keep: Event -> bool, local: Log, remote: seq<EventWithVersion>, env: SyncEnv)
    requires !opts.pushOnly && !opts.pullOnly && Rising(remote) && Normal(Strip(remote))
    requires AfterSync(opts, keep, local, remote, env).ok
    ensures var R, r := Strip(remote), AfterSync(opts, keep, local, remote, env);
            Strip(r.remote) == r.local <==>
            || (local <= R && KeepsNone(keep, R[Passed(remote, |local|)..|local|]) && KeepsAll(keep, R[|local|..]))
            || (remote == Numbered(R) && R <= local && KeepsAll(keep, local[|R|..]))
  {
    hide AfterPull, AfterPush, Rising, Passed, KeepsAll, KeepsNone, Numbered;
    var R := Strip(remote);
    var local' := AfterPull(keep, local, remote, env.pull).0;
    FilteredPullIsExact(keep, local, remote, env.pull);
    FilteredPushIsExact(opts, keep, local', remote, env.push);
    if remote == Numbered(R) {
      PullFromNumbered(keep, local, R, env.pull);
    }
  }

  /** A pull from a log without gaps does not go beyond it, and leaves a log alone that is not shorter. */
  lemma PullFromNumbered(keep: Event -> bool, local: Log, R: Log, env: PullEnv)
    ensures var local' := AfterPull(keep, local, Numbered(R), env).0;
            (|local| <= |R| ==> |local'| <= |R|) && (|R| <= |local| ==> local' == local)
  {
    hide Selected, Kept;
    SelectedIsTail(R, |local|);
    KeptIsAll(Selected(Numbered(R), |local|, map[]), keep);
  }

  /** Without gaps: exactly when one log was a prefix of the other and the filter keeps what is to be transferred. */
  lemma NumberedSyncIsExact(opts: Options, keep: Event -> bool, local: Log, R: Log, env: SyncEnv)
    requires !opts.pushOnly && !opts.pullOnly && Normal(R) && AfterSync(opts, keep, local, Numbered(R), env).ok
    ensures var r := AfterSync(opts, keep, local, Numbered(R), env);
            Strip(r.remote) == r.local <==>
            Comparable(local, R) && KeepsAll(keep, if |local| <= |R| then R[|local|..] else local[|R|..])
  {
    hide AfterSync;
    var remote := Numbered(R);
    assert Strip(remote) == R && Rising(remote);
    FilteredSyncIsExact(opts, keep, local, remote, env);
    if |local| <= |R| {
      PassedOfNumbered(R, |local|);
      assert |R[|local|..|local|]| == 0;
    }
    if local == R {
      assert |R[|local|..]| == 0 && |local[|R|..]| == 0;
    }
  }

  lemma NumberedRises(R: Log)
    ensures Rising(Numbered(R)) && Strip(Numbered(R)) == R
  {
  }

  lemma {:induction false} PassedOfNumbered(R: Log, v: nat)
    requires v <= |R|
    ensures Rising(Numbered(R)) && Passed(Numbered(R), v) == v
    decreases |R|
  {
    assert Rising(Numbered(R));
    if v < |R| {
      var n := |R| - 1;
      assert Numbered(R)[..n] == Numbered(R[..n]);
      PassedOfNumbered(R[..n], v);
    }
  }

  /** Logs that are equal stay equal under an unfiltered pull exactly when the remote log has no gaps. */
  lemma EqualLogsStayEqualExactly(keep: Event -> bool, remote: seq<EventWithVersion>, env: PullEnv)
    requires Unfiltered(keep) && Rising(remote) && Normal(Strip(remote))
    requires AfterPull(keep, Strip(remote), remote, env).1
    ensures AfterPull(keep, Strip(remote), remote, env).0 == Strip(remote) <==> remote == Numbered(Strip(remote))
  {
    hide AfterPull, Rising, Passed;
    UnfilteredPullIsExact(keep, Strip(remote), remote, env);
    NoGapsExactly(remote);
  }

  // ---------------------------------------------------------------- pulling again

  lemma {:induction false} PassedGrows(remote: seq<EventWithVersion>, v: nat, w: nat)
    requires Rising(remote) && v <= w
    ensures Passed(remote, v) <= Passed(remote, w)
    decreases |remote|
  {
    if |remote| > 0 {
      RisingPrefix(remote, |remote| - 1);
      PassedGrows(remote[..|remote| - 1], v, w);
    }
  }

  /**
   A pull after a pull with the same filter: it stores once more the last part of what the first
   has stored, namely what the filter keeps of the events that the local version has still not
   passed.  It changes nothing exactly when the filter drops all of these.
   */
  lemma SecondPullIsExact(keep: Event -> bool, local: Log, remote: seq<EventWithVersion>, env1: PullEnv, env2: PullEnv)
    requires Rising(remote) && Normal(Strip(remote)) && AfterPull(keep, local, remote, env1).1
    requires AfterPull(keep, AfterPull(keep, local, remote, env1).0, remote, env2).1
    ensures var l1 := AfterPull(keep, local, remote, env1).0;
            var l2 := AfterPull(keep, l1, remote, env2).0;
            var p1, p2 := Passed(remote, |local|), Passed(remote, |l1|);
            && p1 <= p2
            && l1 == local + Strip(Kept(remote[p1..p2], keep)) + Strip(Kept(remote[p2..], keep))
            && l2 == l1 + Strip(Kept(remote[p2..], keep))
            && (l2 == l1 <==> KeepsNone(keep, Strip(remote)[p2..]))
  {
    hide AfterPull, Kept, Rising, Passed, KeepsNone;
    PullAppendsKept(keep, local, remote, env1);
    var l1 := AfterPull(keep, local, remote, env1).0;
    PullAppendsKept(keep, l1, remote, env2);
    var p1, p2 := Passed(remote, |local|), Passed(remote, |l1|);
    PassedGrows(remote, |local|, |l1|);
    assert remote[p1..] == remote[p1..p2] + remote[p2..];
    KeptConcat(remote[p1..p2], remote[p2..], keep);
    StripConcat(Kept(remote[p1..p2], keep), Kept(remote[p2..], keep));
    assert Strip(remote[p2..]) == Strip(remote)[p2..];
    KeptIsNone(remote[p2..], keep);
  }

  /** A second pull without failures changes nothing. */
  ghost predicate PullsOnce(keep: Event -> bool, local: Log, R: Log) {
    var l1 := AfterPull(keep, local, Numbered(R), Healthy.pull).0;
    AfterPull(keep, l1, Numbered(R), Healthy.pull).0 == l1
  }

  lemma HealthyPull(keep: Event -> bool, local: Log, remote: seq<EventWithVersion>)
    ensures AfterPull(keep, local, remote, Healthy.pull).1
  {
    hide Selected, Kept;
  }

  /** From a log without gaps: exactly when the filter drops all events beyond the new length of the local log. */
  lemma PullsOnceExactly(keep: Event -> bool, local: Log, R: Log)
    requires Normal(R)
    ensures var l1 := AfterPull(keep, local, Numbered(R), Healthy.pull).0;
            PullsOnce(keep, local, R) <==> forall i :: |l1| <= i < |R| ==> !keep(R[i])
  {
    hide AfterPull, Kept, Rising, Passed, Numbered, Strip;
    var remote := Numbered(R);
    NumberedRises(R);
    HealthyPull(keep, local, remote);
    var l1 := AfterPull(keep, local, remote, Healthy.pull).0;
    HealthyPull(keep, l1, remote);
    SecondPullIsExact(keep, local, remote, Healthy.pull, Healthy.pull);
    if |l1| <= |R| {
      PassedOfNumbered(R, |l1|);
      assert forall i :: |l1| <= i < |R| ==> R[i] == R[|l1|..][i - |l1|];
    } else {
      PassedOfNumbered(R, |R|);
      PassedGrows(remote, |R|, |l1|);
      NumberedLength(R);
    }
  }

  /** The filter treats all stored events alike. */
  ghost predicate Constant(keep: Event -> bool) {
    forall a: Event, b: Event :: Copied(a) == a && Copied(b) == b ==> keep(a) == keep(b)
  }

  /** Two pulls in a row never store an event twice, whatever the logs, exactly when the filter keeps all or nothing. */
  lemma FilterIsSafeExactly(keep: Event -> bool)
    ensures Constant(keep) <==> forall local: Log, R: Log :: Normal(R) ==> PullsOnce(keep, local, R)
  {
    hide PullsOnce;
    if Constant(keep) {
      forall local: Log, R: Log | Normal(R)
        ensures PullsOnce(keep, local, R)
      {
        ConstantPullsOnce(keep, local, R);
      }
    } else {
      var a: Event, b: Event :| Copied(a) == a && Copied(b) == b && keep(a) != keep(b);
      var x, c := if keep(a) then b else a, if keep(a) then a else b;
      FilteredPullsDuplicate(keep, x, c);
      var R := [x, c];
      assert Normal(R);
      PulledTwice(keep, x, c);
    }
  }

  lemma ConstantPullsOnce(keep: Event -> bool, local: Log, R: Log)
    requires Constant(keep) && Normal(R)
    ensures PullsOnce(keep, local, R)
  {
    hide PullsOnce;
    PullsOnceExactly(keep, local, R);
    var l1 := AfterPull(keep, local, Numbered(R), Healthy.pull).0;
    if i :| |l1| <= i < |R| && keep(R[i]) {
      forall k | |local| <= k < |R|
        ensures keep(R[k])
      {
        assert Copied(R[k]) == R[k] && Copied(R[i]) == R[i];
      }
      PullOfKept(keep, local, R);
    }
  }

  lemma PullOfKept(keep: Event -> bool, local: Log, R: Log)
    requires forall k :: |local| <= k < |R| ==> keep(R[k])
    ensures |AfterPull(keep, local, Numbered(R), Healthy.pull).0| >= |R|
  {
    hide Selected, Kept;
    SelectedIsTail(R, |local|);
    if |local| <= |R| {
      NumberedTail(R, |local|);
      KeptIsAll(Numbered(R)[|local|..], keep);
    }
  }

  /** A filter that drops x and keeps c: the same pull, made twice, stores c twice. */
  lemma FilteredPullsDuplicate(keep: Event -> bool, x: Event, c: Event)
    requires Copied(x) == x && Copied(c) == c && !keep(x) && keep(c)
    ensures AfterPull(keep, [], Numbered([x, c]), Healthy.pull) == ([c], true)
    ensures AfterPull(keep, [c], Numbered([x, c]), Healthy.pull) == ([c, c], true)
  {
    var u, v := EventWithVersion(x, Cursor(1)), EventWithVersion(c, Cursor(2));
    assert Numbered([x, c]) == [u, v] && Normal([x, c]);
    hide AfterPull, Passed, Rising, Numbered, Strip, Normal;
    var R, none: Log := [x, c], [];
    NumberedRises(R);
    PassedOfNumbered(R, 0);
    PassedOfNumbered(R, 1);
    PullOfPair(keep, none, u, v);
    PullOfPair(keep, [c], u, v);
    assert none + [c] == [c] && [c] + [c] == [c, c];
  }

  lemma PullOfPair(keep: Event -> bool, local: Log, u: EventWithVersion, v: EventWithVersion)
    requires Rising([u, v]) && Normal(Strip([u, v])) && Passed([u, v], |local|) <= 1 && !keep(u.event) && keep(v.event)
    ensures AfterPull(keep, local, [u, v], Healthy.pull) == (local + [v.event], true)
  {
    hide AfterPull, Kept, Passed, Rising, Normal;
    var k := Passed([u, v], |local|);
    assert [u, v][k..] == if k == 0 then [u, v] else [v];
    KeptPair(keep, u, v);
    HealthyPull(keep, local, [u, v]);
    PullAppendsKept(keep, local, [u, v], Healthy.pull);
    assert Strip([v]) == [v.event];
  }

  lemma KeptPair(keep: Event -> bool, u: EventWithVersion, v: EventWithVersion)
    requires !keep(u.event) && keep(v.event)
    ensures Kept([u, v], keep) == [v] && Kept([v], keep) == [v]
  {
    var none: seq<EventWithVersion> := [];
    assert [v][..0] == none && [u][..0] == none && [u, v][..1] == [u];
    assert Kept([u], keep) == none;
  }

  lemma PulledTwice(keep: Event -> bool, x: Event, c: Event)
    requires AfterPull(keep, [], Numbered([x, c]), Healthy.pull) == ([c], true)
    requires AfterPull(keep, [c], Numbered([x, c]), Healthy.pull) == ([c, c], true)
    ensures !PullsOnce(keep, [], [x, c])
  {
    hide AfterPull;
    assert |[c]| != |[c, c]|;
  }

  /**
   A filtered push leaves a gap, and a gap makes even unfiltered syncs store events again: here the
   logs are equal, nothing is to be transferred, the sync succeeds, and the client has c twice.
   */
  lemma GapDuplicates(keep: Event -> bool, every: Event -> bool, x: Event, c: Event)
    requires Copied(x) == x && Copied(c) == c && !keep(x) && keep(c) && Unfiltered(every)
    ensures var remote := [EventWithVersion(c, Cursor(2))];
            && AfterPush(TwoWay, keep, [x, c], [], Healthy.push) == (remote, true)
            && AfterSync(TwoWay, every, [c], remote, Healthy) == SyncOutcome([c, c], remote, true)
  {
    var u, v := EventWithVersion(x, Cursor(1)), EventWithVersion(c, Cursor(2));
    var remote, none: seq<EventWithVersion> := [v], [];
    assert Numbered([x, c]) == [u, v];
    GapPush(keep, u, v);
    GapSync(every, c);
  }

  lemma GapPush(keep: Event -> bool, u: EventWithVersion, v: EventWithVersion)
    requires !keep(u.event) && keep(v.event) && Numbered([u.event, v.event]) == [u, v]
    ensures AfterPush(TwoWay, keep, [u.event, v.event], [], Healthy.push) == ([v], true)
  {
    hide Selected, Kept, Delivered, Numbered;
    var none: seq<EventWithVersion> := [];
    SelectedIsTail([u.event, v.event], 0);
    assert [u, v][0..] == [u, v];
    KeptPair(keep, u, v);
    assert Outgoing([u.event, v.event], none, keep) == [v];
    AlwaysDelivered(BatchSize(TwoWay), 1, 0, 0);
    assert none + [v][..1] == [v];
  }

  lemma GapSync(every: Event -> bool, c: Event)
    requires Unfiltered(every) && Copied(c) == c
    ensures var remote := [EventWithVersion(c, Cursor(2))];
            AfterSync(TwoWay, every, [c], remote, Healthy) == SyncOutcome([c, c], remote, true)
  {
    var remote, none: seq<EventWithVersion> := [EventWithVersion(c, Cursor(2))], [];
    GapPull(every, c, remote);
    MaxSeqOfRising(remote);
    hide AfterPull, Selected, Kept, Delivered, Numbered;
    SelectedIsTail([c, c], 2);
    NumberedLength([c, c]);
    assert Numbered([c, c])[2..] == none;
    KeptOfNothing(none, every);
    DeliveredNothing(BatchSize(TwoWay), Healthy.push.fates);
    assert remote + none[..0] == remote;
  }

  lemma GapPull(every: Event -> bool, c: Event, remote: seq<EventWithVersion>)
    requires Unfiltered(every) && Copied(c) == c && remote == [EventWithVersion(c, Cursor(2))]
    ensures Rising(remote) && AfterPull(every, [c], remote, Healthy.pull) == ([c, c], true)
  {
    var none: seq<EventWithVersion> := [];
    assert remote[..0] == none && remote[0..] == remote && Strip(remote) == [c];
    assert Rising(remote) && Passed(remote, 1) == 0;
    KeptIsAll(remote, every);
    assert KeepsAll(every, Strip(remote)) && Normal([c]);
    hide AfterPull, Kept, Passed, Rising, Strip;
    HealthyPull(every, [c], remote);
    PullAppendsKept(every, [c], remote, Healthy.pull);
    assert |[c]| == 1 && [c] + [c] == [c, c];
  }

  // ---------------------------------------------------------------- whole runs

  lemma {:induction false} KeptRises(evs: seq<EventWithVersion>, keep: Event -> bool)
    requires Rising(evs)
    ensures Rising(Kept(evs, keep))
    decreases |evs|
  {
    if |evs| > 0 {
      var n := |evs| - 1;
      var front := Kept(evs[..n], keep);
      assert Kept(evs, keep) == front + if keep(evs[n].event) then [evs[n]] else [];
      hide Kept;
      RisingPrefix(evs, n);
      KeptRises(evs[..n], keep);
      forall i | 0 <= i < |front|
        ensures SeqNo(front[i]) < SeqNo(evs[n])
      {
        KeptExactly(evs[..n], keep, front[i]);
        var j :| 0 <= j < n && evs[..n][j] == front[i];
        assert SeqNo(evs[j]) < SeqNo(evs[n]);
      }
      assert Rising([evs[n]]) && front + [] == front;
      hide Rising;
      RisingConcat(front, [evs[n]], SeqNo(evs[n]) - 1);
    }
  }

  lemma RisingConcat(a: seq<EventWithVersion>, b: seq<EventWithVersion>, m: nat)
    requires Rising(a) && Rising(b)
    requires forall i :: 0 <= i < |a| ==> SeqNo(a[i]) <= m
    requires forall i :: 0 <= i < |b| ==> SeqNo(b[i]) > m
    ensures Rising(a + b)
  {
    forall i, j | 0 <= i < j < |a + b|
      ensures SeqNo((a + b)[i]) < SeqNo((a + b)[j])
    {
      if j < |a| {
        assert SeqNo(a[i]) < SeqNo(a[j]);
      } else if i >= |a| {
        assert SeqNo(b[i - |a|]) < SeqNo(b[j - |a|]);
      }
    }
  }

  /** A push with any filter and any failures keeps the versions rising. */
  lemma PushKeepsRising(opts: Options, keep: Event -> bool, local: Log, remote: seq<EventWithVersion>, env: PushEnv)
    requires Rising(remote)
    ensures Rising(AfterPush(opts, keep, local, remote, env).0)
  {
    hide Selected, Kept, Delivered;
    var m := MaxSeq(remote);
    MaxSeqIsHighest(remote);
    SelectedIsTail(local, m);
    var tail := if m <= |local| then Numbered(local)[m..] else [];
    assert Rising(tail);
    KeptRises(tail, keep);
    var out := Kept(tail, keep);
    assert out == Outgoing(local, remote, keep);
    forall i | 0 <= i < |out|
      ensures SeqNo(out[i]) > m
    {
      KeptExactly(tail, keep, out[i]);
      assert out[i] in tail;
    }
    forall n: nat | n <= |out|
      ensures Rising(remote + out[..n])
    {
      RisingPrefix(out, n);
      RisingConcat(remote, out[..n], m);
    }
  }

  lemma DoKeepsRising(s: System, a: Action)
    requires Rising(s.remote) && a.client < |s.clients|
    ensures Rising(Do(s, a).remote)
  {
    hide PullAmid, AfterPush, Rising;
    var local := s.clients[a.client];
    match a
    case Write(_, _) =>
    case Sync(_, cfg, around) =>
      PushKeepsRising(cfg.opts, cfg.keep, PullPart(cfg, local, s.remote, around).local, s.remote, around.env.push);
    case Pull(_, _, _, _, _) =>
    case Push(_, cfg, env) =>
      PushKeepsRising(cfg.opts, cfg.keep, local, s.remote, env);
  }

  /** Every run, with any filters, writers and failures, leaves a remote log with rising versions. */
  lemma {:induction false} AfterKeepsRising(s: System, run: seq<Action>)
    requires Runnable(s, run) && Rising(s.remote)
    ensures Rising(After(s, run).remote)
    decreases |run|
  {
    hide Rising;
    if |run| > 0 {
      DoKeepsRising(s, run[0]);
      DoAppends(s, run[0]);
      hide Do;
      AfterKeepsRising(Do(s, run[0]), run[1..]);
    }
  }

  /** So the results above apply after every run from empty logs. */
  lemma ReachableIsRising(n: nat, run: seq<Action>)
    requires Runnable(Empty(n), run)
    ensures var s := After(Empty(n), run);
            Rising(s.remote) && Normal(Strip(s.remote))
  {
    assert AllNormal(Empty(n)) && Rising(Empty(n).remote);
    AfterKeepsRising(Empty(n), run);
    AfterKeepsNormal(Empty(n), run);
  }
}
