/** The conflict detector of the sync manager (detectConflicts in synckit/manager.go). */
module ConflictDetection {
  import opened Versions

  /** A conflict with the metadata that rules look at. */
  datatype Conflict = Conflict(
    eventType: string, aggregateID: string, local: EventWithVersion, remote: EventWithVersion,
    versionComparison: int, dataChanged: bool)

  /** The key under which the detector looks an event up. */
  function Key(e: Event): string {
    e.aggregateID + ":" + e.kind
  }

  function MakeConflict(local: EventWithVersion, remote: EventWithVersion): Conflict {
    Conflict(remote.event.kind, remote.event.aggregateID, local, remote,
             CompareVersions(local.version, remote.version), local.event.data != remote.event.data)
  }

  /** Same key and different versions. */
  predicate Clash(local: EventWithVersion, remote: EventWithVersion) {
    Key(local.event) == Key(remote.event) && CompareVersions(local.version, remote.version) != 0
  }

  /** The conflicts of one remote event with the local events, in local order. */
  function ClashesWith(locals: seq<EventWithVersion>, remote: EventWithVersion): seq<Conflict> {
    if |locals| == 0 then [] else
      var l := locals[|locals| - 1];
      ClashesWith(locals[..|locals| - 1], remote) + if Clash(l, remote) then [MakeConflict(l, remote)] else []
  }

  /** The nested-loop definition: for every remote event, every clashing local event. */
  function Conflicts(locals: seq<EventWithVersion>, remotes: seq<EventWithVersion>): seq<Conflict> {
    if |remotes| == 0 then [] else
      Conflicts(locals, remotes[..|remotes| - 1]) + ClashesWith(locals, remotes[|remotes| - 1])
  }

  /** A local and a remote event that clash, with c as their conflict. */
  ghost predicate ClashPair(
    locals: seq<EventWithVersion>, remotes: seq<EventWithVersion>,
    l: EventWithVersion, r: EventWithVersion, c: Conflict)
  {
    l in locals && r in remotes && Clash(l, r) && c == MakeConflict(l, r)
  }

  lemma {:induction false} ClashesExactly(locals: seq<EventWithVersion>, remote: EventWithVersion, c: Conflict)
    ensures c in ClashesWith(locals, remote) <==> exists l :: ClashPair(locals, [remote], l, remote, c)
    decreases |locals|
  {
    if |locals| > 0 {
      var front, last := locals[..|locals| - 1], locals[|locals| - 1];
      assert locals == front + [last];
      ClashesExactly(front, remote, c);
      if c in ClashesWith(front, remote) {
        var l :| ClashPair(front, [remote], l, remote, c);
        assert ClashPair(locals, [remote], l, remote, c);
      } else if c in ClashesWith(locals, remote) {
        assert ClashPair(locals, [remote], last, remote, c);
      }
      if l :| ClashPair(locals, [remote], l, remote, c) {
        assert l == last || ClashPair(front, [remote], l, remote, c);
      }
    }
  }

  /** The conflicts are exactly those of the clashing pairs. */
  lemma {:induction false} ConflictsExactly(
    locals: seq<EventWithVersion>, remotes: seq<EventWithVersion>, c: Conflict)
    ensures c in Conflicts(locals, remotes) <==> exists l, r :: ClashPair(locals, remotes, l, r, c)
    decreases |remotes|
  {
    hide ClashesWith, Clash, MakeConflict;
    if |remotes| > 0 {
      var front, last := remotes[..|remotes| - 1], remotes[|remotes| - 1];
      assert remotes == front + [last];
      ConflictsExactly(locals, front, c);
      ClashesExactly(locals, last, c);
      if c in Conflicts(locals, front) {
        var l, r :| ClashPair(locals, front, l, r, c);
        assert ClashPair(locals, remotes, l, r, c);
      } else if c in Conflicts(locals, remotes) {
        var l :| ClashPair(locals, [last], l, last, c);
        assert ClashPair(locals, remotes, l, last, c);
      }
      if l, r :| ClashPair(locals, remotes, l, r, c) {
        assert ClashPair(locals, [last], l, r, c) || ClashPair(locals, front, l, r, c);
      }
    }
  }

  /** Conflicts come in the order of the remote events, and for each of them in the order of the local events. */
  lemma {:induction false} ConflictsInOrder(
    locals: seq<EventWithVersion>, a: seq<EventWithVersion>, b: seq<EventWithVersion>)
    ensures Conflicts(locals, a + b) == Conflicts(locals, a) + Conflicts(locals, b)
    ensures |b| == 1 ==> Conflicts(locals, b) == ClashesWith(locals, b[0])
    decreases |b|
  {
    hide ClashesWith;
    if |b| == 0 {
      assert a + b == a;
    } else {
      var n := |b| - 1;
      assert (a + b)[..|a| + n] == a + b[..n] && (a + b)[|a| + n] == b[n];
      ConflictsInOrder(locals, a, b[..n]);
      var ca, cb, last := Conflicts(locals, a), Conflicts(locals, b[..n]), ClashesWith(locals, b[n]);
      assert Conflicts(locals, a + b) == Conflicts(locals, a + b[..n]) + last && Conflicts(locals, b) == cb + last;
      hide Conflicts;
      assert (ca + cb) + last == ca + (cb + last);
      if n == 0 {
        NoConflicts(locals, b[..n]);
        assert cb + last == last;
      }
    }
  }

  lemma NoConflicts(locals: seq<EventWithVersion>, remotes: seq<EventWithVersion>)
    requires |remotes| == 0
    ensures Conflicts(locals, remotes) == []
  {
  }

  lemma {:induction false} ClashesInOrder(a: seq<EventWithVersion>, b: seq<EventWithVersion>, r: EventWithVersion)
    ensures ClashesWith(a + b, r) == ClashesWith(a, r) + ClashesWith(b, r)
    ensures |ClashesWith(b, r)| <= |b|
    decreases |b|
  {
    if |b| == 0 {
      assert a + b == a && ClashesWith(a, r) + [] == ClashesWith(a, r);
    } else {
      var n := |b| - 1;
      assert (a + b)[..|a| + n] == a + b[..n];
      ClashesInOrder(a, b[..n], r);
    }
  }

  /** What a reported conflict says, in terms of the two events it is about. */
  lemma ConflictFields(locals: seq<EventWithVersion>, remotes: seq<EventWithVersion>, c: Conflict)
    requires c in Conflicts(locals, remotes)
    ensures c.local in locals && c.remote in remotes
    ensures c.eventType == c.remote.event.kind && c.aggregateID == c.remote.event.aggregateID
    ensures c.local.event.aggregateID + ":" + c.local.event.kind == c.aggregateID + ":" + c.eventType
    ensures c.versionComparison == CompareVersions(c.local.version, c.remote.version) != 0
    ensures c.dataChanged <==> c.local.event.data != c.remote.event.data
  {
    ConflictsExactly(locals, remotes, c);
    var l, r :| ClashPair(locals, remotes, l, r, c);
  }

  /** Every pair with the same key and different versions is reported. */
  lemma EveryClashIsReported(
    locals: seq<EventWithVersion>, remotes: seq<EventWithVersion>, l: EventWithVersion, r: EventWithVersion)
    requires l in locals && r in remotes && CompareVersions(l.version, r.version) != 0
    requires l.event.aggregateID + ":" + l.event.kind == r.event.aggregateID + ":" + r.event.kind
    ensures exists c :: c in Conflicts(locals, remotes) && c.local == l && c.remote == r
  {
    var c := MakeConflict(l, r);
    assert ClashPair(locals, remotes, l, r, c);
    ConflictsExactly(locals, remotes, c);
    assert c in Conflicts(locals, remotes);
  }

  /** The local events under one key, in local order. */
  function WithKey(locals: seq<EventWithVersion>, key: string): seq<EventWithVersion> {
    if |locals| == 0 then [] else
      var l := locals[|locals| - 1];
      WithKey(locals[..|locals| - 1], key) + if Key(l.event) == key then [l] else []
  }

  function Bucket(index: map<string, seq<EventWithVersion>>, key: string): seq<EventWithVersion> {
    if key in index then index[key] else []
  }

  method BuildIndex(locals: seq<EventWithVersion>) returns (index: map<string, seq<EventWithVersion>>)
    ensures forall key: string :: Bucket(index, key) == WithKey(locals, key)
  {
    index := map[];
    for i := 0 to |locals|
      invariant forall key: string :: Bucket(index, key) == WithKey(locals[..i], key)
    {
      assert locals[..i + 1][..i] == locals[..i];
      var key := Key(locals[i].event);
      var bucket := Bucket(index, key);
      index := index[key := bucket + [locals[i]]];
    }
    assert locals[..|locals|] == locals;
  }

  /** Looking only into the bucket of the remote event's key finds the same conflicts. */
  lemma {:induction false} BucketIsEnough(locals: seq<EventWithVersion>, remote: EventWithVersion)
    ensures ClashesWith(WithKey(locals, Key(remote.event)), remote) == ClashesWith(locals, remote)
    decreases |locals|
  {
    if |locals| > 0 {
      var front, l := locals[..|locals| - 1], locals[|locals| - 1];
      BucketIsEnough(front, remote);
      var found := WithKey(front, Key(remote.event));
      if Key(l.event) == Key(remote.event) {
        assert (found + [l])[..|found|] == found;
      } else {
        assert found + [] == found;
      }
    }
  }

  /** The detector, which indexes the local events by key, computes the nested-loop result in remote-major order. */
  method DetectConflicts(localEvents: seq<EventWithVersion>, remoteEvents: seq<EventWithVersion>)
    returns (conflicts: seq<Conflict>)
    ensures conflicts == Conflicts(localEvents, remoteEvents)
  {
    conflicts := [];
    var localByKey := BuildIndex(localEvents);
    for i := 0 to |remoteEvents|
      invariant conflicts == Conflicts(localEvents, remoteEvents[..i])
    {
      assert remoteEvents[..i + 1][..i] == remoteEvents[..i];
      var remote := remoteEvents[i];
      var key := Key(remote.event);
      BucketIsEnough(localEvents, remote);
      AllHaveKey(localEvents, key);
      assert Bucket(localByKey, key) == WithKey(localEvents, key);
      var found := ConflictsWith(Bucket(localByKey, key), remote);
      conflicts := conflicts + found;
    }
    assert remoteEvents[..|remoteEvents|] == remoteEvents;
  }

  /** The inner loop of the detector over the local events with the key of a remote event. */
  method ConflictsWith(localMatches: seq<EventWithVersion>, remote: EventWithVersion)
    returns (conflicts: seq<Conflict>)
    requires forall i :: 0 <= i < |localMatches| ==> Key(localMatches[i].event) == Key(remote.event)
    ensures conflicts == ClashesWith(localMatches, remote)
  {
    conflicts := [];
    for j := 0 to |localMatches|
      invariant conflicts == ClashesWith(localMatches[..j], remote)
    {
      assert localMatches[..j + 1][..j] == localMatches[..j];
      if CompareVersions(localMatches[j].version, remote.version) != 0 {
        conflicts := conflicts + [MakeConflict(localMatches[j], remote)];
      }
    }
    assert localMatches[..|localMatches|] == localMatches;
  }

  lemma {:induction false} AllHaveKey(locals: seq<EventWithVersion>, key: string)
    ensures forall i :: 0 <= i < |WithKey(locals, key)| ==> Key(WithKey(locals, key)[i].event) == key
    decreases |locals|
  {
    if |locals| > 0 {
      AllHaveKey(locals[..|locals| - 1], key);
    }
  }

  /** One aggregate ID is the other followed by a colon and part of the event type. */
  ghost predicate Straddles(a: Event, b: Event) {
    exists x: string :: b.aggregateID == a.aggregateID + ":" + x && a.kind == x + ":" + b.kind
  }

  /** Two events share a key exactly when they share aggregate and type, or a colon in an ID blurs the border. */
  lemma SameKeyExactly(a: Event, b: Event)
    ensures Key(a) == Key(b) <==>
            (a.aggregateID == b.aggregateID && a.kind == b.kind) || Straddles(a, b) || Straddles(b, a)
  {
    if Key(a) == Key(b) {
      if |a.aggregateID| == |b.aggregateID| {
        assert a.aggregateID == Key(a)[..|a.aggregateID|] && a.kind == Key(a)[|a.aggregateID| + 1..];
        assert b.aggregateID == Key(b)[..|b.aggregateID|] && b.kind == Key(b)[|b.aggregateID| + 1..];
      } else if |a.aggregateID| < |b.aggregateID| {
        KeyStraddles(a, b);
      } else {
        KeyStraddles(b, a);
      }
    }
    StraddlingKeys(a, b);
    StraddlingKeys(b, a);
  }

  /** Events of different aggregates and types under one key. */
  lemma StraddlingExample(a: Event, b: Event)
    requires a.aggregateID == "a" && a.kind == "b:c" && b.aggregateID == "a:b" && b.kind == "c"
    ensures Key(a) == Key(b)
  {
    assert Key(a) == "a:b:c" && Key(b) == "a:b:c";
  }

  lemma StraddlingKeys(a: Event, b: Event)
    ensures Straddles(a, b) ==> Key(a) == Key(b)
  {
    if Straddles(a, b) {
      var x: string :| b.aggregateID == a.aggregateID + ":" + x && a.kind == x + ":" + b.kind;
      assert a.aggregateID + ":" + (x + ":" + b.kind) == (a.aggregateID + ":" + x) + ":" + b.kind;
    }
  }

  lemma KeyStraddles(a: Event, b: Event)
    requires Key(a) == Key(b) && |a.aggregateID| < |b.aggregateID|
    ensures Straddles(a, b)
  {
    var n, m, k := |a.aggregateID|, |b.aggregateID|, Key(a);
    var x := k[n + 1..m];
    assert a.aggregateID == k[..n] && k[n] == ':' && a.kind == k[n + 1..];
    assert b.aggregateID == k[..m] && k[m] == ':' && b.kind == k[m + 1..];
    assert k[..m] == k[..n] + ":" + x;
    assert k[n + 1..] == x + ":" + k[m + 1..];
  }

  /** Without colons in aggregate IDs, a shared key means the same aggregate and the same type. */
  lemma SameKeyWithoutColons(a: Event, b: Event)
    requires ':' !in a.aggregateID && ':' !in b.aggregateID
    ensures Key(a) == Key(b) <==> a.aggregateID == b.aggregateID && a.kind == b.kind
  {
    SameKeyExactly(a, b);
    StraddlingNeedsColon(a, b);
    StraddlingNeedsColon(b, a);
  }

  lemma StraddlingNeedsColon(a: Event, b: Event)
    ensures Straddles(a, b) ==> ':' in b.aggregateID
  {
    if Straddles(a, b) {
      assert b.aggregateID[|a.aggregateID|] == ':';
    }
  }
}
