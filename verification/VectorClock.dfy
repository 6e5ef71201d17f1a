/**
 Vector clocks (version/vector_clock.go).

 A clock maps node IDs to counters and a missing node counts as zero.  The class
 `VectorClock` updates its map in place; its methods are proved against functions on the
 value type `Clock`, and the order those functions refer to is the pointwise order `Leq`.
 */
module VectorClocks {
  import opened Basics

  // A node ID is a byte string: its length is its length in bytes.
  type NodeId = string

  const MAX_NODE_ID_LENGTH := 255
  const MAX_NODES := 1000

  // Counters are unsigned 64-bit numbers and wrap around.
  const COUNTER_MODULUS := 0x1_0000_0000_0000_0000

  type Uint64 = n: nat | n < COUNTER_MODULUS
  type Clock = map<NodeId, Uint64>

  datatype ClockError = EmptyNodeId | NodeIdTooLong | TooManyNodes

  /** The counter of a node, zero when the node has not been observed. */
  function Counter(c: Clock, n: NodeId): Uint64 {
    if n in c then c[n] else 0
  }

  /** The pointwise order of clocks. */
  ghost predicate Leq(a: Clock, b: Clock) {
    forall n: NodeId :: Counter(a, n) <= Counter(b, n)
  }

  /** a happened before b: pointwise below, and strictly so for some node. */
  ghost predicate Before(a: Clock, b: Clock) {
    Leq(a, b) && exists n: NodeId :: Counter(a, n) < Counter(b, n)
  }

  /** The documented three-way result: -1 before, 1 after, 0 concurrent or equal. */
  ghost function Comparison(a: Clock, b: Clock): int {
    if Before(a, b) then -1 else if Before(b, a) then 1 else 0
  }

  function IncrementError(c: Clock, n: NodeId): Option<ClockError> {
    if n == "" then Some(EmptyNodeId)
    else if |n| > MAX_NODE_ID_LENGTH then Some(NodeIdTooLong)
    else if n !in c && |c| >= MAX_NODES then Some(TooManyNodes)
    else None
  }

  function Incremented(c: Clock, n: NodeId): Clock {
    c[n := (Counter(c, n) + 1) % COUNTER_MODULUS]
  }

  predicate HasLongId(ids: set<NodeId>) {
    exists n :: n in ids && |n| > MAX_NODE_ID_LENGTH
  }

  /** The reason, if any, not to merge the nodes `theirs` into a clock that tracks `mine`. */
  function MergeError(mine: set<NodeId>, theirs: set<NodeId>): Option<ClockError> {
    if HasLongId(theirs) then Some(NodeIdTooLong)
    else if |mine + theirs| > MAX_NODES then Some(TooManyNodes)
    else None
  }

  function Merged(a: Clock, b: Clock): Clock {
    map n | n in a.Keys + b.Keys :: Max(Counter(a, n), Counter(b, n))
  }

  /** A merge is refused exactly for an ID of the other clock over 255 bytes, or for over 1000 nodes in all. */
  lemma MergeErrorExactly(mine: set<NodeId>, theirs: set<NodeId>)
    ensures MergeError(mine, theirs) == Some(NodeIdTooLong) <==> exists n :: n in theirs && |n| > 255
    ensures MergeError(mine, theirs) == Some(TooManyNodes) <==>
            (forall n :: n in theirs ==> |n| <= 255) && |mine + theirs| > 1000
    ensures MergeError(mine, theirs) != Some(EmptyNodeId)
  {
  }

  /** An increment is refused exactly for an empty ID, one over 255 bytes, or a new node beyond 1000. */
  lemma IncrementErrorExactly(c: Clock, n: NodeId)
    ensures IncrementError(c, n) == Some(EmptyNodeId) <==> |n| == 0
    ensures IncrementError(c, n) == Some(NodeIdTooLong) <==> |n| > 255
    ensures IncrementError(c, n) == Some(TooManyNodes) <==> 1 <= |n| <= 255 && n !in c && |c| >= 1000
  {
  }

  lemma MergeNothing(mine: Clock)
    ensures Merged(mine, map[]) == mine
  {
  }

  /** Merging one more entry changes at most that entry. */
  lemma MergeEntry(mine: Clock, theirs: Clock, todo: set<NodeId>, n: NodeId)
    requires todo <= theirs.Keys && n in todo
    ensures var m := Merged(mine, theirs - todo);
            Merged(mine, theirs - (todo - {n})) == if n !in m || theirs[n] > m[n] then m[n := theirs[n]] else m
  {
    var before, after := theirs - todo, theirs - (todo - {n});
    assert forall k: NodeId :: k != n ==> Counter(after, k) == Counter(before, k) && (k in after <==> k in before);
  }

  /** The equality test of the source: same size, and every entry of a found in b. */
  predicate LooksEqual(a: Clock, b: Clock) {
    |a| == |b| && forall n :: n in a ==> Counter(b, n) == a[n]
  }

  predicate NoZeroEntries(c: Clock) {
    forall n :: n in c ==> c[n] > 0
  }

  /** A version handed to Compare: some vector clock, possibly nil, or another implementation. */
  datatype VersionRef = ClockRef(clock: VectorClock?) | ForeignRef

  /** The checks of Merge: counts the IDs that would be added, unless some ID is too long. */
  method CheckMerge(mine: set<NodeId>, theirs: set<NodeId>) returns (err: Option<ClockError>)
    ensures err == MergeError(mine, theirs)
    ensures err == Some(NodeIdTooLong) <==> exists n :: n in theirs && |n| > 255
    ensures err == Some(TooManyNodes) <==> (forall n :: n in theirs ==> |n| <= 255) && |mine + theirs| > 1000
    ensures err != Some(EmptyNodeId)
  {
    hide HasLongId;
    var tooLong, newNodeCount := CountNewNodes(mine, theirs);
    MergeErrorExactly(mine, theirs);
    assert mine + theirs == mine + (theirs - mine);
    return if tooLong then Some(NodeIdTooLong)
           else if |mine| + newNodeCount > MAX_NODES then Some(TooManyNodes) else None;
  }

  /** The first loop of Merge; it stops at an ID that is too long. */
  method CountNewNodes(mine: set<NodeId>, theirs: set<NodeId>) returns (tooLong: bool, newNodeCount: nat)
    ensures tooLong <==> HasLongId(theirs)
    ensures !tooLong ==> newNodeCount == |theirs - mine|
  {
    hide HasLongId;
    newNodeCount := 0;
    var todo := theirs;
    ghost var seen: set<NodeId> := {};
    EmptyHasNoLongId();
    while todo != {}
      invariant theirs == seen + todo && seen !! todo
      invariant newNodeCount == |seen - mine|
      invariant !HasLongId(seen)
      decreases |todo|
    {
      var nodeID :| nodeID in todo;
      OneMoreId(mine, seen, nodeID);
      LongIdInUnion(seen + {nodeID}, theirs);
      if |nodeID| > MAX_NODE_ID_LENGTH {
        return true, newNodeCount;
      }
      seen, todo := seen + {nodeID}, todo - {nodeID};
      if nodeID !in mine {
        newNodeCount := newNodeCount + 1;
      }
    }
    assert seen == theirs;
    return false, newNodeCount;
  }

  lemma EmptyHasNoLongId()
    ensures !HasLongId({})
  {
  }

  lemma LongIdInUnion(part: set<NodeId>, all: set<NodeId>)
    requires part <= all
    ensures HasLongId(part) ==> HasLongId(all)
  {
  }

  /** What one more ID adds to the count and to the length check. */
  lemma OneMoreId(mine: set<NodeId>, seen: set<NodeId>, n: NodeId)
    requires n !in seen
    ensures |(seen + {n}) - mine| == |seen - mine| + (if n in mine then 0 else 1)
    ensures HasLongId(seen + {n}) <==> HasLongId(seen) || |n| > MAX_NODE_ID_LENGTH
  {
    if n in mine {
      assert (seen + {n}) - mine == seen - mine;
    } else {
      assert (seen + {n}) - mine == (seen - mine) + {n};
    }
    assert n in seen + {n};
    assert forall k :: k in seen ==> k in seen + {n};
  }

  class VectorClock {
    var clocks: Clock

    constructor ()
      ensures clocks == map[]
    {
      clocks := map[];
    }

    /** Increases the counter of one node, or reports an error and changes nothing. */
    method Increment(nodeID: NodeId) returns (err: Option<ClockError>)
      modifies this
      ensures err == IncrementError(old(clocks), nodeID)
      ensures err.None? <==> 1 <= |nodeID| <= 255 && (nodeID in old(clocks) || |old(clocks)| < 1000)
      ensures clocks == if err.None? then Incremented(old(clocks), nodeID) else old(clocks)
    {
      if nodeID == "" {
        return Some(EmptyNodeId);
      }
      if |nodeID| > MAX_NODE_ID_LENGTH {
        return Some(NodeIdTooLong);
      }
      if nodeID !in clocks && |clocks| >= MAX_NODES {
        return Some(TooManyNodes);
      }
      var current := if nodeID in clocks then clocks[nodeID] else 0;
      clocks := clocks[nodeID := (current + 1) % COUNTER_MODULUS];
      return None;
    }

    /** The second loop of Merge; the receiver may be merged into itself. */
    method MergeEntries(other: VectorClock)
      modifies this
      ensures clocks == Merged(old(clocks), old(other.clocks))
    {
      hide Merged;
      ghost var mine, theirs := clocks, other.clocks;
      var todo := other.clocks.Keys;
      assert theirs - todo == map[];
      MergeNothing(mine);
      while todo != {}
        invariant todo <= theirs.Keys
        invariant clocks == Merged(mine, theirs - todo)
        invariant other == this ==> clocks == mine
        invariant other.clocks == theirs
        decreases |todo|
      {
        var nodeID :| nodeID in todo;
        var otherClock := other.clocks[nodeID];
        MergeEntry(mine, theirs, todo, nodeID);
        if nodeID !in clocks || otherClock > clocks[nodeID] {
          clocks := clocks[nodeID := otherClock];
        }
        todo := todo - {nodeID};
      }
      assert theirs - todo == theirs;
    }

    /** Takes the larger counter of every node, or reports an error and changes nothing. */
    method Merge(other: VectorClock?) returns (err: Option<ClockError>)
      modifies this
      ensures other == null ==> err.None? && clocks == old(clocks)
      ensures other != null ==> err == MergeError(old(clocks.Keys), old(other.clocks.Keys))
      ensures other != null ==>
                (err.None? <==> (forall n :: n in old(other.clocks) ==> |n| <= 255) &&
                                |old(clocks.Keys) + old(other.clocks.Keys)| <= 1000)
      ensures other != null && err.None? ==> clocks == Merged(old(clocks), old(other.clocks))
      ensures err.Some? ==> clocks == old(clocks)
    {
      if other == null {
        return None;
      }
      MergeErrorExactly(clocks.Keys, other.clocks.Keys);
      err := CheckMerge(clocks.Keys, other.clocks.Keys);
      if err.None? {
        MergeEntries(other);
      }
    }

    predicate IsZero()
      reads this
    {
      |clocks| == 0
    }

    /** The three-way comparison: the two flags of the loop decide the documented order. */
    method Compare(other: VersionRef) returns (r: int)
      ensures other.ForeignRef? ==> r == 0
      ensures other == ClockRef(null) ==> r == if clocks == map[] then 0 else 1
      ensures other.ClockRef? && other.clock != null ==> r == Comparison(clocks, other.clock.clocks)
    {
      if other.ForeignRef? {
        return 0;
      }
      var otherVC := other.clock;
      if otherVC == null {
        if IsZero() {
          return 0;
        }
        assert clocks != map[];
        return 1;
      }
      var allNodes := clocks.Keys + otherVC.clocks.Keys;
      var thisHappenedBefore, otherHappenedBefore := false, false;
      var todo := allNodes;
      while todo != {}
        invariant todo <= allNodes
        invariant thisHappenedBefore <==>
                  exists n :: n in allNodes - todo && Counter(clocks, n) < Counter(otherVC.clocks, n)
        invariant otherHappenedBefore <==>
                  exists n :: n in allNodes - todo && Counter(otherVC.clocks, n) < Counter(clocks, n)
        decreases |todo|
      {
        var nodeID :| nodeID in todo;
        ghost var done := allNodes - todo;
        todo := todo - {nodeID};
        assert allNodes - todo == done + {nodeID};
        var thisClock := if nodeID in clocks then clocks[nodeID] else 0;
        var otherClock := if nodeID in otherVC.clocks then otherVC.clocks[nodeID] else 0;
        if thisClock < otherClock {
          thisHappenedBefore := true;
        } else if thisClock > otherClock {
          otherHappenedBefore := true;
        }
      }
      if thisHappenedBefore && !otherHappenedBefore {
        return -1;
      }
      if otherHappenedBefore && !thisHappenedBefore {
        return 1;
      }
      return 0;
    }

    method Clone() returns (clone: VectorClock)
      ensures fresh(clone) && clone.clocks == clocks
    {
      clone := new VectorClock();
      var todo := clocks.Keys;
      while todo != {}
        invariant todo <= clocks.Keys
        invariant clone.clocks == map n | n in clocks.Keys - todo :: clocks[n]
        decreases |todo|
      {
        var nodeID :| nodeID in todo;
        todo := todo - {nodeID};
        clone.clocks := clone.clocks[nodeID := clocks[nodeID]];
      }
      assert clone.clocks == clocks;
    }

    method IsEqual(other: VectorClock?) returns (r: bool)
      ensures r == if other == null then clocks == map[] else LooksEqual(clocks, other.clocks)
    {
      if other == null {
        assert |clocks| == 0 ==> clocks == map[];
        return IsZero();
      }
      if |clocks| != |other.clocks| {
        return false;
      }
      var todo := clocks.Keys;
      while todo != {}
        invariant todo <= clocks.Keys
        invariant forall n :: n in clocks.Keys - todo ==> Counter(other.clocks, n) == clocks[n]
        decreases |todo|
      {
        var nodeID :| nodeID in todo;
        if (if nodeID in other.clocks then other.clocks[nodeID] else 0) != clocks[nodeID] {
          return false;
        }
        todo := todo - {nodeID};
      }
      return true;
    }

    method IsConcurrentWith(other: VectorClock?) returns (r: bool)
      ensures other == null ==> !r
      ensures other != null ==>
                (r <==> Comparison(clocks, other.clocks) == 0 && !LooksEqual(clocks, other.clocks))
    {
      var c := Compare(ClockRef(other));
      var e := IsEqual(other);
      return c == 0 && !e;
    }
  }

  /** The comparison is an order: irreflexive, asymmetric and transitive. */
  lemma BeforeIsAnOrder(a: Clock, b: Clock, c: Clock)
    ensures !Before(a, a)
    ensures Before(a, b) ==> !Before(b, a)
    ensures Before(a, b) && Leq(b, c) ==> Before(a, c)
    ensures Leq(a, b) && Before(b, c) ==> Before(a, c)
  {
    if Before(a, b) && Leq(b, c) {
      var n: NodeId :| Counter(a, n) < Counter(b, n);
      assert Counter(a, n) < Counter(c, n);
    }
    if Leq(a, b) && Before(b, c) {
      var n: NodeId :| Counter(b, n) < Counter(c, n);
      assert Counter(a, n) < Counter(c, n);
    }
  }

  lemma LeqIsTransitive(a: Clock, b: Clock, c: Clock)
    requires Leq(a, b) && Leq(b, c)
    ensures Leq(a, c)
  {
    forall n: NodeId
      ensures Counter(a, n) <= Counter(c, n)
    {
      assert Counter(a, n) <= Counter(b, n) && Counter(b, n) <= Counter(c, n);
    }
  }

  /** A merge tracks the nodes of both clocks and is the least upper bound of the two. */
  lemma MergeIsLeastUpperBound(a: Clock, b: Clock)
    ensures Merged(a, b).Keys == a.Keys + b.Keys
    ensures Leq(a, Merged(a, b)) && Leq(b, Merged(a, b))
    ensures forall u: Clock :: Leq(a, u) && Leq(b, u) ==> Leq(Merged(a, b), u)
  {
    forall u: Clock | Leq(a, u) && Leq(b, u)
      ensures Leq(Merged(a, b), u)
    {
      forall n: NodeId
        ensures Counter(Merged(a, b), n) <= Counter(u, n)
      {
        assert Counter(a, n) <= Counter(u, n) && Counter(b, n) <= Counter(u, n);
      }
    }
  }

  /** An increment is strictly later than the clock it starts from exactly when the counter does not wrap. */
  lemma IncrementIsLater(c: Clock, n: NodeId)
    ensures Before(c, Incremented(c, n)) <==> Counter(c, n) + 1 < COUNTER_MODULUS
  {
    var d := Incremented(c, n);
    assert forall m: NodeId :: m != n ==> Counter(d, m) == Counter(c, m);
    assert Counter(d, n) == (Counter(c, n) + 1) % COUNTER_MODULUS;
  }

  /** Some node ID lies outside any finite set of them. */
  lemma FreshNodeId(ids: set<NodeId>) returns (n: NodeId)
    ensures n !in ids
  {
    var longest := LongestLength(ids);
    n := seq(longest + 1, i => 'x');
  }

  ghost function LongestLength(ids: set<NodeId>): (m: nat)
    ensures forall n :: n in ids ==> |n| <= m
  {
    if ids == {} then 0 else
      var n :| n in ids;
      Max(|n|, LongestLength(ids - {n}))
  }

  /**
   The equality test agrees with equality against every clock exactly when the receiver
   has no zero entry: a zero entry is matched by a missing one.
   */
  lemma EqualityTestIsExact(a: Clock)
    ensures NoZeroEntries(a) <==> forall b: Clock :: LooksEqual(a, b) <==> a == b
  {
    if NoZeroEntries(a) {
      forall b: Clock
        ensures LooksEqual(a, b) <==> a == b
      {
        if LooksEqual(a, b) {
          assert a.Keys <= b.Keys;
          SubsetOfSameSize(a.Keys, b.Keys);
        }
      }
    } else {
      var z :| z in a && a[z] == 0;
      var y := FreshNodeId(a.Keys);
      var b := (a - {z})[y := 1];
      assert b.Keys == (a.Keys - {z}) + {y};
      assert LooksEqual(a, b) && y in b;
    }
  }

  /**
   Against clocks without zero entries, the equality test agrees with the comparison, that is,
   holds exactly when neither counter function exceeds the other, if and only if the receiver has
   no zero entry either.
   */
  lemma EqualityAgreesWithCompare(a: Clock)
    ensures NoZeroEntries(a) <==>
            forall b: Clock | NoZeroEntries(b) :: LooksEqual(a, b) <==> (Leq(a, b) && Leq(b, a))
  {
    if NoZeroEntries(a) {
      forall b: Clock | NoZeroEntries(b)
        ensures LooksEqual(a, b) <==> (Leq(a, b) && Leq(b, a))
      {
        EqualityTestIsExact(a);
        if Leq(a, b) && Leq(b, a) {
          SameCountersSameClock(a, b);
        }
      }
    } else {
      var z :| z in a && a[z] == 0;
      var b: Clock := map n | n in a && a[n] > 0 :: a[n];
      assert forall n: NodeId :: Counter(a, n) == Counter(b, n);
      assert b.Keys <= a.Keys - {z};
      SubsetSize(b.Keys, a.Keys - {z});
      assert NoZeroEntries(b) && !LooksEqual(a, b) && Leq(a, b) && Leq(b, a);
    }
  }

  lemma SameCountersSameClock(a: Clock, b: Clock)
    requires NoZeroEntries(a) && NoZeroEntries(b) && Leq(a, b) && Leq(b, a)
    ensures a == b
  {
    forall n: NodeId
      ensures (n in a <==> n in b) && (n in a ==> a[n] == b[n])
    {
      assert Counter(a, n) == Counter(b, n);
    }
    assert a.Keys == b.Keys;
  }

  /** The two clocks of the source's blind spot: reported equal, yet one is before the other. */
  lemma ZeroEntryFoolsEqualityTest()
    ensures var a: Clock, b: Clock := map["x" := 0], map["y" := 5]; LooksEqual(a, b) && Before(a, b)
  {
    var a: Clock, b: Clock := map["x" := 0], map["y" := 5];
    assert Counter(a, "y") < Counter(b, "y");
    assert forall n: NodeId :: Counter(a, n) == 0;
  }

  /** And the other way round: clocks that agree on every node, neither before the other, yet reported different. */
  lemma ZeroArgumentLooksDifferent()
    ensures var a: Clock, b: Clock := map[], map["x" := 0];
            Comparison(a, b) == 0 && Leq(a, b) && Leq(b, a) && !LooksEqual(a, b)
  {
    var a: Clock, b: Clock := map[], map["x" := 0];
    assert forall n: NodeId :: Counter(a, n) == 0 == Counter(b, n);
  }
}
