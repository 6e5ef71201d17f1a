/** The vector clock version manager (version/store_decorator.go). */
module VersionManagers {
  import opened Basics
  import opened VectorClocks

  /** The argument of UpdateFromVersion: nil, a vector clock, or another kind of version. */
  datatype ObservedVersion = NilVersion | VectorClockVersion(clock: VectorClock) | OtherVersion(isZero: bool)

  datatype UpdateError = NotAVectorClock | MergeFailed(cause: ClockError)

  class VectorClockManager {
    var clock: VectorClock

    // Every version issued or absorbed since the manager's counters last wrapped.
    ghost var seen: set<Clock>

    /** Everything issued or absorbed lies below the current clock. */
    ghost predicate Valid()
      reads this, clock
    {
      forall v :: v in seen ==> Leq(v, clock.clocks)
    }

    constructor ()
      ensures Valid() && fresh(clock) && seen == {} && clock.clocks == map[]
    {
      clock := new VectorClock();
      seen := {};
    }

    /** A clone of the clock: a new object, which later calls do not touch. */
    method CurrentVersion() returns (v: VectorClock)
      requires Valid()
      ensures fresh(v) && v.clocks == clock.clocks
    {
      v := clock.Clone();
    }

    /**
     Issues a version strictly later than every version issued or absorbed before, or nil
     when the increment fails.
     */
    method NextVersion(nodeID: NodeId) returns (v: VectorClock?)
      requires Valid()
      modifies this`seen, clock
      ensures Valid()
      ensures v == null <==> IncrementError(old(clock.clocks), nodeID).Some?
      ensures v == null ==> clock.clocks == old(clock.clocks) && seen == old(seen)
      ensures v != null ==> fresh(v) && v.clocks == clock.clocks == Incremented(old(clock.clocks), nodeID)
      ensures v != null && Counter(old(clock.clocks), nodeID) + 1 < COUNTER_MODULUS ==>
                seen == old(seen) + {v.clocks} && forall c :: c in old(seen) ==> Comparison(c, v.clocks) == -1
      ensures v != null && Counter(old(clock.clocks), nodeID) + 1 == COUNTER_MODULUS ==> seen == {v.clocks}
    {
      ghost var before := clock.clocks;
      var err := clock.Increment(nodeID);
      if err.Some? {
        return null;
      }
      v := clock.Clone();
      IncrementIsLater(before, nodeID);
      if Counter(before, nodeID) + 1 < COUNTER_MODULUS {
        forall c | c in seen
          ensures Leq(c, v.clocks) && Comparison(c, v.clocks) == -1
        {
          BeforeIsAnOrder(c, before, v.clocks);
        }
        seen := seen + {v.clocks};
      } else {
        seen := {v.clocks};
      }
    }

    /** Absorbs an observed version, or reports an error and changes nothing. */
    method UpdateFromVersion(version: ObservedVersion) returns (err: Option<UpdateError>)
      requires Valid()
      modifies this`seen, clock
      ensures Valid()
      ensures version.NilVersion? ==> err == None
      ensures version.OtherVersion? ==> err == if version.isZero then None else Some(NotAVectorClock)
      ensures version.VectorClockVersion? ==>
                var cause := if old(version.clock.clocks) == map[] then None
                             else MergeError(old(clock.clocks.Keys), old(version.clock.clocks.Keys));
                err == if cause.None? then None else Some(MergeFailed(cause.value))
      ensures version.VectorClockVersion? && err.None? ==>
                clock.clocks == Merged(old(clock.clocks), old(version.clock.clocks)) &&
                old(seen) + {old(version.clock.clocks)} == seen
      ensures err.Some? || !version.VectorClockVersion? ==> clock.clocks == old(clock.clocks) && seen == old(seen)
    {
      hide Merged, MergeError, Leq;
      match version
      case NilVersion =>
        return None;
      case OtherVersion(isZero) =>
        return if isZero then None else Some(NotAVectorClock);
      case VectorClockVersion(vc) =>
        ghost var mine, theirs := clock.clocks, vc.clocks;
        MergeIsLeastUpperBound(mine, theirs);
        if vc.IsZero() {
          assert theirs == map[];
          MergeNothing(mine);
          seen := seen + {theirs};
          return None;
        }
        var e := clock.Merge(vc);
        if e.Some? {
          return Some(MergeFailed(e.value));
        }
        forall v | v in seen
          ensures Leq(v, clock.clocks)
        {
          LeqIsTransitive(v, mine, clock.clocks);
        }
        seen := seen + {theirs};
        return None;
    }
  }
}
