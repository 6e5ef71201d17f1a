/** Versions and versioned events (cursor/cursor.go, synckit/types). */
module Versions {
  import opened Basics
  import opened VectorClocks

  /** The two version types of the library: a sequence number or a vector clock. */
  datatype Version = Cursor(seqNo: nat) | Vector(clock: Clock)

  datatype Event = Event(
    id: string, kind: string, aggregateID: string, data: string, metadata: Option<map<string, string>>)

  datatype EventWithVersion = EventWithVersion(event: Event, version: Version)

  /** The vector comparison on values, by looking only at the nodes of the two clocks. */
  function CompareClocks(a: Clock, b: Clock): (r: int)
    ensures r == Comparison(a, b)
  {
    var below := exists n :: n in a.Keys + b.Keys && Counter(a, n) < Counter(b, n);
    var above := exists n :: n in a.Keys + b.Keys && Counter(b, n) < Counter(a, n);
    assert below <==> exists n: NodeId :: Counter(a, n) < Counter(b, n);
    assert above <==> exists n: NodeId :: Counter(b, n) < Counter(a, n);
    if below && !above then -1 else if above && !below then 1 else 0
  }

  /** Version.Compare: versions of different types are incomparable. */
  function CompareVersions(a: Version, b: Version): int {
    match (a, b)
    case (Cursor(x), Cursor(y)) => if x < y then -1 else if x > y then 1 else 0
    case (Vector(x), Vector(y)) => CompareClocks(x, y)
    case _ => 0
  }

  /** Cursors compare as their numbers, clocks by the pointwise order, and the two kinds not at all. */
  lemma ComparisonExactly(a: Version, b: Version)
    ensures a.Cursor? && b.Cursor? ==>
              && (CompareVersions(a, b) == -1 <==> a.seqNo < b.seqNo)
              && (CompareVersions(a, b) == 1 <==> a.seqNo > b.seqNo)
              && (CompareVersions(a, b) == 0 <==> a.seqNo == b.seqNo)
    ensures a.Vector? && b.Vector? ==>
              && (CompareVersions(a, b) == -1 <==> Before(a.clock, b.clock))
              && (CompareVersions(a, b) == 1 <==> Before(b.clock, a.clock))
    ensures a.Cursor? != b.Cursor? ==> CompareVersions(a, b) == 0
    ensures CompareVersions(b, a) == -CompareVersions(a, b)
  {
    if a.Vector? && b.Vector? {
      BeforeIsAnOrder(a.clock, b.clock, a.clock);
      BeforeIsAnOrder(b.clock, a.clock, b.clock);
    }
  }

  lemma LaterIsTransitive(a: Version, b: Version, c: Version)
    requires CompareVersions(a, b) > 0 && CompareVersions(b, c) > 0
    ensures CompareVersions(a, c) > 0
  {
    if a.Vector? {
      BeforeIsAnOrder(c.clock, b.clock, a.clock);
      BeforeIsAnOrder(c.clock, a.clock, c.clock);
    }
  }

  /**
   findLatestVersion (synckit/manager.go): one pass that keeps the later version.  Its result
   is a maximal version of the list, although vector clocks are only partially ordered and
   the list may mix version types.
   */
  method FindLatestVersion(events: seq<EventWithVersion>) returns (latest: Option<Version>)
    ensures latest.None? <==> events == []
    ensures latest.Some? ==> exists i :: 0 <= i < |events| && events[i].version == latest.value
    ensures latest.Some? ==> forall i :: 0 <= i < |events| ==> CompareVersions(events[i].version, latest.value) <= 0
  {
    if |events| == 0 {
      return None;
    }
    var v := events[0].version;
    NotLaterThanItself(v);
    for i := 1 to |events|
      invariant exists k :: 0 <= k < i && events[k].version == v
      invariant forall k :: 0 <= k < i ==> CompareVersions(events[k].version, v) <= 0
    {
      if CompareVersions(events[i].version, v) > 0 {
        forall k | 0 <= k < i
          ensures CompareVersions(events[k].version, events[i].version) <= 0
        {
          if CompareVersions(events[k].version, events[i].version) > 0 {
            LaterIsTransitive(events[k].version, events[i].version, v);
          }
        }
        v := events[i].version;
        NotLaterThanItself(v);
      }
    }
    return Some(v);
  }

  lemma NotLaterThanItself(v: Version)
    ensures CompareVersions(v, v) == 0
  {
  }
}
