/** The in-memory event store and its stream index (storage/memstore/memstore.go). */
module MemStores {
  import opened Basics
  import opened Versions
  import VectorClocks

  datatype StoreError = Cancelled | Closed | IncompatibleVersion

  datatype Filter = Filter(key: string, value: string)

  type FilterMap = map<string, string>

  /** The copy that the store keeps: absent metadata becomes an empty map. */
  function Copied(e: Event): Event {
    e.(metadata := Some(if e.metadata.Some? then e.metadata.value else map[]))
  }

  /** The metadata value under a key; absent metadata has none. */
  function MetadataAt(e: Event, key: string): Option<string> {
    if e.metadata.Some? && key in e.metadata.value then Some(e.metadata.value[key]) else None
  }

  /** Two events with the same content: absent and empty metadata are not told apart. */
  ghost predicate SameContent(a: Event, b: Event) {
    && a.id == b.id && a.kind == b.kind && a.aggregateID == b.aggregateID && a.data == b.data
    && forall key: string :: MetadataAt(a, key) == MetadataAt(b, key)
  }

  /** The stored copy has the content of the event, and metadata that is never absent. */
  lemma CopyKeepsContent(e: Event)
    ensures SameContent(Copied(e), e) && Copied(e).metadata.Some?
  {
  }

  /** A log of such copies. */
  ghost predicate Normal(log: seq<Event>) {
    forall i :: 0 <= i < |log| ==> Copied(log[i]) == log[i]
  }

  function CopiedAll(es: seq<EventWithVersion>): seq<Event> {
    seq(|es|, i requires 0 <= i < |es| => Copied(es[i].event))
  }

  /** Storing a list keeps its length, its order and the content of every event. */
  lemma CopiesKeepContent(es: seq<EventWithVersion>)
    ensures |CopiedAll(es)| == |es| && forall i :: 0 <= i < |es| ==> SameContent(CopiedAll(es)[i], es[i].event)
  {
    forall i | 0 <= i < |es|
      ensures SameContent(CopiedAll(es)[i], es[i].event)
    {
      CopyKeepsContent(es[i].event);
    }
  }

  /** The log as the store holds it: event number i has version i. */
  function Numbered(log: seq<Event>): seq<EventWithVersion> {
    seq(|log|, i requires 0 <= i < |log| => EventWithVersion(log[i], Cursor(i + 1)))
  }

  /** matchesFilters: the three keys the store understands. */
  predicate Matches(e: Event, filters: FilterMap) {
    && ("type" in filters ==> e.kind == filters["type"])
    && ("aggregate_id" in filters ==> e.aggregateID == filters["aggregate_id"])
    && ("tenant" in filters ==>
          e.metadata.Some? && "tenant" in e.metadata.value && e.metadata.value["tenant"] == filters["tenant"])
  }

  /** The sequence number a version stands for; a foreign version only does when it is zero. */
  function SinceSeq(v: Version): Option<nat> {
    match v
    case Cursor(n) => Some(n)
    case Vector(c) => if |c| == 0 then Some(0) else None
  }

  /** A cursor stands for its number, the empty clock for zero, and any other clock for nothing. */
  lemma SinceSeqExactly(n: nat, c: VectorClocks.Clock)
    ensures SinceSeq(Cursor(n)) == Some(n)
    ensures |c| == 0 ==> SinceSeq(Vector(c)) == Some(0)
    ensures |c| > 0 ==> SinceSeq(Vector(c)) == None
  {
  }

  predicate Selects(ev: EventWithVersion, since: nat, filters: FilterMap) {
    ev.version.Cursor? && ev.version.seqNo > since && Matches(ev.event, filters)
  }

  /** The events above a version that pass the filters, in order. */
  function Selected(events: seq<EventWithVersion>, since: nat, filters: FilterMap): seq<EventWithVersion> {
    if |events| == 0 then [] else
      var ev := events[|events| - 1];
      Selected(events[..|events| - 1], since, filters) + if Selects(ev, since, filters) then [ev] else []
  }

  /** The events of one aggregate, in order. */
  function OfAggregate(events: seq<EventWithVersion>, a: string): seq<EventWithVersion> {
    if |events| == 0 then [] else
      var ev := events[|events| - 1];
      OfAggregate(events[..|events| - 1], a) + if ev.event.aggregateID == a then [ev] else []
  }

  /** The positions of the events of one aggregate, in increasing order. */
  function Positions(events: seq<EventWithVersion>, a: string): (ps: seq<nat>)
    ensures forall k :: 0 <= k < |ps| ==> ps[k] < |events|
  {
    if |events| == 0 then [] else
      var n := |events| - 1;
      Positions(events[..n], a) + if events[n].event.aggregateID == a then [n] else []
  }

  /** What the loop of LoadByAggregate collects from a list of positions. */
  function Picked(events: seq<EventWithVersion>, indices: seq<nat>, since: nat, filters: FilterMap)
    : seq<EventWithVersion>
  {
    if |indices| == 0 then [] else
      var idx := indices[|indices| - 1];
      Picked(events, indices[..|indices| - 1], since, filters) +
      if idx < |events| && Selects(events[idx], since, filters) then [events[idx]] else []
  }

  function StreamOf(streams: map<string, seq<nat>>, a: string): seq<nat> {
    if a in streams then streams[a] else []
  }

  /** The stream index lists, for every aggregate, exactly the positions of its events. */
  ghost predicate Indexed(events: seq<EventWithVersion>, streams: map<string, seq<nat>>) {
    && (forall a: string :: StreamOf(streams, a) == Positions(events, a))
    && (forall a :: a in streams ==> |streams[a]| > 0)
  }

  class MemStore {
    var events: seq<EventWithVersion>
    var streams: map<string, seq<nat>>
    var nextSeq: nat
    var closed: bool

    /** The stored events, without their versions. */
    ghost function Log(): seq<Event>
      reads this
    {
      seq(|events|, i requires 0 <= i < |events| reads this => events[i].event)
    }

    ghost predicate Valid()
      reads this
    {
      if closed then events == [] && streams == map[] else
        && events == Numbered(Log())
        && Normal(Log())
        && nextSeq == |events| + 1
        && Indexed(events, streams)
    }

    constructor ()
      ensures Valid() && !closed && Log() == []
    {
      events, streams, nextSeq, closed := [], map[], 1, false;
    }

    /** Appends one event under the lock: the common part of Store and StoreBatch. */
    method Append(evt: Event)
      requires Valid() && !closed
      modifies this
      ensures Valid() && !closed && Log() == old(Log()) + [Copied(evt)]
    {
      var eventIndex := |events|;
      var ev := EventWithVersion(Copied(evt), Cursor(nextSeq));
      IndexOneMore(events, streams, ev);
      events := events + [ev];
      streams := streams[evt.aggregateID := StreamOf(streams, evt.aggregateID) + [eventIndex]];
      nextSeq := nextSeq + 1;
      assert Log() == old(Log()) + [Copied(evt)];
      assert events == Numbered(Log());
    }

    /** The version argument of the source is ignored: the store numbers its events itself. */
    method Store(evt: Event, version: Version, cancelled: bool) returns (err: Option<StoreError>)
      requires Valid()
      modifies this
      ensures Valid() && closed == old(closed)
      ensures err == if cancelled then Some(Cancelled) else if old(closed) then Some(Closed) else None
      ensures Log() == if err.None? then old(Log()) + [Copied(evt)] else old(Log())
      ensures err.None? ==>
                && |events| == |old(events)| + 1 && events[..|old(events)|] == old(events)
                && events[|old(events)|].version == Cursor(|old(events)| + 1)
                && SameContent(events[|old(events)|].event, evt)
    {
      CopyKeepsContent(evt);
      hide Copied, SameContent, Normal, Indexed;
      if cancelled {
        return Some(Cancelled);
      }
      if closed {
        return Some(Closed);
      }
      EventsOfLonger(events, Log(), [Copied(evt)]);
      Append(evt);
      return None;
    }

    /** Stores a batch as if by repeated Store; an empty batch succeeds even on a closed store. */
    method StoreBatch(batch: seq<EventWithVersion>, cancelled: bool) returns (err: Option<StoreError>)
      requires Valid()
      modifies this
      ensures Valid() && closed == old(closed)
      ensures err == if cancelled then Some(Cancelled) else if |batch| > 0 && old(closed) then Some(Closed) else None
      ensures Log() == if err.None? then old(Log()) + CopiedAll(batch) else old(Log())
      ensures err.None? ==>
                && |events| == |old(events)| + |batch| && events[..|old(events)|] == old(events)
                && forall i :: 0 <= i < |batch| ==>
                     && events[|old(events)| + i].version == Cursor(|old(events)| + i + 1)
                     && SameContent(events[|old(events)| + i].event, batch[i].event)
    {
      CopiesKeepContent(batch);
      hide Copied, SameContent, Normal, Indexed;
      if cancelled {
        return Some(Cancelled);
      }
      if |batch| == 0 {
        assert old(Log()) + CopiedAll(batch) == old(Log());
        return None;
      }
      if closed {
        return Some(Closed);
      }
      EventsOfLonger(events, Log(), CopiedAll(batch));
      AppendAll(batch);
      return None;
    }

    /** The loop of StoreBatch. */
    method AppendAll(batch: seq<EventWithVersion>)
      requires Valid() && !closed
      modifies this
      ensures Valid() && !closed && Log() == old(Log()) + CopiedAll(batch)
    {
      hide Valid, Log, Copied;
      assert CopiedAll(batch[..0]) == [] && Log() + [] == Log();
      for i := 0 to |batch|
        invariant Valid() && !closed
        invariant Log() == old(Log()) + CopiedAll(batch[..i])
      {
        Append(batch[i].event);
        assert CopiedAll(batch[..i + 1]) == CopiedAll(batch[..i]) + [Copied(batch[i].event)];
      }
      assert batch[..|batch|] == batch;
    }

    method Load(since: Version, filters: seq<Filter>, cancelled: bool)
      returns (r: Result<seq<EventWithVersion>, StoreError>)
      requires Valid()
      ensures r == if cancelled then Err(Cancelled) else if closed then Err(Closed)
                   else if SinceSeq(since).None? then Err(IncompatibleVersion)
                   else Ok(Selected(events, SinceSeq(since).value, FiltersOf(filters)))
    {
      if cancelled {
        return Err(Cancelled);
      }
      if closed {
        return Err(Closed);
      }
      var sinceSeq := SinceSeq(since);
      if sinceSeq.None? {
        return Err(IncompatibleVersion);
      }
      var filterMap := BuildFilterMap(filters);
      var result := [];
      for i := 0 to |events|
        invariant result == Selected(events[..i], sinceSeq.value, filterMap)
      {
        assert events[..i + 1][..i] == events[..i];
        if Selects(events[i], sinceSeq.value, filterMap) {
          result := result + [events[i]];
        }
      }
      assert events[..|events|] == events;
      return Ok(result);
    }

    /** Answers from the stream index what Load answers by scanning every event. */
    method LoadByAggregate(aggregateID: string, since: Version, filters: seq<Filter>, cancelled: bool)
      returns (r: Result<seq<EventWithVersion>, StoreError>)
      requires Valid()
      ensures r == if cancelled then Err(Cancelled) else if closed then Err(Closed)
                   else if SinceSeq(since).None? then Err(IncompatibleVersion)
                   else Ok(OfAggregate(Selected(events, SinceSeq(since).value, FiltersOf(filters)), aggregateID))
    {
      if cancelled {
        return Err(Cancelled);
      }
      if closed {
        return Err(Closed);
      }
      var sinceSeq := SinceSeq(since);
      if sinceSeq.None? {
        return Err(IncompatibleVersion);
      }
      var filterMap := BuildFilterMap(filters);
      PickedIsSelected(events, aggregateID, sinceSeq.value, filterMap);
      assert StreamOf(streams, aggregateID) == Positions(events, aggregateID);
      if aggregateID !in streams {
        return Ok([]);
      }
      var result := Pick(streams[aggregateID], sinceSeq.value, filterMap);
      return Ok(result);
    }

    /** The loop of LoadByAggregate over the positions of one stream. */
    method Pick(indices: seq<nat>, since: nat, filters: FilterMap) returns (result: seq<EventWithVersion>)
      ensures result == Picked(events, indices, since, filters)
    {
      result := [];
      for i := 0 to |indices|
        invariant result == Picked(events, indices[..i], since, filters)
      {
        assert indices[..i + 1][..i] == indices[..i];
        var idx := indices[i];
        if idx < |events| {
          if Selects(events[idx], since, filters) {
            result := result + [events[idx]];
          }
        }
      }
      assert indices[..|indices|] == indices;
    }

    method LatestVersion(cancelled: bool) returns (r: Result<Version, StoreError>)
      requires Valid()
      ensures r == if cancelled then Err(Cancelled) else if closed then Err(Closed) else Ok(Cursor(|Log()|))
    {
      if cancelled {
        return Err(Cancelled);
      }
      if closed {
        return Err(Closed);
      }
      if |events| == 0 {
        return Ok(Cursor(0));
      }
      return Ok(Cursor(nextSeq - 1));
    }

    method Close()
      requires Valid()
      modifies this
      ensures Valid() && closed && Log() == []
    {
      if closed {
        return;
      }
      closed, events, streams := true, [], map[];
    }
  }

  /** A longer log has the same numbered events in front. */
  lemma EventsOfLonger(events: seq<EventWithVersion>, log: seq<Event>, more: seq<Event>)
    requires events == Numbered(log)
    ensures var all := Numbered(log + more);
            && |all| == |events| + |more| && all[..|events|] == events
            && forall i :: 0 <= i < |more| ==> all[|events| + i] == EventWithVersion(more[i], Cursor(|events| + i + 1))
  {
  }

  /** Loading above the old version right after a store gives the stored events back, content and versions. */
  lemma StoredIsLoadedBack(log: seq<Event>, batch: seq<EventWithVersion>)
    ensures var loaded := Selected(Numbered(log + CopiedAll(batch)), |log|, map[]);
            && |loaded| == |batch|
            && forall i :: 0 <= i < |batch| ==>
                 SameContent(loaded[i].event, batch[i].event) && loaded[i].version == Cursor(|log| + i + 1)
  {
    SelectedIsTail(log + CopiedAll(batch), |log|);
    CopiesKeepContent(batch);
    hide Selected, SameContent;
  }

  /** The filter map of a list of filters: the last filter for a key wins. */
  function FiltersOf(filters: seq<Filter>): FilterMap {
    if |filters| == 0 then map[] else
      var f := filters[|filters| - 1];
      FiltersOf(filters[..|filters| - 1])[f.key := f.value]
  }

  method BuildFilterMap(filters: seq<Filter>) returns (m: FilterMap)
    ensures m == FiltersOf(filters)
  {
    m := map[];
    for i := 0 to |filters|
      invariant m == FiltersOf(filters[..i])
    {
      assert filters[..i + 1][..i] == filters[..i];
      m := m[filters[i].key := filters[i].value];
    }
    assert filters[..|filters|] == filters;
  }

  lemma IndexOneMore(events: seq<EventWithVersion>, streams: map<string, seq<nat>>, ev: EventWithVersion)
    requires Indexed(events, streams)
    ensures var a := ev.event.aggregateID;
            Indexed(events + [ev], streams[a := StreamOf(streams, a) + [|events|]])
  {
    var a := ev.event.aggregateID;
    var events', streams' := events + [ev], streams[a := StreamOf(streams, a) + [|events|]];
    assert events'[..|events|] == events;
    forall b: string
      ensures StreamOf(streams', b) == Positions(events', b)
    {
      assert StreamOf(streams, b) == Positions(events, b);
    }
  }

  lemma {:induction false} PickedInPrefix(
    events: seq<EventWithVersion>, n: nat, indices: seq<nat>, since: nat, filters: FilterMap)
    requires n <= |events| && forall k :: 0 <= k < |indices| ==> indices[k] < n
    ensures Picked(events, indices, since, filters) == Picked(events[..n], indices, since, filters)
    decreases |indices|
  {
    if |indices| > 0 {
      PickedInPrefix(events, n, indices[..|indices| - 1], since, filters);
    }
  }

  /** Going through the index of an aggregate gives the selected events of that aggregate. */
  lemma {:induction false} PickedIsSelected(events: seq<EventWithVersion>, a: string, since: nat, filters: FilterMap)
    ensures Picked(events, Positions(events, a), since, filters) == OfAggregate(Selected(events, since, filters), a)
    decreases |events|
  {
    if |events| > 0 {
      var n := |events| - 1;
      var ps, ev := Positions(events[..n], a), events[n];
      PickedIsSelected(events[..n], a, since, filters);
      PickedInPrefix(events, n, ps, since, filters);
      var kept := Selected(events[..n], since, filters);
      if Selects(ev, since, filters) {
        assert (kept + [ev])[..|kept|] == kept;
      } else {
        assert kept + [] == kept;
      }
      if ev.event.aggregateID == a {
        assert (ps + [n])[..|ps|] == ps;
      } else {
        assert ps + [] == ps;
      }
    }
  }

  /** Loading finds exactly the events above the version that match. */
  lemma {:induction false} SelectedExactly(
    events: seq<EventWithVersion>, since: nat, filters: FilterMap, ev: EventWithVersion)
    ensures ev in Selected(events, since, filters) <==> ev in events && Selects(ev, since, filters)
    decreases |events|
  {
    if |events| > 0 {
      var n := |events| - 1;
      SelectedExactly(events[..n], since, filters, ev);
      assert events == events[..n] + [events[n]];
    }
  }

  /** The three filters in words: type, aggregate and the tenant entry of the metadata; other keys filter nothing. */
  lemma LoadedExactly(events: seq<EventWithVersion>, since: nat, filters: FilterMap, ev: EventWithVersion)
    ensures ev in Selected(events, since, filters) <==>
            && ev in events && ev.version.Cursor? && ev.version.seqNo > since
            && ("type" in filters ==> ev.event.kind == filters["type"])
            && ("aggregate_id" in filters ==> ev.event.aggregateID == filters["aggregate_id"])
            && ("tenant" in filters ==> MetadataAt(ev.event, "tenant") == Some(filters["tenant"]))
  {
    SelectedExactly(events, since, filters, ev);
  }

  /** Loading keeps the order of the store. */
  lemma {:induction false} LoadKeepsOrder(
    a: seq<EventWithVersion>, b: seq<EventWithVersion>, since: nat, filters: FilterMap)
    ensures Selected(a + b, since, filters) == Selected(a, since, filters) + Selected(b, since, filters)
    ensures |Selected(b, since, filters)| <= |b|
    decreases |b|
  {
    if |b| == 0 {
      assert a + b == a && Selected(a, since, filters) + [] == Selected(a, since, filters);
    } else {
      var n := |b| - 1;
      assert (a + b)[..|a| + n] == a + b[..n];
      LoadKeepsOrder(a, b[..n], since, filters);
    }
  }

  /** Loading one aggregate is loading with a filter for it. */
  lemma {:induction false} AggregateIsFilter(events: seq<EventWithVersion>, since: nat, filters: FilterMap, a: string)
    requires "aggregate_id" !in filters
    ensures OfAggregate(Selected(events, since, filters), a) ==
            Selected(events, since, filters["aggregate_id" := a])
    decreases |events|
  {
    if |events| > 0 {
      var n := |events| - 1;
      var ev, kept := events[n], Selected(events[..n], since, filters);
      AggregateIsFilter(events[..n], since, filters, a);
      assert (kept + [ev])[..|kept|] == kept && kept + [] == kept;
      assert Matches(ev.event, filters["aggregate_id" := a]) <==>
             Matches(ev.event, filters) && ev.event.aggregateID == a;
    }
  }

  /** A key filters by the value of its last filter, and only if it has one. */
  lemma {:induction false} FiltersExactly(filters: seq<Filter>, key: string)
    ensures key in FiltersOf(filters) <==> exists i :: 0 <= i < |filters| && filters[i].key == key
    ensures key in FiltersOf(filters) ==>
              exists i :: && 0 <= i < |filters| && filters[i] == Filter(key, FiltersOf(filters)[key])
                          && forall j :: i < j < |filters| ==> filters[j].key != key
    decreases |filters|
  {
    if |filters| > 0 {
      var n := |filters| - 1;
      var front := filters[..n];
      FiltersExactly(front, key);
      if filters[n].key == key {
        assert filters[n] == Filter(key, FiltersOf(filters)[key]);
      } else if key in FiltersOf(filters) {
        var i :| && 0 <= i < |front| && front[i] == Filter(key, FiltersOf(front)[key])
                 && forall j :: i < j < |front| ==> front[j].key != key;
        assert filters[i] == Filter(key, FiltersOf(filters)[key]);
        assert forall j :: i < j < |filters| ==> filters[j].key != key;
      }
      assert forall i :: 0 <= i < n ==> front[i] == filters[i];
    }
  }

  /** The positions of an aggregate are strictly increasing and are exactly its events' positions. */
  lemma {:induction false} PositionsAreExact(events: seq<EventWithVersion>, a: string)
    ensures forall j, k :: 0 <= j < k < |Positions(events, a)| ==> Positions(events, a)[j] < Positions(events, a)[k]
    ensures forall i :: 0 <= i < |events| ==> (i in Positions(events, a) <==> events[i].event.aggregateID == a)
    decreases |events|
  {
    if |events| > 0 {
      var n := |events| - 1;
      PositionsAreExact(events[..n], a);
      var ps := Positions(events[..n], a);
      assert forall i :: 0 <= i < n ==> events[i] == events[..n][i];
      if events[n].event.aggregateID == a {
        assert Positions(events, a) == ps + [n];
        assert forall i :: i in ps + [n] <==> i in ps || i == n;
      } else {
        assert Positions(events, a) == ps;
      }
    }
  }

  /** The events of a numbered log above a version are its tail. */
  lemma {:induction false} SelectedIsTail(log: seq<Event>, since: nat)
    ensures Selected(Numbered(log), since, map[]) == if since <= |log| then Numbered(log)[since..] else []
    decreases |log|
  {
    var all := Numbered(log);
    if |log| > 0 {
      var n := |log| - 1;
      SelectedIsTail(log[..n], since);
      assert Numbered(log[..n]) == all[..n];
      assert Selected(all, since, map[]) ==
             Selected(all[..n], since, map[]) + if Selects(all[n], since, map[]) then [all[n]] else [];
      hide Selected, Numbered;
      assert Selects(all[n], since, map[]) <==> since <= n;
      if since <= n {
        assert all[since..] == all[..n][since..] + [all[n]];
      } else if since == n + 1 {
        assert all[since..] == [];
      }
    }
  }

  /** An open store is determined by its log: events, stream index and next sequence number. */
  lemma LogDeterminesStore(events: seq<EventWithVersion>, s1: map<string, seq<nat>>, s2: map<string, seq<nat>>)
    requires Indexed(events, s1) && Indexed(events, s2)
    ensures s1 == s2
  {
    forall a: string
      ensures StreamOf(s1, a) == StreamOf(s2, a) && (a in s1 <==> a in s2)
    {
      assert StreamOf(s1, a) == Positions(events, a) == StreamOf(s2, a);
    }
    assert s1.Keys == s2.Keys;
    assert forall a :: a in s1 ==> s1[a] == StreamOf(s1, a) && s2[a] == StreamOf(s2, a);
  }
}
