/** The stored side of the in-memory transport (transport/memchan/memchan.go). */
module MemChans {
  import opened Basics
  import opened Versions
  import opened MemStores

  datatype TransportError = ContextDone | TransportClosed | WrongVersionType

  /**
   What the context does during a Push: nothing, it is done before anything happens, or it is
   done while subscribers are notified, when the events are already stored.
   */
  datatype PushContext = Live | DoneBefore | DoneWhileNotifying

  /** The highest sequence number of the stored events, zero when there is none. */
  function MaxSeq(events: seq<EventWithVersion>): nat {
    if |events| == 0 then 0 else
      var ev, rest := events[|events| - 1], MaxSeq(events[..|events| - 1]);
      if ev.version.Cursor? then Max(rest, ev.version.seqNo) else rest
  }

  class MemChan {
    var events: seq<EventWithVersion>
    var closed: bool

    constructor ()
      ensures events == [] && !closed
    {
      events, closed := [], false;
    }

    /** Stores the events; it may report an error although it has stored them. */
    method Push(batch: seq<EventWithVersion>, ctx: PushContext) returns (err: Option<TransportError>)
      modifies this`events
      ensures err == if ctx.DoneBefore? then Some(ContextDone) else if closed then Some(TransportClosed)
                     else if ctx.DoneWhileNotifying? then Some(ContextDone) else None
      ensures events == if ctx.DoneBefore? || closed then old(events) else old(events) + batch
    {
      if ctx.DoneBefore? {
        return Some(ContextDone);
      }
      if closed {
        return Some(TransportClosed);
      }
      events := events + batch;
      return if ctx.DoneWhileNotifying? then Some(ContextDone) else None;
    }

    method Pull(since: Version, done: bool) returns (r: Result<seq<EventWithVersion>, TransportError>)
      ensures r == if done then Err(ContextDone) else if closed then Err(TransportClosed)
                   else if SinceSeq(since).None? then Err(WrongVersionType)
                   else Ok(Selected(events, SinceSeq(since).value, map[]))
    {
      if done {
        return Err(ContextDone);
      }
      if closed {
        return Err(TransportClosed);
      }
      var sinceSeq := SinceSeq(since);
      if sinceSeq.None? {
        return Err(WrongVersionType);
      }
      var result := [];
      for i := 0 to |events|
        invariant result == Selected(events[..i], sinceSeq.value, map[])
      {
        assert events[..i + 1][..i] == events[..i];
        if events[i].version.Cursor? && events[i].version.seqNo > sinceSeq.value {
          result := result + [events[i]];
        }
      }
      assert events[..|events|] == events;
      return Ok(result);
    }

    /** Closing drops the stored events; closing again changes nothing. */
    method Close()
      modifies this
      ensures closed && events == if old(closed) then old(events) else []
    {
      if closed {
        return;
      }
      closed, events := true, [];
    }

    method GetLatestVersion(done: bool) returns (r: Result<Version, TransportError>)
      ensures r == if done then Err(ContextDone) else if closed then Err(TransportClosed)
                   else Ok(Cursor(MaxSeq(events)))
    {
      if done {
        return Err(ContextDone);
      }
      if closed {
        return Err(TransportClosed);
      }
      var maxVersion := 0;
      for i := 0 to |events|
        invariant maxVersion == MaxSeq(events[..i])
      {
        assert events[..i + 1][..i] == events[..i];
        if events[i].version.Cursor? && events[i].version.seqNo > maxVersion {
          maxVersion := events[i].version.seqNo;
        }
      }
      assert events[..|events|] == events;
      return Ok(Cursor(maxVersion));
    }
  }

  /** The latest version of a numbered log is its length. */
  lemma {:induction false} MaxSeqOfNumbered(log: seq<Event>)
    ensures MaxSeq(Numbered(log)) == |log|
    decreases |log|
  {
    if |log| > 0 {
      var n := |log| - 1;
      MaxSeqOfNumbered(log[..n]);
      assert Numbered(log)[..n] == Numbered(log[..n]);
    }
  }

  /** The latest version is the highest one stored: no cursor exceeds it, and it is attained unless zero. */
  lemma {:induction false} MaxSeqIsHighest(events: seq<EventWithVersion>)
    ensures forall i :: 0 <= i < |events| && events[i].version.Cursor? ==> events[i].version.seqNo <= MaxSeq(events)
    ensures MaxSeq(events) == 0 || exists i :: 0 <= i < |events| && events[i].version == Cursor(MaxSeq(events))
    decreases |events|
  {
    if |events| > 0 {
      var front, n := events[..|events| - 1], |events| - 1;
      MaxSeqIsHighest(front);
      assert forall i :: 0 <= i < n ==> events[i] == front[i];
      if MaxSeq(events) == MaxSeq(front) && MaxSeq(front) != 0 {
        var i :| 0 <= i < |front| && front[i].version == Cursor(MaxSeq(front));
        assert events[i].version == Cursor(MaxSeq(events));
      }
    }
  }
}
