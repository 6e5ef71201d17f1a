/**
 The idempotency tracker and the push handler that uses it
 (transport/httptransport/idempotency.go, handlePush in transport/httptransport/http.go).
 Requests are handled one at a time; the time of each is passed in.
 */
module Idempotency {
  import opened Basics
  import opened Versions
  import opened MemStores

  type Response = string

  datatype Entry = Entry(time: int, response: Response)

  type Keys = map<string, Entry>

  ghost predicate Oldest(keys: Keys, k: string) {
    k in keys && forall j :: j in keys ==> keys[k].time <= keys[j].time
  }

  /** What Record does: it makes room by removing an oldest entry, then stores the new one. */
  ghost predicate Recorded(before: Keys, key: string, e: Entry, maxSize: int, after: Keys) {
    if |before| < maxSize || before == map[] then after == before[key := e]
    else exists k :: Oldest(before, k) && after == (before - {k})[key := e]
  }

  /** What a cleanup leaves: the entries that have not expired. */
  function Cleaned(keys: Keys, now: int, maxAge: int): Keys {
    map k | k in keys && now - keys[k].time <= maxAge :: keys[k]
  }

  function Lookup(keys: Keys, key: string, now: int, maxAge: int): Option<Response> {
    if key in keys && now - keys[key].time <= maxAge then Some(keys[key].response) else None
  }

  class Tracker {
    const maxAge: int
    const maxSize: int
    var keys: Keys

    /** A zero age stands for 24 hours (in nanoseconds), a zero size for 10000 keys. */
    constructor (maxAge: int, maxSize: int)
      ensures this.maxAge == (if maxAge == 0 then 24 * 3600 * 1_000_000_000 else maxAge)
      ensures this.maxSize == (if maxSize == 0 then 10000 else maxSize) && keys == map[]
    {
      this.maxAge := if maxAge == 0 then 24 * 3600 * 1_000_000_000 else maxAge;
      this.maxSize := if maxSize == 0 then 10000 else maxSize;
      keys := map[];
    }

    method Check(key: string, now: int) returns (r: Option<Response>)
      ensures r == Lookup(keys, key, now, maxAge)
      ensures r.Some? <==> key in keys && now - keys[key].time <= maxAge
      ensures r.Some? ==> r.value == keys[key].response
    {
      if key !in keys {
        return None;
      }
      if now - keys[key].time > maxAge {
        return None;
      }
      return Some(keys[key].response);
    }

    /** The search for the entry to evict, in whatever order the keys are visited. */
    method FindOldest() returns (oldest: string)
      requires keys != map[]
      ensures Oldest(keys, oldest)
    {
      var todo := keys.Keys;
      var first := true;
      var oldestTime := 0;
      oldest := "";
      while todo != {}
        invariant todo <= keys.Keys
        invariant first <==> todo == keys.Keys
        invariant !first ==> oldest in keys && oldestTime == keys[oldest].time
        invariant !first ==> forall j :: j in keys.Keys - todo ==> oldestTime <= keys[j].time
        decreases |todo|
      {
        var k :| k in todo;
        todo := todo - {k};
        if first || keys[k].time < oldestTime {
          oldest, oldestTime, first := k, keys[k].time, false;
        }
      }
    }

    method Record(key: string, response: Response, now: int)
      modifies this`keys
      ensures Recorded(old(keys), key, Entry(now, response), maxSize, keys)
      ensures key in keys && keys[key] == Entry(now, response)
      ensures forall k :: k in keys && k != key ==> k in old(keys) && keys[k] == old(keys)[k]
    {
      if |keys| >= maxSize && keys != map[] {
        var oldest := FindOldest();
        keys := keys - {oldest};
      }
      keys := keys[key := Entry(now, response)];
    }

    method Cleanup(now: int)
      modifies this`keys
      ensures keys == Cleaned(old(keys), now, maxAge)
      ensures forall k :: k in keys <==> k in old(keys) && now - old(keys)[k].time <= maxAge
      ensures forall k :: k in keys ==> keys[k] == old(keys)[k]
    {
      var todo := keys.Keys;
      ghost var all := keys;
      while todo != {}
        invariant todo <= all.Keys
        invariant keys == map k | k in all && (k in todo || now - all[k].time <= maxAge) :: all[k]
        decreases |todo|
      {
        var k :| k in todo;
        todo := todo - {k};
        if now - keys[k].time > maxAge {
          keys := keys - {k};
        }
      }
    }
  }

  // ---------------------------------------------------------------- the push handler

  /** A push request; an event that cannot be converted is None, an unreadable body is None. */
  datatype Request = Request(key: string, acceptable: bool, body: Option<seq<Option<Event>>>)

  datatype Reply = FromCache(response: Response) | Refused | Processed(recorded: bool)

  const OK_RESPONSE: Response := "ok"

  datatype World = World(keys: Keys, log: seq<Event>)

  /** What storing meets: a closed store, or failures for single events. */
  datatype StoreFate = StoreFate(closed: bool, faults: seq<bool>)

  predicate IsStored(fate: StoreFate, i: nat) {
    !fate.closed && (i >= |fate.faults| || !fate.faults[i])
  }

  /** The events of a body that get stored: those that convert and whose Store does not fail. */
  function Committed(body: seq<Option<Event>>, fate: StoreFate): seq<Event> {
    if |body| == 0 then [] else
      var n := |body| - 1;
      Committed(body[..n], fate) + if body[n].Some? && IsStored(fate, n) then [Copied(body[n].value)] else []
  }

  /**
   An event of the body is stored exactly when it converts, the store is open and its own Store does
   not fail; what is stored has the content of the events, in their order.
   */
  lemma {:induction false} CommittedExactly(body: seq<Option<Event>>, fate: StoreFate)
    ensures fate.closed ==> Committed(body, fate) == []
    ensures |Committed(body, fate)| <= |body|
    ensures |Committed(body, fate)| == |body| <==>
            forall i :: 0 <= i < |body| ==> body[i].Some? && !fate.closed && !(i < |fate.faults| && fate.faults[i])
    ensures |Committed(body, fate)| == |body| ==>
              forall i :: 0 <= i < |body| ==> SameContent(Committed(body, fate)[i], body[i].value)
    ensures |body| > 0 ==>
              var n := |body| - 1;
              var stored := Committed(body[..n], fate);
              && stored <= Committed(body, fate)
              && (|Committed(body, fate)| > |stored| <==>
                  body[n].Some? && !fate.closed && !(n < |fate.faults| && fate.faults[n]))
              && (|Committed(body, fate)| > |stored| ==>
                    && |Committed(body, fate)| == |stored| + 1
                    && SameContent(Committed(body, fate)[|stored|], body[n].value))
    decreases |body|
  {
    if |body| > 0 {
      var n := |body| - 1;
      CommittedExactly(body[..n], fate);
      if body[n].Some? {
        CopyKeepsContent(body[n].value);
      }
      var before, after := Committed(body[..n], fate), Committed(body, fate);
      assert after == before + if body[n].Some? && IsStored(fate, n) then [Copied(body[n].value)] else [];
      hide Committed, SameContent, Copied;
      assert forall i :: 0 <= i < n ==> body[..n][i] == body[i];
      assert before <= after;
    }
  }

  /** The effect and the answer of one push request. */
  ghost predicate Handled(
    w: World, req: Request, now: int, fate: StoreFate, maxAge: int, maxSize: int, w': World, r: Reply)
  {
    var cached := if req.key == "" then None else Lookup(w.keys, req.key, now, maxAge);
    if cached.Some? then w' == w && r == FromCache(cached.value)
    else if !req.acceptable || req.body.None? then w' == w && r == Refused
    else
      && w'.log == w.log + Committed(req.body.value, fate)
      && r == Processed(req.key != "")
      && (if req.key == "" then w'.keys == w.keys
          else Recorded(w.keys, req.key, Entry(now, OK_RESPONSE), maxSize, w'.keys))
  }

  class PushHandler {
    const tracker: Tracker
    const store: MemStore

    constructor (tracker: Tracker, store: MemStore)
      ensures this.tracker == tracker && this.store == store
    {
      this.tracker, this.store := tracker, store;
    }

    ghost function Now(): World
      reads this, tracker, store
    {
      World(tracker.keys, store.Log())
    }

    /** Stores the events of a body one by one, skipping those that fail. */
    method StoreAll(body: seq<Option<Event>>, faults: seq<bool>)
      requires store.Valid()
      modifies store
      ensures store.Valid() && store.closed == old(store.closed)
      ensures store.Log() == old(store.Log()) + Committed(body, StoreFate(old(store.closed), faults))
    {
      ghost var fate := StoreFate(store.closed, faults);
      for i := 0 to |body|
        invariant store.Valid() && store.closed == old(store.closed)
        invariant store.Log() == old(store.Log()) + Committed(body[..i], fate)
      {
        assert body[..i + 1][..i] == body[..i];
        if body[i].Some? {
          var err := store.Store(body[i].value, Cursor(0), i < |faults| && faults[i]);
        }
      }
      assert body[..|body|] == body;
    }

    method HandlePush(req: Request, now: int, faults: seq<bool>) returns (r: Reply)
      requires store.Valid()
      modifies store, tracker`keys
      ensures store.Valid() && store.closed == old(store.closed)
      ensures Handled(old(Now()), req, now, StoreFate(store.closed, faults), tracker.maxAge, tracker.maxSize, Now(), r)
      ensures var cached := && req.key != "" && req.key in old(tracker.keys)
                            && now - old(tracker.keys)[req.key].time <= tracker.maxAge;
              && (r.FromCache? <==> cached)
              && (r.FromCache? ==> r.response == old(tracker.keys)[req.key].response)
              && (r.Refused? <==> !cached && (!req.acceptable || req.body.None?))
              && (r.Processed? ==> r.recorded == (req.key != ""))
      ensures !r.Processed? ==> tracker.keys == old(tracker.keys) && store.Log() == old(store.Log())
      ensures r == Processed(true) ==> req.key in tracker.keys && tracker.keys[req.key] == Entry(now, "ok")
      ensures r.Processed? && !store.closed && (forall i :: 0 <= i < |faults| ==> !faults[i])
              && (forall i :: 0 <= i < |req.body.value| ==> req.body.value[i].Some?) ==>
                var n := |old(store.Log())|;
                && |store.Log()| == n + |req.body.value| && store.Log()[..n] == old(store.Log())
                && forall i :: 0 <= i < |req.body.value| ==> SameContent(store.Log()[n + i], req.body.value[i].value)
    {
      hide Recorded, Committed, SameContent, MemStore.Valid, MemStore.Log;
      if req.key != "" {
        var cached := tracker.Check(req.key, now);
        if cached.Some? {
          return FromCache(cached.value);
        }
      }
      if !req.acceptable {
        return Refused;
      }
      if req.body.None? {
        return Refused;
      }
      CommittedExactly(req.body.value, StoreFate(store.closed, faults));
      StoreAll(req.body.value, faults);
      if req.key != "" {
        tracker.Record(req.key, OK_RESPONSE, now);
      }
      return Processed(req.key != "");
    }
  }

  // ---------------------------------------------------------------- the size bound

  lemma RecordKeepsBound(before: Keys, key: string, e: Entry, maxSize: int, after: Keys)
    requires maxSize >= 1 && |before| <= maxSize && Recorded(before, key, e, maxSize, after)
    ensures |after| <= maxSize
  {
    if |before| < maxSize || before == map[] {
      AddingOneKey(before.Keys, key);
      assert after.Keys == before.Keys + {key};
    } else {
      var k :| Oldest(before, k) && after == (before - {k})[key := e];
      AddingOneKey(before.Keys - {k}, key);
      assert after.Keys == (before.Keys - {k}) + {key};
    }
  }

  lemma AddingOneKey(keys: set<string>, key: string)
    ensures |keys + {key}| <= |keys| + 1
  {
  }

  // ---------------------------------------------------------------- how long a key survives

  /** The keys recorded after a time. */
  ghost function NewerThan(keys: Keys, t: int): set<string> {
    set k | k in keys && keys[k].time > t
  }

  /** No two entries have the same time, and none is later than the clock. */
  ghost predicate Timed(keys: Keys, clock: int) {
    && (forall k :: k in keys ==> keys[k].time <= clock)
    && (forall j, k :: j in keys && k in keys && j != k ==> keys[j].time != keys[k].time)
  }

  /** The key is held with its entry, and at most m keys are newer. */
  ghost predicate Holds(keys: Keys, key: string, e: Entry, m: nat) {
    key in keys && keys[key] == e && |NewerThan(keys, e.time)| <= m
  }

  lemma NewerShrinks(before: Keys, after: Keys, t: int)
    requires Within(after, before)
    ensures |NewerThan(after, t)| <= |NewerThan(before, t)|
  {
    SubsetSize(NewerThan(after, t), NewerThan(before, t));
  }

  lemma OldestHasAllNewer(keys: Keys, k: string, clock: int)
    requires Oldest(keys, k) && Timed(keys, clock)
    ensures |NewerThan(keys, keys[k].time)| == |keys| - 1
  {
    assert NewerThan(keys, keys[k].time) == keys.Keys - {k};
  }

  ghost predicate Within(part: Keys, whole: Keys) {
    forall k :: k in part ==> k in whole && part[k] == whole[k]
  }

  /** One more Record evicts the key only if it is the oldest of maxSize keys. */
  lemma EvictionSparesKey(before: Keys, other: string, entry: Entry, maxSize: int, after: Keys,
                          key: string, e: Entry, m: nat, clock: int) returns (rest: Keys)
    requires Recorded(before, other, entry, maxSize, after) && Timed(before, clock)
    requires Holds(before, key, e, m) && m + 1 < maxSize
    ensures after == rest[other := entry] && Within(rest, before) && key in rest
  {
    rest := before;
    if !(|before| < maxSize || before == map[]) {
      var k :| Oldest(before, k) && after == (before - {k})[other := entry];
      rest := before - {k};
      if k == key {
        OldestHasAllNewer(before, key, clock);
      }
    }
  }

  /** Another key recorded later is at most one more newer key. */
  lemma OneMoreNewer(
    before: Keys, rest: Keys, other: string, now: int, resp: Response, key: string, e: Entry, m: nat, clock: int)
    requires Within(rest, before) && key in rest && other != key && Timed(before, clock) && now > clock
    requires Holds(before, key, e, m)
    ensures Holds(rest[other := Entry(now, resp)], key, e, m + 1) && Timed(rest[other := Entry(now, resp)], now)
  {
    var after := rest[other := Entry(now, resp)];
    NewerShrinks(before, rest, e.time);
    SubsetSize(NewerThan(after, e.time), NewerThan(rest, e.time) + {other});
  }

  lemma RecordKeepsHolding(before: Keys, other: string, now: int, resp: Response, maxSize: int, after: Keys,
                           key: string, e: Entry, m: nat, clock: int)
    requires Recorded(before, other, Entry(now, resp), maxSize, after) && Timed(before, clock) && now > clock
    requires Holds(before, key, e, m) && other != key && m + 1 < maxSize
    ensures Holds(after, key, e, m + 1) && Timed(after, now)
  {
    hide Recorded, Holds, Timed, Within;
    var rest := EvictionSparesKey(before, other, Entry(now, resp), maxSize, after, key, e, m, clock);
    OneMoreNewer(before, rest, other, now, resp, key, e, m, clock);
  }

  lemma FreshRecord(before: Keys, key: string, now: int, resp: Response, maxSize: int, after: Keys, clock: int)
    requires Recorded(before, key, Entry(now, resp), maxSize, after) && Timed(before, clock) && now > clock
    ensures Holds(after, key, Entry(now, resp), 0) && Timed(after, now)
  {
    assert NewerThan(after, now) == {};
  }

  lemma CleanupKeepsHolding(keys: Keys, now: int, maxAge: int, key: string, e: Entry, m: nat, clock: int)
    requires Holds(keys, key, e, m) && Timed(keys, clock) && clock <= now && now - e.time <= maxAge
    ensures Holds(Cleaned(keys, now, maxAge), key, e, m) && Timed(Cleaned(keys, now, maxAge), now)
  {
    NewerShrinks(keys, Cleaned(keys, now, maxAge), e.time);
  }

  // ---------------------------------------------------------------- whole runs

  datatype Op = Push(req: Request, now: int, fate: StoreFate) | Clean(now: int)

  /** One operation of the server and its answer; a cleanup answers nothing. */
  ghost predicate Does(w: World, op: Op, maxAge: int, maxSize: int, w': World, r: Reply) {
    match op
    case Push(req, now, fate) => Handled(w, req, now, fate, maxAge, maxSize, w', r)
    case Clean(now) => w' == w.(keys := Cleaned(w.keys, now, maxAge)) && r == Refused
  }

  /** A run through the worlds ws, with strictly increasing times after `clock`. */
  ghost predicate IsRun(ws: seq<World>, ops: seq<Op>, rs: seq<Reply>, maxAge: int, maxSize: int, clock: int) {
    && |ws| == |ops| + 1 && |rs| == |ops|
    && (forall i :: 0 <= i < |ops| ==> Does(ws[i], ops[i], maxAge, maxSize, ws[i + 1], rs[i]))
    && (|ops| > 0 ==> ops[0].now > clock)
    && (forall i :: 0 < i < |ops| ==> ops[i - 1].now < ops[i].now)
  }

  /** How many of the replies recorded a key. */
  function Records(rs: seq<Reply>): nat {
    if |rs| == 0 then 0 else Records(rs[..|rs| - 1]) + if rs[|rs| - 1] == Processed(true) then 1 else 0
  }

  ghost function ClockAt(ops: seq<Op>, i: nat, clock: int): int
    requires i <= |ops|
  {
    if i == 0 then clock else ops[i - 1].now
  }

  /** In every run that starts with at most maxSize keys, such as none, there are never more than maxSize keys. */
  lemma {:induction false} NeverTooManyKeys(
    ws: seq<World>, ops: seq<Op>, rs: seq<Reply>, maxAge: int, maxSize: int, clock: int, i: nat)
    requires IsRun(ws, ops, rs, maxAge, maxSize, clock) && maxSize >= 1 && i <= |ops|
    requires |ws[0].keys| <= maxSize && Timed(ws[0].keys, clock)
    ensures |ws[i].keys| <= maxSize && Timed(ws[i].keys, ClockAt(ops, i, clock))
    decreases i
  {
    hide Recorded, Committed, Timed;
    if i > 0 {
      NeverTooManyKeys(ws, ops, rs, maxAge, maxSize, clock, i - 1);
      var w, w', op := ws[i - 1], ws[i], ops[i - 1];
      assert Does(w, op, maxAge, maxSize, w', rs[i - 1]);
      var before := ClockAt(ops, i - 1, clock);
      assert before < op.now;
      TimedLater(w.keys, before, op.now);
      match op
      case Push(req, now, _) =>
        if rs[i - 1] == Processed(true) {
          RecordKeepsBound(w.keys, req.key, Entry(now, OK_RESPONSE), maxSize, w'.keys);
          FreshRecord(w.keys, req.key, now, OK_RESPONSE, maxSize, w'.keys, before);
        }
      case Clean(now) =>
        SubsetSize(w'.keys.Keys, w.keys.Keys);
        CleanedIsTimed(w.keys, now, maxAge, now);
    }
  }

  lemma TimedLater(keys: Keys, clock: int, later: int)
    requires Timed(keys, clock) && clock <= later
    ensures Timed(keys, later)
  {
  }

  lemma CleanedIsTimed(keys: Keys, now: int, maxAge: int, clock: int)
    requires Timed(keys, clock)
    ensures Timed(Cleaned(keys, now, maxAge), clock)
  {
  }

  /** As long as it has not expired, a key is held through fewer than maxSize Records. */
  lemma {:induction false} KeySurvives(
    ws: seq<World>, ops: seq<Op>, rs: seq<Reply>, maxAge: int, maxSize: int, clock: int, key: string, e: Entry, i: nat)
    requires IsRun(ws, ops, rs, maxAge, maxSize, clock) && Timed(ws[0].keys, clock) && Holds(ws[0].keys, key, e, 0)
    requires key != "" && i <= |ops| && Records(rs[..i]) < maxSize
    requires forall k :: 0 <= k < i ==> ops[k].now - e.time <= maxAge
    ensures Holds(ws[i].keys, key, e, Records(rs[..i])) && Timed(ws[i].keys, ClockAt(ops, i, clock))
    decreases i
  {
    hide Recorded, Committed, Timed, Holds;
    if i > 0 {
      var n := i - 1;
      assert rs[..i][..n] == rs[..n];
      KeySurvives(ws, ops, rs, maxAge, maxSize, clock, key, e, n);
      var w, w', op, m := ws[n], ws[i], ops[n], Records(rs[..n]);
      var before := ClockAt(ops, n, clock);
      assert Does(w, op, maxAge, maxSize, w', rs[n]) && before < op.now;
      TimedLater(w.keys, before, op.now);
      match op
      case Push(req, now, _) =>
        HeldKeyIsFound(w.keys, key, e, m, now, maxAge);
        if rs[n] == Processed(true) {
          RecordKeepsHolding(w.keys, req.key, now, OK_RESPONSE, maxSize, w'.keys, key, e, m, before);
        }
      case Clean(now) =>
        CleanupKeepsHolding(w.keys, now, maxAge, key, e, m, before);
    } else {
      assert rs[..0] == [];
    }
  }

  /** The keys other than the given one that were recorded by the first i operations. */
  function OtherKeys(ops: seq<Op>, rs: seq<Reply>, key: string, i: nat): set<string>
    requires |rs| == |ops| && i <= |ops|
  {
    if i == 0 then {} else
      var op := ops[i - 1];
      OtherKeys(ops, rs, key, i - 1) +
      if op.Push? && rs[i - 1] == Processed(true) && op.req.key != key then {op.req.key} else {}
  }

  ghost predicate StillHeld(keys: Keys, key: string, e: Entry) {
    key in keys && keys[key] == e
  }

  /** A Record after which a key is still held leaves all newer keys in place. */
  lemma RecordKeepsNewer(before: Keys, other: string, now: int, resp: Response, maxSize: int, after: Keys,
                         key: string, e: Entry, clock: int)
    requires Recorded(before, other, Entry(now, resp), maxSize, after) && Timed(before, clock) && now > clock
    requires StillHeld(after, key, e) && e.time <= clock
    ensures other != key && StillHeld(before, key, e)
    ensures NewerThan(before, e.time) + {other} <= NewerThan(after, e.time)
  {
    assert other != key;
    if !(|before| < maxSize || before == map[]) {
      var k :| Oldest(before, k) && after == (before - {k})[other := Entry(now, resp)];
      assert before[k].time <= e.time;
    }
  }

  lemma CleanupKeepsNewer(keys: Keys, now: int, maxAge: int, key: string, e: Entry)
    requires StillHeld(Cleaned(keys, now, maxAge), key, e)
    ensures StillHeld(keys, key, e) && NewerThan(keys, e.time) <= NewerThan(Cleaned(keys, now, maxAge), e.time)
  {
  }

  /** As long as a key is held, so are all keys recorded after it. */
  lemma {:induction false} HeldWithNewer(
    ws: seq<World>, ops: seq<Op>, rs: seq<Reply>, maxAge: int, maxSize: int, clock: int, key: string, e: Entry, i: nat)
    requires IsRun(ws, ops, rs, maxAge, maxSize, clock) && maxSize >= 1 && i <= |ops|
    requires |ws[0].keys| <= maxSize && Timed(ws[0].keys, clock)
    requires e.time <= clock && StillHeld(ws[i].keys, key, e)
    ensures OtherKeys(ops, rs, key, i) <= NewerThan(ws[i].keys, e.time)
    decreases i
  {
    hide Does, NewerThan, Timed, StillHeld;
    if i > 0 {
      var n := i - 1;
      assert Does(ws[n], ops[n], maxAge, maxSize, ws[i], rs[n]);
      NeverTooManyKeys(ws, ops, rs, maxAge, maxSize, clock, n);
      ClockGrows(ws, ops, rs, maxAge, maxSize, clock, n);
      StepKeepsNewer(ws[n], ops[n], maxAge, maxSize, ws[i], rs[n], key, e, ClockAt(ops, n, clock));
      HeldWithNewer(ws, ops, rs, maxAge, maxSize, clock, key, e, n);
    }
  }

  lemma StepKeepsNewer(
    w: World, op: Op, maxAge: int, maxSize: int, w': World, r: Reply, key: string, e: Entry, clock: int)
    requires Does(w, op, maxAge, maxSize, w', r) && Timed(w.keys, clock) && e.time <= clock < op.now
    requires StillHeld(w'.keys, key, e)
    ensures StillHeld(w.keys, key, e) && NewerThan(w.keys, e.time) <= NewerThan(w'.keys, e.time)
    ensures op.Push? && r == Processed(true) ==> op.req.key in NewerThan(w'.keys, e.time)
  {
    hide Recorded, Committed, Timed, StillHeld, NewerThan;
    match op
    case Push(req, now, _) =>
      if r == Processed(true) {
        RecordKeepsNewer(w.keys, req.key, now, OK_RESPONSE, maxSize, w'.keys, key, e, clock);
      }
    case Clean(now) =>
      CleanupKeepsNewer(w.keys, now, maxAge, key, e);
  }

  lemma {:induction false} ClockGrows(
    ws: seq<World>, ops: seq<Op>, rs: seq<Reply>, maxAge: int, maxSize: int, clock: int, n: nat)
    requires IsRun(ws, ops, rs, maxAge, maxSize, clock) && n < |ops|
    ensures clock <= ClockAt(ops, n, clock) < ops[n].now
    decreases n
  {
    if n > 0 {
      ClockGrows(ws, ops, rs, maxAge, maxSize, clock, n - 1);
    }
  }

  lemma NewerFit(keys: Keys, key: string, e: Entry, newer: set<string>)
    requires StillHeld(keys, key, e) && newer <= NewerThan(keys, e.time)
    ensures |newer| < |keys|
  {
    SubsetSize(newer + {key}, keys.Keys);
  }

  /** The bound of KeySurvives is tight: maxSize Records of other, different keys evict the key. */
  lemma EnoughRecordsEvict(
    ws: seq<World>, ops: seq<Op>, rs: seq<Reply>, maxAge: int, maxSize: int, clock: int, key: string, e: Entry, i: nat)
    requires IsRun(ws, ops, rs, maxAge, maxSize, clock) && maxSize >= 1 && i <= |ops|
    requires |ws[0].keys| <= maxSize && Timed(ws[0].keys, clock) && e.time <= clock
    requires |OtherKeys(ops, rs, key, i)| >= maxSize
    ensures !StillHeld(ws[i].keys, key, e)
  {
    hide Does, OtherKeys, Timed;
    if StillHeld(ws[i].keys, key, e) {
      NeverTooManyKeys(ws, ops, rs, maxAge, maxSize, clock, i);
      HeldWithNewer(ws, ops, rs, maxAge, maxSize, clock, key, e, i);
      NewerFit(ws[i].keys, key, e, OtherKeys(ops, rs, key, i));
    }
  }

  /** Every held key was recorded by an earlier push of it, at the time its entry says. */
  ghost predicate RecordedAt(ops: seq<Op>, rs: seq<Reply>, key: string, e: Entry, k: nat) {
    && k < |ops| && k < |rs| && ops[k].Push? && ops[k].req.key == key && rs[k] == Processed(true)
    && e == Entry(ops[k].now, "ok")
  }

  lemma {:induction false} HeldWasRecorded(
    ws: seq<World>, ops: seq<Op>, rs: seq<Reply>, maxAge: int, maxSize: int, clock: int, i: nat, key: string)
    returns (k: nat)
    requires IsRun(ws, ops, rs, maxAge, maxSize, clock) && ws[0].keys == map[] && i <= |ops| && key in ws[i].keys
    ensures k < i && RecordedAt(ops, rs, key, ws[i].keys[key], k)
    decreases i
  {
    hide Does;
    var w, w', op := ws[i - 1], ws[i], ops[i - 1];
    assert Does(w, op, maxAge, maxSize, w', rs[i - 1]);
    StepKeepsEntries(w, op, maxAge, maxSize, w', rs[i - 1], key);
    if op.Push? && op.req.key == key && rs[i - 1] == Processed(true) {
      k := i - 1;
    } else {
      k := HeldWasRecorded(ws, ops, rs, maxAge, maxSize, clock, i - 1, key);
    }
  }

  lemma StepKeepsEntries(w: World, op: Op, maxAge: int, maxSize: int, w': World, r: Reply, key: string)
    requires Does(w, op, maxAge, maxSize, w', r) && key in w'.keys
    ensures if op.Push? && op.req.key == key && r == Processed(true) then w'.keys[key] == Entry(op.now, "ok")
            else key in w.keys && w'.keys[key] == w.keys[key]
  {
    hide Committed;
  }

  /**
   Only repeated pushes are answered from the cache: in every run from an empty tracker, such an
   answer means that the same, non-empty key was pushed and processed before, within maxAge.
   */
  lemma CachedMeansPushedBefore(
    ws: seq<World>, ops: seq<Op>, rs: seq<Reply>, maxAge: int, maxSize: int, clock: int, n: nat) returns (k: nat)
    requires IsRun(ws, ops, rs, maxAge, maxSize, clock) && ws[0].keys == map[] && n < |ops|
    requires ops[n].Push? && rs[n].FromCache?
    ensures k < n && ops[k].Push? && ops[k].req.key == ops[n].req.key != "" && rs[k] == Processed(true)
    ensures ops[n].now - ops[k].now <= maxAge && rs[n].response == "ok" && ws[n + 1] == ws[n]
  {
    hide Recorded, Committed;
    assert Does(ws[n], ops[n], maxAge, maxSize, ws[n + 1], rs[n]);
    k := HeldWasRecorded(ws, ops, rs, maxAge, maxSize, clock, n, ops[n].req.key);
  }

  lemma HeldKeyIsFound(keys: Keys, key: string, e: Entry, m: nat, now: int, maxAge: int)
    requires Holds(keys, key, e, m) && now - e.time <= maxAge
    ensures Lookup(keys, key, now, maxAge) == Some(e.response)
  {
  }

  /**
   A repeated push is answered from the cache and leaves the store unchanged: in every run
   that starts with a recorded push of a key and ends with another push of that key within
   maxAge, with fewer than maxSize Records of other keys in between.
   */
  lemma RepeatedPushIsIdempotent(ws: seq<World>, ops: seq<Op>, rs: seq<Reply>, maxAge: int, maxSize: int, clock: int)
    requires IsRun(ws, ops, rs, maxAge, maxSize, clock) && Timed(ws[0].keys, clock) && |ops| >= 2
    requires ops[0].Push? && rs[0] == Processed(true)
    requires var last := ops[|ops| - 1];
             last.Push? && last.req.key == ops[0].req.key && last.now - ops[0].now <= maxAge
    requires Records(rs[1..|rs| - 1]) < maxSize
    ensures rs[|rs| - 1] == FromCache(OK_RESPONSE) && ws[|ws| - 1] == ws[|ws| - 2]
  {
    hide Recorded, Committed, Timed, Holds;
    var n := |ops| - 1;
    var key, e := ops[0].req.key, Entry(ops[0].now, OK_RESPONSE);
    assert Does(ws[0], ops[0], maxAge, maxSize, ws[1], rs[0]);
    FreshRecord(ws[0].keys, key, ops[0].now, OK_RESPONSE, maxSize, ws[1].keys, clock);
    TailIsRun(ws, ops, rs, maxAge, maxSize, clock);
    TimesIncrease(ws, ops, rs, maxAge, maxSize, clock, n);
    assert rs[1..][..n - 1] == rs[1..n];
    KeySurvives(ws[1..], ops[1..], rs[1..], maxAge, maxSize, ops[0].now, key, e, n - 1);
    HeldKeyIsFound(ws[n].keys, key, e, Records(rs[1..n]), ops[n].now, maxAge);
    assert Does(ws[n], ops[n], maxAge, maxSize, ws[n + 1], rs[n]);
  }

  lemma TailIsRun(ws: seq<World>, ops: seq<Op>, rs: seq<Reply>, maxAge: int, maxSize: int, clock: int)
    requires IsRun(ws, ops, rs, maxAge, maxSize, clock) && |ops| > 0
    ensures IsRun(ws[1..], ops[1..], rs[1..], maxAge, maxSize, ops[0].now)
  {
    hide Does;
    forall i | 0 <= i < |ops[1..]|
      ensures Does(ws[1..][i], ops[1..][i], maxAge, maxSize, ws[1..][i + 1], rs[1..][i])
    {
      assert Does(ws[i + 1], ops[i + 1], maxAge, maxSize, ws[i + 2], rs[i + 1]);
    }
  }

  lemma {:induction false} TimesIncrease(
    ws: seq<World>, ops: seq<Op>, rs: seq<Reply>, maxAge: int, maxSize: int, clock: int, n: nat)
    requires IsRun(ws, ops, rs, maxAge, maxSize, clock) && n < |ops|
    ensures forall k :: 0 <= k <= n ==> ops[k].now <= ops[n].now
    decreases n
  {
    if n > 0 {
      TimesIncrease(ws, ops, rs, maxAge, maxSize, clock, n - 1);
    }
  }
}
