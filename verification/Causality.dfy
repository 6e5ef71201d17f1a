/**
 Whole runs of nodes that exchange vector clocks (version/vector_clock.go, version/doc.go).

 Every node starts with an empty clock.  It increments its own counter for a new event,
 hands out a clone of its clock as a message, and merges a message it has received.  A
 message may be received late, several times or never, and every increment and merge may
 fail with the errors of the source, in which case it changes nothing.

 The clocks of the events are proved to characterise causality.
 */
module Causality {
  import opened Basics
  import opened VectorClocks

  datatype Action =
    | Tick(node: NodeId)                  // Increment: a new event of the node
    | Send(node: NodeId)                  // Clone: the node's clock becomes a message
    | Absorb(node: NodeId, message: nat)  // Merge: the message sent by that earlier action

  type Run = seq<Action>

  /** Messages are received only after they were sent. */
  ghost predicate WellFormed(run: Run) {
    forall j :: 0 <= j < |run| && run[j].Absorb? ==> run[j].message < j && run[run[j].message].Send?
  }

  /** The effect of Increment and of Merge on a clock, whether they succeed or not. */
  ghost function Ticked(mine: Clock, n: NodeId): Clock {
    if IncrementError(mine, n).None? then Incremented(mine, n) else mine
  }

  ghost function Absorbed(mine: Clock, message: Clock): Clock {
    if MergeError(mine.Keys, message.Keys).None? then Merged(mine, message) else mine
  }

  /** The clock of node n after the first t actions. */
  ghost function ClockOf(run: Run, n: NodeId, t: nat): Clock
    requires WellFormed(run) && t <= |run|
    decreases t
  {
    if t == 0 then map[] else
      var mine := ClockOf(run, n, t - 1);
      if run[t - 1].node != n then mine else
        match run[t - 1]
        case Tick(_) => Ticked(mine, n)
        case Send(_) => mine
        case Absorb(_, s) => Absorbed(mine, ClockOf(run, run[s].node, s))
  }

  /** The clone a Send action put on its way. */
  ghost function Message(run: Run, s: nat): Clock
    requires WellFormed(run) && s < |run| && run[s].Send?
  {
    ClockOf(run, run[s].node, s)
  }

  /** The merge of an Absorb action succeeded. */
  ghost predicate Accepted(run: Run, j: nat)
    requires WellFormed(run) && j < |run| && run[j].Absorb?
  {
    MergeError(ClockOf(run, run[j].node, j).Keys, Message(run, run[j].message).Keys).None?
  }

  /** Action j is a successful increment, that is, an event. */
  ghost predicate IsEvent(run: Run, j: nat)
    requires WellFormed(run)
  {
    j < |run| && run[j].Tick? && IncrementError(ClockOf(run, run[j].node, j), run[j].node).None?
  }

  /** The clock of an event: its node's clock right after the increment. */
  ghost function Stamp(run: Run, e: nat): Clock
    requires WellFormed(run) && IsEvent(run, e)
  {
    ClockOf(run, run[e].node, e + 1)
  }

  /** One causal edge: two actions of one node, or a message and its successful merge. */
  ghost predicate Edge(run: Run, i: nat, j: nat)
    requires WellFormed(run)
  {
    && i < j < |run|
    && (run[i].node == run[j].node || (run[j].Absorb? && run[j].message == i && Accepted(run, j)))
  }

  /** The reflexive and transitive closure of the edges. */
  ghost predicate Reaches(run: Run, i: nat, j: nat)
    requires WellFormed(run)
    decreases j
  {
    i == j || exists q: nat :: q < j && Edge(run, q, j) && Reaches(run, i, q)
  }

  ghost predicate HappenedBefore(run: Run, e: nat, f: nat)
    requires WellFormed(run)
  {
    e != f && Reaches(run, e, f)
  }

  // ---------------------------------------------------------------- the closure

  lemma {:induction false} ReachesForward(run: Run, i: nat, j: nat)
    requires WellFormed(run) && Reaches(run, i, j)
    ensures i <= j
    decreases j
  {
    if i != j {
      var q: nat :| q < j && Edge(run, q, j) && Reaches(run, i, q);
      ReachesForward(run, i, q);
    }
  }

  lemma {:induction false} ReachesTransitive(run: Run, i: nat, j: nat, k: nat)
    requires WellFormed(run) && Reaches(run, i, j) && Reaches(run, j, k)
    ensures Reaches(run, i, k)
    decreases k
  {
    if j != k {
      var q: nat :| q < k && Edge(run, q, k) && Reaches(run, j, q);
      ReachesTransitive(run, i, j, q);
    }
  }

  /** `Reaches` is the least reflexive and transitive relation that contains the edges. */
  lemma {:induction false} ReachesIsLeast(run: Run, R: (nat, nat) -> bool, i: nat, j: nat)
    requires WellFormed(run) && Reaches(run, i, j)
    requires forall a: nat :: R(a, a)
    requires forall a: nat, b: nat, c: nat :: R(a, b) && R(b, c) ==> R(a, c)
    requires forall a: nat, b: nat :: Edge(run, a, b) ==> R(a, b)
    ensures R(i, j)
    decreases j
  {
    if i != j {
      var q: nat :| q < j && Edge(run, q, j) && Reaches(run, i, q);
      ReachesIsLeast(run, R, i, q);
    }
  }

  // ---------------------------------------------------------------- counters along a run

  lemma TickedCounter(mine: Clock, n: NodeId, k: NodeId)
    requires Counter(mine, n) + 1 < COUNTER_MODULUS
    ensures Counter(Ticked(mine, n), k) == Counter(mine, k) + if k == n && IncrementError(mine, n).None? then 1 else 0
  {
  }

  lemma TickedBound(mine: Clock, n: NodeId, k: NodeId)
    ensures Counter(Ticked(mine, n), k) <= Counter(mine, k) + 1
  {
  }

  lemma AbsorbedCounter(mine: Clock, message: Clock, k: NodeId)
    ensures Counter(Absorbed(mine, message), k) ==
            if MergeError(mine.Keys, message.Keys).None?
            then Max(Counter(mine, k), Counter(message, k)) else Counter(mine, k)
  {
  }

  /** No counter exceeds the number of actions, so counters cannot wrap in a run below 2^64 actions. */
  lemma {:induction false} CounterBound(run: Run, n: NodeId, t: nat, k: NodeId)
    requires WellFormed(run) && t <= |run|
    ensures Counter(ClockOf(run, n, t), k) <= t
    decreases t
  {
    if t > 0 {
      var mine := ClockOf(run, n, t - 1);
      CounterBound(run, n, t - 1, k);
      match run[t - 1]
      case Tick(_) =>
        TickedBound(mine, n, k);
      case Send(_) =>
      case Absorb(_, s) =>
        CounterBound(run, run[s].node, s, k);
        AbsorbedCounter(mine, ClockOf(run, run[s].node, s), k);
    }
  }

  /** What one action does to one counter of one clock. */
  lemma CounterStep(run: Run, n: NodeId, t: nat, k: NodeId)
    requires WellFormed(run) && t < |run| < COUNTER_MODULUS
    ensures Counter(ClockOf(run, n, t + 1), k) ==
            if run[t].node == n && run[t].Absorb? && Accepted(run, t)
            then Max(Counter(ClockOf(run, n, t), k), Counter(Message(run, run[t].message), k))
            else if run[t].node == n == k && IsEvent(run, t)
            then Counter(ClockOf(run, n, t), k) + 1
            else Counter(ClockOf(run, n, t), k)
  {
    var mine := ClockOf(run, n, t);
    match run[t]
    case Tick(_) =>
      CounterBound(run, n, t, n);
      TickedCounter(mine, n, k);
    case Send(_) =>
    case Absorb(_, s) =>
      AbsorbedCounter(mine, Message(run, s), k);
  }

  lemma {:induction false} CounterGrows(run: Run, n: NodeId, t: nat, u: nat, k: NodeId)
    requires WellFormed(run) && t <= u <= |run| < COUNTER_MODULUS
    ensures Counter(ClockOf(run, n, t), k) <= Counter(ClockOf(run, n, u), k)
    decreases u
  {
    hide ClockOf, Counter, IsEvent, Accepted, Message;
    if t < u {
      CounterGrows(run, n, t, u - 1, k);
      CounterStep(run, n, u - 1, k);
    }
  }

  // ---------------------------------------------------------------- which actions take effect

  /** Every clock of a run tracks at most 1000 nodes, with IDs of 1 to 255 bytes. */
  lemma {:induction false} ClocksStayWithinLimits(run: Run, n: NodeId, t: nat)
    requires WellFormed(run) && t <= |run|
    ensures |ClockOf(run, n, t)| <= 1000
    ensures forall k :: k in ClockOf(run, n, t) ==> 1 <= |k| <= 255
    decreases t
  {
    if t > 0 {
      var mine := ClockOf(run, n, t - 1);
      ClocksStayWithinLimits(run, n, t - 1);
      if run[t - 1].node == n {
        match run[t - 1]
        case Tick(_) =>
          TickedWithinLimits(mine, n);
        case Send(_) =>
        case Absorb(_, s) =>
          ClocksStayWithinLimits(run, run[s].node, s);
          AbsorbedWithinLimits(mine, ClockOf(run, run[s].node, s));
      }
    }
  }

  lemma TickedWithinLimits(mine: Clock, n: NodeId)
    requires |mine| <= 1000 && forall k :: k in mine ==> 1 <= |k| <= 255
    ensures |Ticked(mine, n)| <= 1000 && forall k :: k in Ticked(mine, n) ==> 1 <= |k| <= 255
  {
    IncrementErrorExactly(mine, n);
    if IncrementError(mine, n).None? {
      assert Incremented(mine, n).Keys == mine.Keys + {n};
      if n in mine {
        assert mine.Keys + {n} == mine.Keys;
      }
      assert |Incremented(mine, n)| == |Incremented(mine, n).Keys|;
    }
  }

  lemma AbsorbedWithinLimits(mine: Clock, message: Clock)
    requires |mine| <= 1000 && forall k :: k in mine ==> 1 <= |k| <= 255
    requires forall k :: k in message ==> 1 <= |k| <= 255
    ensures |Absorbed(mine, message)| <= 1000 && forall k :: k in Absorbed(mine, message) ==> 1 <= |k| <= 255
  {
    MergeErrorExactly(mine.Keys, message.Keys);
    if MergeError(mine.Keys, message.Keys).None? {
      MergeIsLeastUpperBound(mine, message);
      assert |Merged(mine, message)| == |Merged(mine, message).Keys|;
    }
  }

  ghost function Nodes(run: Run): set<NodeId> {
    set j | 0 <= j < |run| :: run[j].node
  }

  /** The nodes of the run have IDs of 1 to 255 bytes, and there are at most 1000 of them. */
  ghost predicate WithinLimits(run: Run) {
    |Nodes(run)| <= 1000 && forall n :: n in Nodes(run) ==> 1 <= |n| <= 255
  }

  lemma {:induction false} ClocksTrackNodes(run: Run, n: NodeId, t: nat)
    requires WellFormed(run) && t <= |run|
    ensures ClockOf(run, n, t).Keys <= Nodes(run)
    decreases t
  {
    if t > 0 {
      var mine := ClockOf(run, n, t - 1);
      ClocksTrackNodes(run, n, t - 1);
      if run[t - 1].node == n {
        assert n in Nodes(run);
        match run[t - 1]
        case Tick(_) =>
        case Send(_) =>
        case Absorb(_, s) =>
          ClocksTrackNodes(run, run[s].node, s);
          MergeIsLeastUpperBound(mine, ClockOf(run, run[s].node, s));
      }
    }
  }

  /**
   In a run within the limits every action takes effect: every increment raises its counter by
   one and is an event, and every received message ends up below the receiver's clock.
   */
  lemma EveryActionTakesEffect(run: Run, j: nat)
    requires WellFormed(run) && WithinLimits(run) && j < |run| < 0x1_0000_0000_0000_0000
    ensures var n := run[j].node;
            && (run[j].Tick? ==> IsEvent(run, j) &&
                                 Counter(ClockOf(run, n, j + 1), n) == Counter(ClockOf(run, n, j), n) + 1)
            && (run[j].Absorb? ==> Accepted(run, j) && Leq(Message(run, run[j].message), ClockOf(run, n, j + 1)))
            && Leq(ClockOf(run, n, j), ClockOf(run, n, j + 1))
  {
    hide ClockOf, Counter, IsEvent, Accepted, Message, Nodes;
    var n := run[j].node;
    forall k: NodeId
      ensures Counter(ClockOf(run, n, j), k) <= Counter(ClockOf(run, n, j + 1), k)
    {
      CounterGrows(run, n, j, j + 1, k);
    }
    match run[j]
    case Tick(_) => TickTakesEffect(run, j);
    case Send(_) =>
    case Absorb(_, _) => AbsorbTakesEffect(run, j);
  }

  lemma TickTakesEffect(run: Run, j: nat)
    requires WellFormed(run) && WithinLimits(run) && j < |run| < 0x1_0000_0000_0000_0000 && run[j].Tick?
    ensures var n := run[j].node;
            IsEvent(run, j) && Counter(ClockOf(run, n, j + 1), n) == Counter(ClockOf(run, n, j), n) + 1
  {
    hide ClockOf, Counter, Accepted, Message;
    var n := run[j].node;
    assert n in Nodes(run);
    ClocksTrackNodes(run, n, j);
    IncrementErrorExactly(ClockOf(run, n, j), n);
    RoomForOne(ClockOf(run, n, j).Keys, Nodes(run), n);
    CounterStep(run, n, j, n);
  }

  lemma AbsorbTakesEffect(run: Run, j: nat)
    requires WellFormed(run) && WithinLimits(run) && j < |run| < 0x1_0000_0000_0000_0000 && run[j].Absorb?
    ensures Accepted(run, j) && Leq(Message(run, run[j].message), ClockOf(run, run[j].node, j + 1))
  {
    hide ClockOf, Counter;
    var n, s := run[j].node, run[j].message;
    var mine, message := ClockOf(run, n, j), Message(run, s);
    ClocksTrackNodes(run, n, j);
    ClocksTrackNodes(run, run[s].node, s);
    SubsetSize(mine.Keys + message.Keys, Nodes(run));
    MergeErrorExactly(mine.Keys, message.Keys);
    forall k: NodeId
      ensures Counter(message, k) <= Counter(ClockOf(run, n, j + 1), k)
    {
      CounterStep(run, n, j, k);
    }
  }

  lemma RoomForOne(keys: set<NodeId>, nodes: set<NodeId>, n: NodeId)
    requires keys <= nodes && n in nodes && |nodes| <= 1000
    ensures n in keys || |keys| < 1000
  {
    if n !in keys {
      SubsetSize(keys + {n}, nodes);
    }
  }

  /** So in such a run causality is plain: program order and all received messages. */
  lemma EveryMessageCounts(run: Run, i: nat, j: nat)
    requires WellFormed(run) && WithinLimits(run) && |run| < 0x1_0000_0000_0000_0000
    ensures Edge(run, i, j) <==>
            i < j < |run| && (run[i].node == run[j].node || (run[j].Absorb? && run[j].message == i))
  {
    if j < |run| {
      EveryActionTakesEffect(run, j);
    }
  }

  lemma NoZerosTicked(mine: Clock, n: NodeId)
    requires NoZeroEntries(mine) && Counter(mine, n) + 1 < COUNTER_MODULUS
    ensures NoZeroEntries(Ticked(mine, n))
  {
  }

  lemma NoZerosAbsorbed(mine: Clock, message: Clock)
    requires NoZeroEntries(mine) && NoZeroEntries(message)
    ensures NoZeroEntries(Absorbed(mine, message))
  {
  }

  lemma {:induction false} NoZeros(run: Run, n: NodeId, t: nat)
    requires WellFormed(run) && t <= |run| < COUNTER_MODULUS
    ensures NoZeroEntries(ClockOf(run, n, t))
    decreases t
  {
    if t > 0 {
      var mine := ClockOf(run, n, t - 1);
      NoZeros(run, n, t - 1);
      match run[t - 1]
      case Tick(_) =>
        CounterBound(run, n, t - 1, n);
        NoZerosTicked(mine, n);
      case Send(_) =>
      case Absorb(_, s) =>
        NoZeros(run, run[s].node, s);
        NoZerosAbsorbed(mine, ClockOf(run, run[s].node, s));
    }
  }

  /** The event's own counter in its stamp. */
  ghost function Own(run: Run, e: nat): nat
    requires WellFormed(run) && IsEvent(run, e)
  {
    Counter(Stamp(run, e), run[e].node)
  }

  lemma OwnCounter(run: Run, e: nat)
    requires WellFormed(run) && |run| < COUNTER_MODULUS && IsEvent(run, e)
    ensures Own(run, e) == Counter(ClockOf(run, run[e].node, e), run[e].node) + 1
  {
    CounterStep(run, run[e].node, e, run[e].node);
  }

  /** Event e is in the causal past of what node n did in the first t actions. */
  ghost predicate KnownAt(run: Run, e: nat, n: NodeId, t: nat)
    requires WellFormed(run) && t <= |run|
  {
    exists q: nat :: q < t && run[q].node == n && Reaches(run, e, q)
  }

  lemma KnownAtSend(run: Run, e: nat, s: nat)
    requires WellFormed(run) && s < |run| && run[s].Send? && IsEvent(run, e)
    ensures KnownAt(run, e, run[s].node, s) <==> Reaches(run, e, s)
  {
    if KnownAt(run, e, run[s].node, s) {
      var q: nat :| q < s && run[q].node == run[s].node && Reaches(run, e, q);
      assert Edge(run, q, s);
    }
  }

  /** What the last edge into an action brings along. */
  ghost predicate Received(run: Run, e: nat, t: nat)
    requires WellFormed(run) && t < |run|
  {
    run[t].Absorb? && Accepted(run, t) && Reaches(run, e, run[t].message)
  }

  lemma ReachesThroughLastEdge(run: Run, e: nat, t: nat)
    requires WellFormed(run) && t < |run| && e != t
    ensures Reaches(run, e, t) <==> KnownAt(run, e, run[t].node, t) || Received(run, e, t)
  {
    if Reaches(run, e, t) {
      var q: nat :| q < t && Edge(run, q, t) && Reaches(run, e, q);
    }
    if KnownAt(run, e, run[t].node, t) {
      var q: nat :| q < t && run[q].node == run[t].node && Reaches(run, e, q);
      assert Edge(run, q, t);
    }
    if Received(run, e, t) {
      assert Edge(run, run[t].message, t);
    }
  }

  /** One more action of node n adds to its causal past what that action brings. */
  lemma KnownAtStep(run: Run, e: nat, n: NodeId, t: nat)
    requires WellFormed(run) && t < |run| && run[t].node == n && e != t
    ensures KnownAt(run, e, n, t + 1) <==> KnownAt(run, e, n, t) || Received(run, e, t)
  {
    ReachesThroughLastEdge(run, e, t);
    if KnownAt(run, e, n, t + 1) {
      var q: nat :| q < t + 1 && run[q].node == n && Reaches(run, e, q);
      assert q == t || q < t;
    }
    assert KnownAt(run, e, n, t) ==> KnownAt(run, e, n, t + 1);
  }

  /** At its own node, an event is known from its action on. */
  lemma KnownAtHome(run: Run, e: nat, t: nat)
    requires WellFormed(run) && t <= |run| && |run| < COUNTER_MODULUS && IsEvent(run, e)
    ensures KnownAt(run, e, run[e].node, t) <==> e < t
    ensures Counter(ClockOf(run, run[e].node, t), run[e].node) >= Own(run, e) <==> e < t
  {
    var k := run[e].node;
    OwnCounter(run, e);
    if e < t {
      assert Reaches(run, e, e);
      CounterGrows(run, k, e + 1, t, k);
    } else {
      CounterGrows(run, k, t, e, k);
      forall q: nat | q < t && Reaches(run, e, q)
        ensures false
      {
        ReachesForward(run, e, q);
      }
    }
  }

  /** The clock of node n after t actions counts event e exactly when e is in its causal past. */
  ghost predicate Agrees(run: Run, e: nat, n: NodeId, t: nat)
    requires WellFormed(run) && t <= |run| && IsEvent(run, e)
  {
    Counter(ClockOf(run, n, t), run[e].node) >= Own(run, e) <==> KnownAt(run, e, n, t)
  }

  lemma AgreesAfterAbsorb(run: Run, e: nat, n: NodeId, t: nat)
    requires WellFormed(run) && t < |run| && |run| < COUNTER_MODULUS && IsEvent(run, e)
    requires run[t].Absorb? && run[t].node == n
    requires Agrees(run, e, n, t) && Agrees(run, e, run[run[t].message].node, run[t].message)
    ensures Agrees(run, e, n, t + 1)
  {
    CounterStep(run, n, t, run[e].node);
    KnownAtStep(run, e, n, t);
    KnownAtSend(run, e, run[t].message);
  }

  lemma AgreesAfterOther(run: Run, e: nat, n: NodeId, t: nat)
    requires WellFormed(run) && t < |run| && |run| < COUNTER_MODULUS && IsEvent(run, e)
    requires n != run[e].node && (run[t].node != n || !run[t].Absorb?)
    requires Agrees(run, e, n, t)
    ensures Agrees(run, e, n, t + 1)
  {
    CounterStep(run, n, t, run[e].node);
    if run[t].node == n {
      KnownAtStep(run, e, n, t);
    } else {
      assert KnownAt(run, e, n, t + 1) <==> KnownAt(run, e, n, t);
    }
  }

  /** The heart of the matter: every clock of the run agrees with causality. */
  lemma {:induction false} CounterMeansKnown(run: Run, e: nat, n: NodeId, t: nat)
    requires WellFormed(run) && t <= |run| && |run| < COUNTER_MODULUS && IsEvent(run, e)
    ensures Agrees(run, e, n, t)
    decreases t
  {
    if n == run[e].node {
      KnownAtHome(run, e, t);
    } else if t == 0 {
      OwnCounter(run, e);
    } else {
      CounterMeansKnown(run, e, n, t - 1);
      if run[t - 1].node == n && run[t - 1].Absorb? {
        var s := run[t - 1].message;
        CounterMeansKnown(run, e, run[s].node, s);
        AgreesAfterAbsorb(run, e, n, t - 1);
      } else {
        AgreesAfterOther(run, e, n, t - 1);
      }
    }
  }

  /** The same, between two events. */
  lemma StampMeansReaches(run: Run, e: nat, f: nat)
    requires WellFormed(run) && |run| < COUNTER_MODULUS && IsEvent(run, e) && IsEvent(run, f)
    ensures Counter(Stamp(run, f), run[e].node) >= Own(run, e) <==> Reaches(run, e, f)
  {
    CounterMeansKnown(run, e, run[f].node, f + 1);
    if KnownAt(run, e, run[f].node, f + 1) {
      var q: nat :| q < f + 1 && run[q].node == run[f].node && Reaches(run, e, q);
      assert q == f || Edge(run, q, f);
    }
  }

  /** Clocks grow along every causal edge. */
  lemma EdgeGrows(run: Run, i: nat, j: nat, k: NodeId)
    requires WellFormed(run) && |run| < COUNTER_MODULUS && Edge(run, i, j)
    ensures Counter(ClockOf(run, run[i].node, i + 1), k) <= Counter(ClockOf(run, run[j].node, j + 1), k)
  {
    if run[i].node == run[j].node {
      CounterGrows(run, run[j].node, i + 1, j + 1, k);
    } else {
      CounterStep(run, run[i].node, i, k);
      CounterStep(run, run[j].node, j, k);
    }
  }

  /** Clocks grow along every causal path. */
  lemma {:induction false} ReachesGrows(run: Run, i: nat, j: nat, k: NodeId)
    requires WellFormed(run) && |run| < COUNTER_MODULUS && Reaches(run, i, j) && j < |run|
    ensures i < |run|
    ensures Counter(ClockOf(run, run[i].node, i + 1), k) <= Counter(ClockOf(run, run[j].node, j + 1), k)
    decreases j
  {
    if i != j {
      var q: nat :| q < j && Edge(run, q, j) && Reaches(run, i, q);
      ReachesGrows(run, i, q, k);
      EdgeGrows(run, q, j, k);
    }
  }

  // ---------------------------------------------------------------- main results

  /**
   In every run, e happened before f exactly when Compare of their clocks is -1, and the
   clocks of different events are different.
   */
  lemma ClocksCharacteriseCausality(run: Run, e: nat, f: nat)
    requires WellFormed(run) && |run| < COUNTER_MODULUS && IsEvent(run, e) && IsEvent(run, f)
    ensures HappenedBefore(run, e, f) <==> Comparison(Stamp(run, e), Stamp(run, f)) == -1
    ensures Stamp(run, e) == Stamp(run, f) ==> e == f
  {
    StampMeansReaches(run, e, f);
    StampMeansReaches(run, f, e);
    if Reaches(run, e, f) {
      forall k: NodeId
        ensures Counter(Stamp(run, e), k) <= Counter(Stamp(run, f), k)
      {
        ReachesGrows(run, e, f, k);
      }
      if e != f {
        ReachesForward(run, e, f);
        if Reaches(run, f, e) {
          ReachesForward(run, f, e);
        }
        assert Counter(Stamp(run, e), run[f].node) < Counter(Stamp(run, f), run[f].node);
      }
    }
    if Reaches(run, e, f) && Reaches(run, f, e) {
      ReachesForward(run, e, f);
      ReachesForward(run, f, e);
    }
  }

  /**
   The source's IsConcurrentWith (Compare is 0 and the equality test fails) holds of two
   events exactly when they are different and causally unrelated.
   */
  lemma ConcurrentMeansUnrelated(run: Run, e: nat, f: nat)
    requires WellFormed(run) && |run| < COUNTER_MODULUS && IsEvent(run, e) && IsEvent(run, f)
    ensures Comparison(Stamp(run, e), Stamp(run, f)) == 0 && !LooksEqual(Stamp(run, e), Stamp(run, f)) <==>
            e != f && !HappenedBefore(run, e, f) && !HappenedBefore(run, f, e)
  {
    hide ClockOf, Counter, LooksEqual, NoZeroEntries, HappenedBefore, Leq;
    ClocksCharacteriseCausality(run, e, f);
    ClocksCharacteriseCausality(run, f, e);
    NoZeros(run, run[e].node, e + 1);
    EqualityTestIsExact(Stamp(run, e));
    BeforeIsAnOrder(Stamp(run, e), Stamp(run, f), Stamp(run, e));
  }
}
