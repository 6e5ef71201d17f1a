/**
 The publisher/subscriber side of the in-memory transport (transport/memchan/memchan.go) as a
 state machine.  Push, Subscribe, Close and the clean-up of a subscriber run under the
 transport's lock; receiving from a channel does not.  A Push in progress therefore holds the
 lock while its sends interleave with receives.  Sending on a closed channel and closing a
 channel twice are modelled as a panic, which is proved never to happen.
 */
module MemChanProtocol {
  import opened Basics
  import opened Versions

  /** The goroutine of a subscriber: in its loop, past it with clean-up still to do, or gone. */
  datatype Phase = Looping | Exiting | Gone

  /**
   One subscriber.  Three fields observe it: the number of events pushed before it subscribed,
   the positions, among all events ever pushed, of those sent to its channel, and whether an
   event was dropped for it or withheld from it when a Push was cut short.
   */
  datatype Subscriber = Subscriber(
    buffer: seq<Event>, open: bool, phase: Phase, cancelled: bool,
    batch: seq<Event>, handled: seq<seq<Event>>,
    since: nat, taken: seq<nat>, missed: bool)

  /** A Push that holds the lock: it offers event `at` (below `end`) to the subscriber at position `next`. */
  datatype Job = Job(at: nat, end: nat, next: nat)

  /**
   `order` is the transport's list of channels, by subscriber number; `pushed` is the history
   of all events ever stored.
   */
  datatype State = State(
    capacity: nat, pushed: seq<Event>, subs: seq<Subscriber>, order: seq<nat>,
    closed: bool, lock: Option<Job>, panicked: bool)

  datatype Action =
    | PushBegin(events: seq<Event>)
    | Send                       // the next channel accepts the event, or is closed
    | Drop                       // the next channel is full
    | NextEvent                  // all channels have been offered the event
    | PushEnd
    | PushAbort                  // the context of the Push is done
    | Subscribe
    | Cancel(sub: nat)           // the context of the subscriber is done
    | Receive(sub: nat)
    | Tick(sub: nat)             // the ticker flushes the batch
    | SeeCancel(sub: nat)
    | SeeClosed(sub: nat)
    | Cleanup(sub: nat)
    | Close

  /** A capacity that is not positive stands for 16. */
  function New(capacity: int): State {
    State(if capacity <= 0 then 16 else capacity, [], [], [], false, None, false)
  }

  function Target(s: State): Subscriber
    requires s.lock.Some? && s.lock.value.next < |s.order| && s.order[s.lock.value.next] < |s.subs|
  {
    s.subs[s.order[s.lock.value.next]]
  }

  predicate Offering(s: State) {
    && s.lock.Some? && s.lock.value.at < s.lock.value.end <= |s.pushed|
    && s.lock.value.next < |s.order| && s.order[s.lock.value.next] < |s.subs|
  }

  predicate Enabled(s: State, a: Action) {
    !s.panicked &&
    match a
    case PushBegin(_) => s.lock.None? && !s.closed
    case Send => Offering(s) && (!Target(s).open || |Target(s).buffer| < s.capacity)
    case Drop => Offering(s) && Target(s).open && |Target(s).buffer| >= s.capacity
    case NextEvent => s.lock.Some? && s.lock.value.at < s.lock.value.end && s.lock.value.next >= |s.order|
    case PushEnd => s.lock.Some? && s.lock.value.at >= s.lock.value.end
    case PushAbort => s.lock.Some? && s.lock.value.at < s.lock.value.end
    case Subscribe => s.lock.None?
    case Cancel(i) => i < |s.subs|
    case Receive(i) => i < |s.subs| && s.subs[i].phase.Looping? && |s.subs[i].buffer| > 0
    case Tick(i) => i < |s.subs| && s.subs[i].phase.Looping? && |s.subs[i].batch| > 0
    case SeeCancel(i) => i < |s.subs| && s.subs[i].phase.Looping? && s.subs[i].cancelled
    case SeeClosed(i) => i < |s.subs| && s.subs[i].phase.Looping? && !s.subs[i].open && |s.subs[i].buffer| == 0
    case Cleanup(i) => i < |s.subs| && s.subs[i].phase.Exiting? && s.lock.None?
    case Close => s.lock.None? && !s.closed
  }

  /** Hands a non-empty batch to the handler, whose error is only printed. */
  function Flushed(sub: Subscriber): Subscriber {
    if |sub.batch| > 0 then sub.(handled := sub.handled + [sub.batch], batch := []) else sub
  }

  function SetSub(s: State, i: nat, sub: Subscriber): State
    requires i < |s.subs|
  {
    s.(subs := s.subs[i := sub])
  }

  /** The list without its first occurrence of i. */
  function Without(order: seq<nat>, i: nat): seq<nat> {
    if |order| == 0 then [] else if order[0] == i then order[1..] else [order[0]] + Without(order[1..], i)
  }

  /** Closes the channels of the listed subscribers; closing a closed one panics. */
  function ClosedAll(s: State): State {
    s.(subs := seq(|s.subs|, i requires 0 <= i < |s.subs| =>
                     if i in s.order then s.subs[i].(open := false) else s.subs[i]),
       panicked := exists p :: 0 <= p < |s.order| && s.order[p] < |s.subs| && !s.subs[s.order[p]].open,
       order := [], closed := true)
  }

  /** No position at or above this one has been offered to subscriber i yet. */
  function Bound(s: State, i: nat): nat {
    if s.lock.None? then |s.pushed|
    else if i in s.order[..Min(s.lock.value.next, |s.order|)] then s.lock.value.at + 1
    else s.lock.value.at
  }

  /** A Push that is cut short withholds its remaining events from the listed subscribers. */
  function Aborted(s: State): State {
    s.(subs := seq(|s.subs|, i requires 0 <= i < |s.subs| =>
                     if i in s.order && Bound(s, i) < |s.pushed| then s.subs[i].(missed := true) else s.subs[i]),
       lock := None)
  }

  function Do(s: State, a: Action): State
    requires Enabled(s, a)
  {
    match a
    case PushBegin(es) => s.(pushed := s.pushed + es, lock := Some(Job(|s.pushed|, |s.pushed| + |es|, 0)))
    case Send =>
      var job, i := s.lock.value, s.order[s.lock.value.next];
      if !s.subs[i].open then s.(panicked := true) else
        var sub := s.subs[i].(buffer := s.subs[i].buffer + [s.pushed[job.at]], taken := s.subs[i].taken + [job.at]);
        SetSub(s, i, sub).(lock := Some(job.(next := job.next + 1)))
    case Drop =>
      var i := s.order[s.lock.value.next];
      SetSub(s, i, s.subs[i].(missed := true)).(lock := Some(s.lock.value.(next := s.lock.value.next + 1)))
    case NextEvent => s.(lock := Some(s.lock.value.(at := s.lock.value.at + 1, next := 0)))
    case PushEnd => s.(lock := None)
    case PushAbort => Aborted(s)
    case Subscribe =>
      s.(subs := s.subs + [Subscriber([], true, Looping, false, [], [], |s.pushed|, [], false)],
         order := s.order + [|s.subs|])
    case Cancel(i) => SetSub(s, i, s.subs[i].(cancelled := true))
    case Receive(i) =>
      var sub := s.subs[i];
      SetSub(s, i, sub.(buffer := sub.buffer[1..], batch := sub.batch + [sub.buffer[0]]))
    case Tick(i) => SetSub(s, i, Flushed(s.subs[i]))
    case SeeCancel(i) => SetSub(s, i, Flushed(s.subs[i]).(phase := Exiting))
    case SeeClosed(i) => SetSub(s, i, Flushed(s.subs[i]).(phase := Exiting))
    case Cleanup(i) =>
      var sub := s.subs[i].(phase := Gone);
      if i !in s.order then SetSub(s, i, sub) else
        SetSub(s, i, sub.(open := false)).(order := Without(s.order, i), panicked := !s.subs[i].open)
    case Close => ClosedAll(s)
  }

  /** Where a run leads, if each of its actions is enabled when it happens. */
  function Exec(capacity: int, run: seq<Action>): Option<State> {
    if |run| == 0 then Some(New(capacity)) else
      var s := Exec(capacity, run[..|run| - 1]);
      if s.Some? && Enabled(s.value, run[|run| - 1]) then Some(Do(s.value, run[|run| - 1])) else None
  }

  // ---------------------------------------------------------------- the invariant

  function Flatten(batches: seq<seq<Event>>): seq<Event> {
    if |batches| == 0 then [] else Flatten(batches[..|batches| - 1]) + batches[|batches| - 1]
  }

  /** The events at the given positions of the history. */
  function At(pushed: seq<Event>, positions: seq<nat>): seq<Event>
    requires forall k :: 0 <= k < |positions| ==> positions[k] < |pushed|
  {
    seq(|positions|, k requires 0 <= k < |positions| => pushed[positions[k]])
  }

  /** The list holds, without repetition, exactly the subscribers whose channel is open. */
  ghost predicate Wired(s: State) {
    && !s.panicked && s.capacity > 0
    && (forall p, q :: 0 <= p < q < |s.order| ==> s.order[p] != s.order[q])
    && (forall p :: 0 <= p < |s.order| ==> s.order[p] < |s.subs|)
    && (forall i: nat :: i < |s.subs| ==> (i in s.order <==> s.subs[i].open))
    && (s.lock.Some? ==> s.lock.value.at <= s.lock.value.end == |s.pushed| && s.lock.value.next <= |s.order|
                         && (s.lock.value.at == s.lock.value.end ==> s.lock.value.next == 0))
  }

  /**
   The positions taken are increasing and lie between `since` and a bound, and an open subscriber
   has missed something exactly when they are fewer than all of them.
   */
  ghost predicate TakenOk(sub: Subscriber, bound: nat) {
    && (forall j, k :: 0 <= j < k < |sub.taken| ==> sub.taken[j] < sub.taken[k])
    && (forall k :: 0 <= k < |sub.taken| ==> sub.since <= sub.taken[k] < bound)
    && |sub.taken| <= bound - sub.since
    && (sub.open ==> (sub.missed <==> |sub.taken| < bound - sub.since))
  }

  /** What was sent to the channel is what was handled, then the pending batch, then the buffer. */
  ghost predicate Conserved(pushed: seq<Event>, sub: Subscriber) {
    && (forall k :: 0 <= k < |sub.taken| ==> sub.taken[k] < |pushed|)
    && At(pushed, sub.taken) == Flatten(sub.handled) + sub.batch + sub.buffer
    && (!sub.phase.Looping? ==> sub.batch == [])
  }

  ghost predicate SubOk(s: State, i: nat)
    requires i < |s.subs|
  {
    var sub := s.subs[i];
    && |sub.buffer| <= s.capacity
    && sub.since <= Bound(s, i) <= |s.pushed|
    && TakenOk(sub, Bound(s, i))
    && Conserved(s.pushed, sub)
  }

  ghost predicate Inv(s: State) {
    Wired(s) && forall i: nat :: i < |s.subs| ==> SubOk(s, i)
  }

  // ---------------------------------------------------------------- steps on one subscriber

  lemma FlushConserves(pushed: seq<Event>, sub: Subscriber)
    requires Conserved(pushed, sub) && sub.phase.Looping?
    ensures Conserved(pushed, Flushed(sub)) && Conserved(pushed, Flushed(sub).(phase := Exiting))
  {
    if |sub.batch| > 0 {
      var h := sub.handled + [sub.batch];
      assert h[..|sub.handled|] == sub.handled;
      assert Flatten(h) == Flatten(sub.handled) + sub.batch;
    }
  }

  lemma ReceiveConserves(pushed: seq<Event>, sub: Subscriber)
    requires Conserved(pushed, sub) && sub.phase.Looping? && |sub.buffer| > 0
    ensures Conserved(pushed, sub.(buffer := sub.buffer[1..], batch := sub.batch + [sub.buffer[0]]))
  {
    assert sub.buffer == [sub.buffer[0]] + sub.buffer[1..];
  }

  lemma SendConserves(pushed: seq<Event>, sub: Subscriber, at: nat)
    requires Conserved(pushed, sub) && sub.since <= at < |pushed|
    ensures Conserved(pushed, sub.(buffer := sub.buffer + [pushed[at]], taken := sub.taken + [at]))
  {
    hide Flatten;
    assert At(pushed, sub.taken + [at]) == At(pushed, sub.taken) + [pushed[at]];
  }

  lemma SendIsTaken(sub: Subscriber, buffer: seq<Event>, at: nat)
    requires TakenOk(sub, at) && sub.since <= at
    ensures TakenOk(sub.(buffer := buffer, taken := sub.taken + [at]), at + 1)
  {
  }

  lemma GrowConserves(pushed: seq<Event>, more: seq<Event>, sub: Subscriber)
    requires Conserved(pushed, sub)
    ensures Conserved(pushed + more, sub)
  {
    assert At(pushed + more, sub.taken) == At(pushed, sub.taken);
  }

  lemma {:induction false} WithoutIs(order: seq<nat>, i: nat)
    requires forall p, q :: 0 <= p < q < |order| ==> order[p] != order[q]
    ensures var w := Without(order, i);
            && (forall p, q :: 0 <= p < q < |w| ==> w[p] != w[q])
            && (forall x: nat :: x in w <==> x in order && x != i)
  {
    if |order| > 0 {
      var rest := order[1..];
      assert order == [order[0]] + rest && order[0] !in rest;
      assert forall x: nat :: x in order <==> x == order[0] || x in rest;
      if order[0] != i {
        WithoutIs(rest, i);
        var w := [order[0]] + Without(rest, i);
        assert forall x: nat :: x in w <==> x == order[0] || x in Without(rest, i);
      }
    }
  }

  // ---------------------------------------------------------------- every step keeps the invariant

  /** A step that changes one subscriber's goroutine only. */
  lemma LocalStep(s: State, i: nat, sub: Subscriber)
    requires Inv(s) && i < |s.subs|
    requires sub.open == s.subs[i].open && sub.since == s.subs[i].since && sub.taken == s.subs[i].taken
    requires sub.missed == s.subs[i].missed
    requires |sub.buffer| <= s.capacity && Conserved(s.pushed, sub)
    ensures Inv(SetSub(s, i, sub))
  {
    hide Conserved;
    var s' := SetSub(s, i, sub);
    forall k: nat | k < |s'.subs|
      ensures SubOk(s', k)
    {
      assert SubOk(s, k) && Bound(s', k) == Bound(s, k);
    }
  }

  lemma PushBeginStep(s: State, es: seq<Event>)
    requires Inv(s) && Enabled(s, PushBegin(es))
    ensures Inv(Do(s, PushBegin(es)))
  {
    hide Conserved;
    var s' := Do(s, PushBegin(es));
    forall k: nat | k < |s'.subs|
      ensures SubOk(s', k)
    {
      assert SubOk(s, k) && Bound(s', k) == Bound(s, k);
      GrowConserves(s.pushed, es, s.subs[k]);
    }
  }

  lemma BoundAfterOffer(s: State, s': State, k: nat)
    requires Wired(s) && Offering(s) && k < |s.subs|
    requires s'.lock == Some(s.lock.value.(next := s.lock.value.next + 1)) && s'.order == s.order
    ensures Bound(s, s.order[s.lock.value.next]) == s.lock.value.at
    ensures Bound(s', k) == if k == s.order[s.lock.value.next] then s.lock.value.at + 1 else Bound(s, k)
  {
    var n := s.lock.value.next;
    assert s.order[..n + 1] == s.order[..n] + [s.order[n]];
  }

  lemma SendStep(s: State)
    requires Inv(s) && Enabled(s, Send)
    ensures Inv(Do(s, Send))
  {
    hide Conserved, TakenOk, Bound;
    var s' := Do(s, Send);
    var i := s.order[s.lock.value.next];
    assert s.subs[i].open;
    BoundAfterOffer(s, s', i);
    assert SubOk(s, i);
    SendConserves(s.pushed, s.subs[i], s.lock.value.at);
    SendIsTaken(s.subs[i], s'.subs[i].buffer, s.lock.value.at);
    forall k: nat | k < |s'.subs|
      ensures SubOk(s', k)
    {
      assert SubOk(s, k);
      BoundAfterOffer(s, s', k);
    }
  }

  /** When the bound moves up without anything being sent, an open subscriber has missed something. */
  lemma BoundMovesUp(pushed: seq<Event>, sub: Subscriber, b: nat, b': nat)
    requires TakenOk(sub, b) && b <= b' && Conserved(pushed, sub)
    ensures b == b' || !sub.open ==> TakenOk(sub, b')
    ensures b < b' ==> TakenOk(sub.(missed := true), b')
    ensures Conserved(pushed, sub.(missed := true))
  {
  }

  lemma DropStep(s: State)
    requires Inv(s) && Enabled(s, Drop)
    ensures Inv(Do(s, Drop))
  {
    hide Conserved, TakenOk, Bound;
    var s' := Do(s, Drop);
    forall k: nat | k < |s'.subs|
      ensures SubOk(s', k)
    {
      assert SubOk(s, k);
      BoundAfterOffer(s, s', k);
      BoundMovesUp(s.pushed, s.subs[k], Bound(s, k), Bound(s', k));
    }
  }

  /** NextEvent, PushEnd and PushAbort only move the bounds up. */
  lemma LockStep(s: State, s': State)
    requires Inv(s) && Wired(s') && |s'.subs| == |s.subs|
    requires s' == s.(lock := s'.lock, subs := s'.subs)
    requires forall k: nat :: k < |s.subs| ==> Bound(s, k) <= Bound(s', k) <= |s.pushed|
    requires forall k: nat :: k < |s.subs| ==>
               s'.subs[k] ==
               if s.subs[k].open && Bound(s, k) < Bound(s', k) then s.subs[k].(missed := true) else s.subs[k]
    ensures Inv(s')
  {
    hide Conserved, TakenOk, Bound;
    forall k: nat | k < |s'.subs|
      ensures SubOk(s', k)
    {
      assert SubOk(s, k);
      BoundMovesUp(s.pushed, s.subs[k], Bound(s, k), Bound(s', k));
    }
  }

  lemma NextEventStep(s: State)
    requires Inv(s) && Enabled(s, NextEvent)
    ensures Inv(Do(s, NextEvent))
  {
    hide SubOk;
    assert s.order[..|s.order|] == s.order;
    LockStep(s, Do(s, NextEvent));
  }

  lemma PushEndStep(s: State, a: Action)
    requires Inv(s) && Enabled(s, a) && (a.PushEnd? || a.PushAbort?)
    ensures Inv(Do(s, a))
  {
    hide SubOk;
    LockStep(s, Do(s, a));
  }

  lemma SubscribeStep(s: State)
    requires Inv(s) && Enabled(s, Subscribe)
    ensures Inv(Do(s, Subscribe))
  {
    hide Conserved, TakenOk;
    var s', n := Do(s, Subscribe), |s.subs|;
    assert forall i: nat :: i in s'.order <==> i in s.order || i == n;
    NewSubscriber(s'.subs[n], s.pushed);
    forall k: nat | k < |s'.subs|
      ensures SubOk(s', k)
    {
      if k < n {
        assert SubOk(s, k);
      }
    }
  }

  lemma NewSubscriber(sub: Subscriber, pushed: seq<Event>)
    requires sub == Subscriber([], true, Looping, false, [], [], |pushed|, [], false)
    ensures TakenOk(sub, |pushed|) && Conserved(pushed, sub)
  {
  }

  /** Ending a goroutine or closing its channel does not touch what it has been sent. */
  lemma ClosedSubscriber(pushed: seq<Event>, sub: Subscriber, bound: nat)
    requires Conserved(pushed, sub) && TakenOk(sub, bound)
    ensures Conserved(pushed, sub.(open := false)) && TakenOk(sub.(open := false), bound)
    ensures !sub.phase.Looping? ==> Conserved(pushed, sub.(phase := Gone)) && TakenOk(sub.(phase := Gone), bound)
  {
  }

  lemma CleanupStep(s: State, i: nat)
    requires Inv(s) && Enabled(s, Cleanup(i))
    ensures Inv(Do(s, Cleanup(i)))
  {
    hide Conserved, TakenOk, Without;
    var s', sub := Do(s, Cleanup(i)), s.subs[i];
    assert SubOk(s, i);
    ClosedSubscriber(s.pushed, sub, Bound(s, i));
    ClosedSubscriber(s.pushed, sub.(phase := Gone), Bound(s, i));
    WithoutIs(s.order, i);
    assert forall p :: 0 <= p < |s'.order| ==> s'.order[p] in s'.order;
    forall k: nat | k < |s'.subs|
      ensures SubOk(s', k)
    {
      assert SubOk(s, k);
    }
  }

  lemma CloseStep(s: State)
    requires Inv(s) && Enabled(s, Close)
    ensures Inv(Do(s, Close))
  {
    hide Conserved, TakenOk;
    var s' := Do(s, Close);
    forall k: nat | k < |s'.subs|
      ensures SubOk(s', k)
    {
      assert SubOk(s, k);
      ClosedSubscriber(s.pushed, s.subs[k], Bound(s, k));
    }
  }

  lemma StepKeepsInv(s: State, a: Action)
    requires Inv(s) && Enabled(s, a)
    ensures Inv(Do(s, a))
  {
    hide Conserved, TakenOk, Bound;
    match a
    case PushBegin(es) => PushBeginStep(s, es);
    case Send => SendStep(s);
    case Drop => DropStep(s);
    case NextEvent => NextEventStep(s);
    case PushEnd => PushEndStep(s, a);
    case PushAbort => PushEndStep(s, a);
    case Subscribe => SubscribeStep(s);
    case Close => CloseStep(s);
    case Cleanup(i) => CleanupStep(s, i);
    case Cancel(i) => LocalCancel(s, i);
    case Receive(i) => LocalReceive(s, i);
    case Tick(i) => LocalFlush(s, i);
    case SeeCancel(i) => LocalFlush(s, i);
    case SeeClosed(i) => LocalFlush(s, i);
  }

  lemma LocalCancel(s: State, i: nat)
    requires Inv(s) && i < |s.subs|
    ensures Inv(SetSub(s, i, s.subs[i].(cancelled := true)))
  {
    assert SubOk(s, i);
    LocalStep(s, i, s.subs[i].(cancelled := true));
  }

  lemma LocalReceive(s: State, i: nat)
    requires Inv(s) && Enabled(s, Receive(i))
    ensures Inv(Do(s, Receive(i)))
  {
    var sub := s.subs[i];
    assert SubOk(s, i);
    ReceiveConserves(s.pushed, sub);
    LocalStep(s, i, sub.(buffer := sub.buffer[1..], batch := sub.batch + [sub.buffer[0]]));
  }

  lemma LocalFlush(s: State, i: nat)
    requires Inv(s) && i < |s.subs| && s.subs[i].phase.Looping?
    ensures Inv(SetSub(s, i, Flushed(s.subs[i]))) && Inv(SetSub(s, i, Flushed(s.subs[i]).(phase := Exiting)))
  {
    assert SubOk(s, i);
    FlushConserves(s.pushed, s.subs[i]);
    LocalStep(s, i, Flushed(s.subs[i]));
    LocalStep(s, i, Flushed(s.subs[i]).(phase := Exiting));
  }

  // ---------------------------------------------------------------- main results

  lemma {:induction false} RunKeepsInv(capacity: int, run: seq<Action>)
    requires Exec(capacity, run).Some?
    ensures Inv(Exec(capacity, run).value)
    decreases |run|
  {
    if |run| > 0 {
      RunKeepsInv(capacity, run[..|run| - 1]);
      StepKeepsInv(Exec(capacity, run[..|run| - 1]).value, run[|run| - 1]);
    }
  }

  /** What a subscriber is promised, whatever happens. */
  ghost predicate Promised(s: State, sub: Subscriber) {
    && |sub.buffer| <= s.capacity
    && (forall j, k :: 0 <= j < k < |sub.taken| ==> sub.taken[j] < sub.taken[k])
    && (forall k :: 0 <= k < |sub.taken| ==> sub.since <= sub.taken[k] < |s.pushed|)
    && At(s.pushed, sub.taken) == Flatten(sub.handled) + sub.batch + sub.buffer
  }

  /**
   In every interleaving: no send on a closed channel and no second close, every buffer stays
   within capacity, and for every subscriber the events sent to it, an in-order selection of
   what was pushed after it subscribed, are those handled, then its pending batch, then its
   buffer.
   */
  lemma EveryRunIsSafe(capacity: int, run: seq<Action>)
    requires Exec(capacity, run).Some?
    ensures var s := Exec(capacity, run).value;
            && !s.panicked && s.pushed == Pushed(run)
            && forall i: nat :: i < |s.subs| ==>
                 Promised(s, s.subs[i]) && |s.subs[i].buffer| <= if capacity <= 0 then 16 else capacity
  {
    hide Exec;
    RunKeepsInv(capacity, run);
    RunMirrors(capacity, run);
    PrefixRuns(capacity, run, |run|);
    assert run[..|run|] == run;
    var s := Exec(capacity, run).value;
    forall i: nat | i < |s.subs|
      ensures Promised(s, s.subs[i])
    {
      assert SubOk(s, i);
    }
  }

  /** As many increasing positions as there are between two bounds are all of them. */
  lemma {:induction false} FullIsAll(taken: seq<nat>, since: nat, bound: nat)
    requires forall j, k :: 0 <= j < k < |taken| ==> taken[j] < taken[k]
    requires forall k :: 0 <= k < |taken| ==> since <= taken[k] < bound
    requires |taken| == bound - since
    ensures forall k :: 0 <= k < |taken| ==> taken[k] == since + k
    decreases |taken|
  {
    if |taken| > 0 {
      var n := |taken| - 1;
      assert forall k :: 0 <= k < n ==> taken[k] < taken[n];
      FullIsAll(taken[..n], since, bound - 1);
      assert forall k :: 0 <= k < n ==> taken[k] == taken[..n][k];
      assert n > 0 ==> taken[n - 1] == since + n - 1;
    }
  }

  /**
   A subscriber whose channel is open has been sent, between pushes, exactly the events pushed
   since it subscribed if and only if nothing was dropped for it or withheld from it, whatever
   happened to the others.
   */
  lemma NothingIsLost(capacity: int, run: seq<Action>, i: nat)
    requires Exec(capacity, run).Some?
    requires var s := Exec(capacity, run).value;
             s.lock.None? && i < |s.subs| && s.subs[i].open
    ensures var s := Exec(capacity, run).value;
            var sub := s.subs[i];
            && sub.since <= |s.pushed|
            && (s.pushed[sub.since..] == Flatten(sub.handled) + sub.batch + sub.buffer <==> !sub.missed)
  {
    hide Exec;
    RunKeepsInv(capacity, run);
    var s := Exec(capacity, run).value;
    var sub := s.subs[i];
    assert SubOk(s, i);
    if !sub.missed {
      FullIsAll(sub.taken, sub.since, |s.pushed|);
      assert At(s.pushed, sub.taken) == s.pushed[sub.since..];
    } else {
      assert |At(s.pushed, sub.taken)| < |s.pushed[sub.since..]|;
    }
  }

  // ---------------------------------------------------------------- subscribers that have left

  /** A subscriber that has left its loop without being cancelled saw its channel closed and empty. */
  ghost predicate LeftEmpty(s: State) {
    forall i: nat :: i < |s.subs| && !s.subs[i].phase.Looping? && !s.subs[i].cancelled ==>
                       !s.subs[i].open && |s.subs[i].buffer| == 0
  }

  lemma StepKeepsLeftEmpty(s: State, a: Action)
    requires Inv(s) && Enabled(s, a) && LeftEmpty(s)
    ensures LeftEmpty(Do(s, a))
  {
    hide SubOk, Flatten, At;
    match a
    case Send =>
      assert s.subs[s.order[s.lock.value.next]].open;
    case _ =>
  }

  lemma {:induction false} RunKeepsLeftEmpty(capacity: int, run: seq<Action>)
    requires Exec(capacity, run).Some?
    ensures LeftEmpty(Exec(capacity, run).value)
    decreases |run|
  {
    hide Inv, LeftEmpty;
    if |run| > 0 {
      RunKeepsLeftEmpty(capacity, run[..|run| - 1]);
      RunKeepsInv(capacity, run[..|run| - 1]);
      StepKeepsLeftEmpty(Exec(capacity, run[..|run| - 1]).value, run[|run| - 1]);
    } else {
      NobodyLeft(capacity);
    }
  }

  lemma NobodyLeft(capacity: int)
    ensures LeftEmpty(New(capacity))
  {
  }

  /**
   A subscriber that has left its loop has no pending batch, and what it was sent is what it has
   handled, followed by what is left in its buffer; if it was not cancelled, nothing is left.
   */
  lemma LeaversHandledAll(capacity: int, run: seq<Action>, i: nat)
    requires Exec(capacity, run).Some?
    requires i < |Exec(capacity, run).value.subs| && !Exec(capacity, run).value.subs[i].phase.Looping?
    ensures var s := Exec(capacity, run).value;
            var sub := s.subs[i];
            && Promised(s, sub)
            && At(s.pushed, sub.taken) == Flatten(sub.handled) + sub.buffer
            && (!sub.cancelled ==> At(s.pushed, sub.taken) == Flatten(sub.handled))
  {
    hide Exec;
    EveryRunIsSafe(capacity, run);
    RunKeepsInv(capacity, run);
    RunKeepsLeftEmpty(capacity, run);
    var s := Exec(capacity, run).value;
    var sub := s.subs[i];
    assert SubOk(s, i);
    assert Flatten(sub.handled) + [] == Flatten(sub.handled);
  }

  lemma ExecStep(capacity: int, run: seq<Action>, s: State, a: Action)
    requires Exec(capacity, run) == Some(s) && Enabled(s, a)
    ensures Exec(capacity, run + [a]) == Some(Do(s, a))
  {
    assert (run + [a])[..|run|] == run;
  }

  /** A cancelled one can leave accepted events behind: here it leaves with e in its buffer and nothing handled. */
  lemma CancelledCanLeaveEvents(e: Event)
    ensures exists run: seq<Action> ::
              var s := Exec(1, run);
              && s.Some? && |s.value.subs| == 1 && s.value.subs[0].phase.Exiting?
              && s.value.subs[0].buffer == [e] && s.value.subs[0].handled == []
  {
    hide Exec, Do;
    var r0: seq<Action> := [];
    ExecNothing(1);
    StartOfExample(e);
    EndOfExample(e);
    ExecStep(1, r0, New(1), Subscribe);
    var r1 := r0 + [Subscribe];
    ExecStep(1, r1, Example(e, 1), PushBegin([e]));
    var r2 := r1 + [PushBegin([e])];
    ExecStep(1, r2, Example(e, 2), Send);
    var r3 := r2 + [Send];
    ExecStep(1, r3, Example(e, 3), NextEvent);
    var r4 := r3 + [NextEvent];
    ExecStep(1, r4, Example(e, 4), PushEnd);
    var r5 := r4 + [PushEnd];
    ExecStep(1, r5, Example(e, 5), Cancel(0));
    var r6 := r5 + [Cancel(0)];
    ExecStep(1, r6, Example(e, 6), SeeCancel(0));
    assert Exec(1, r6 + [SeeCancel(0)]) == Some(Example(e, 7));
  }

  /** The states of the run after n steps: subscribe, push e, send it, end the push, cancel, leave. */
  function Example(e: Event, n: nat): State
    requires 1 <= n <= 7
  {
    var buffer := if n >= 3 then [e] else [];
    var taken := if n >= 3 then [0] else [];
    var sub := Subscriber(buffer, true, if n == 7 then Exiting else Looping, n >= 6, [], [], 0, taken, false);
    var lock := match n
      case 2 => Some(Job(0, 1, 0))
      case 3 => Some(Job(0, 1, 1))
      case 4 => Some(Job(1, 1, 0))
      case _ => None;
    State(1, if n >= 2 then [e] else [], [sub], [0], false, lock, false)
  }

  lemma StartOfExample(e: Event)
    ensures Enabled(New(1), Subscribe) && Do(New(1), Subscribe) == Example(e, 1)
    ensures Enabled(Example(e, 1), PushBegin([e])) && Do(Example(e, 1), PushBegin([e])) == Example(e, 2)
    ensures Enabled(Example(e, 2), Send) && Do(Example(e, 2), Send) == Example(e, 3)
    ensures Enabled(Example(e, 3), NextEvent) && Do(Example(e, 3), NextEvent) == Example(e, 4)
  {
  }

  lemma EndOfExample(e: Event)
    ensures Enabled(Example(e, 4), PushEnd) && Do(Example(e, 4), PushEnd) == Example(e, 5)
    ensures Enabled(Example(e, 5), Cancel(0)) && Do(Example(e, 5), Cancel(0)) == Example(e, 6)
    ensures Enabled(Example(e, 6), SeeCancel(0)) && Do(Example(e, 6), SeeCancel(0)) == Example(e, 7)
  {
  }

  lemma ExecNothing(capacity: int)
    ensures Exec(capacity, []) == Some(New(capacity))
  {
  }

  // ---------------------------------------------------------------- states read off the actions

  /** The events of the pushes of a run, in order. */
  function Pushed(run: seq<Action>): seq<Event> {
    if |run| == 0 then [] else
      var a := run[|run| - 1];
      Pushed(run[..|run| - 1]) + if a.PushBegin? then a.events else []
  }

  function Subscriptions(run: seq<Action>): nat {
    if |run| == 0 then 0 else Subscriptions(run[..|run| - 1]) + if run[|run| - 1].Subscribe? then 1 else 0
  }

  /** The position of the action that created subscriber i. */
  function CreatedAt(run: seq<Action>, i: nat): (k: nat)
    requires i < Subscriptions(run)
    ensures k < |run| && run[k].Subscribe? && Subscriptions(run[..k]) == i
    decreases |run|
  {
    var n := |run| - 1;
    if i < Subscriptions(run[..n]) then
      var k := CreatedAt(run[..n], i);
      assert run[..n][..k] == run[..k];
      k
    else n
  }

  /** The number of events subscriber i has received. */
  function ReceivedBy(run: seq<Action>, i: nat): nat {
    if |run| == 0 then 0 else ReceivedBy(run[..|run| - 1], i) + if run[|run| - 1] == Receive(i) then 1 else 0
  }

  predicate Flushes(a: Action, i: nat) {
    a == Tick(i) || a == SeeCancel(i) || a == SeeClosed(i)
  }

  /** The number of events subscriber i had received when it last handed its batch over. */
  function HandedOver(run: seq<Action>, i: nat): nat {
    if |run| == 0 then 0
    else if Flushes(run[|run| - 1], i) then ReceivedBy(run, i)
    else HandedOver(run[..|run| - 1], i)
  }

  /** What the actions of a run say about subscriber i. */
  ghost predicate Reflects(run: seq<Action>, i: nat, sub: Subscriber)
    requires i < Subscriptions(run)
  {
    var k := CreatedAt(run, i);
    && sub.since == |Pushed(run[..k])|
    && (sub.open <==> Cleanup(i) !in run && Close !in run[k + 1..])
    && (sub.cancelled <==> Cancel(i) in run)
    && (sub.phase.Looping? <==> SeeCancel(i) !in run && SeeClosed(i) !in run)
    && |Flatten(sub.handled)| == HandedOver(run, i)
    && |Flatten(sub.handled)| + |sub.batch| == ReceivedBy(run, i)
    && (Drop !in run && PushAbort !in run ==> !sub.missed)
  }

  predicate OfSubscriber(a: Action) {
    a.Cancel? || a.Receive? || a.Tick? || a.SeeCancel? || a.SeeClosed? || a.Cleanup?
  }

  /** What the actions of a run say about the whole state. */
  ghost predicate Mirrors(run: seq<Action>, s: State) {
    && s.pushed == Pushed(run)
    && (s.closed <==> Close in run)
    && |s.subs| == Subscriptions(run)
    && (forall a :: a in run && OfSubscriber(a) ==> a.sub < |s.subs|)
    && forall i: nat :: i < |s.subs| ==> Reflects(run, i, s.subs[i])
  }

  /** What an action does to subscriber i. */
  ghost predicate Affects(a: Action, i: nat, sub: Subscriber, sub': Subscriber) {
    && sub'.since == sub.since
    && (sub'.open <==> sub.open && a != Cleanup(i) && a != Close)
    && (sub'.cancelled <==> sub.cancelled || a == Cancel(i))
    && (sub'.phase.Looping? <==> sub.phase.Looping? && a != SeeCancel(i) && a != SeeClosed(i))
    && |Flatten(sub'.handled)| == |Flatten(sub.handled)| + (if Flushes(a, i) then |sub.batch| else 0)
    && |sub'.batch| == (if Flushes(a, i) then 0 else |sub.batch|) + (if a == Receive(i) then 1 else 0)
    && (a != Drop && a != PushAbort ==> sub'.missed == sub.missed)
  }

  lemma EffectOnSubscriber(s: State, a: Action, i: nat)
    requires Inv(s) && Enabled(s, a) && i < |s.subs|
    ensures i < |Do(s, a).subs| && Affects(a, i, s.subs[i], Do(s, a).subs[i])
  {
    hide SubOk, At, Without, Flatten;
    if OfSubscriber(a) {
      if a.sub == i {
        EffectOfOwn(s, a);
      }
    } else {
      EffectOfShared(s, a, i);
    }
  }

  lemma EffectOfOwn(s: State, a: Action)
    requires Inv(s) && Enabled(s, a) && OfSubscriber(a) && a.sub < |s.subs|
    ensures a.sub < |Do(s, a).subs| && Affects(a, a.sub, s.subs[a.sub], Do(s, a).subs[a.sub])
  {
    hide SubOk, At, Without, Flatten;
    FlattenOneMore(s.subs[a.sub].handled, s.subs[a.sub].batch);
  }

  lemma EffectOfShared(s: State, a: Action, i: nat)
    requires Inv(s) && Enabled(s, a) && !OfSubscriber(a) && i < |s.subs|
    ensures i < |Do(s, a).subs| && Affects(a, i, s.subs[i], Do(s, a).subs[i])
  {
    hide SubOk, At, Without, Flatten;
    match a
    case Send =>
      assert s.subs[s.order[s.lock.value.next]].open;
    case _ =>
  }

  lemma FlattenOneMore(handled: seq<seq<Event>>, batch: seq<Event>)
    ensures |Flatten(handled + [batch])| == |Flatten(handled)| + |batch|
  {
    assert (handled + [batch])[..|handled|] == handled;
  }

  /** What one step does to the rest of the state. */
  lemma EffectOnRest(s: State, a: Action)
    requires Inv(s) && Enabled(s, a)
    ensures Do(s, a).pushed == s.pushed + if a.PushBegin? then a.events else []
    ensures Do(s, a).closed <==> s.closed || a == Close
    ensures |Do(s, a).subs| == |s.subs| + if a == Subscribe then 1 else 0
    ensures OfSubscriber(a) ==> a.sub < |s.subs|
    ensures a == Subscribe ==>
              Do(s, a).subs[|s.subs|] == Subscriber([], true, Looping, false, [], [], |s.pushed|, [], false)
  {
    hide SubOk, Flatten, At, Without;
  }

  lemma OneMoreAction(run: seq<Action>, a: Action)
    ensures Pushed(run + [a]) == Pushed(run) + if a.PushBegin? then a.events else []
    ensures Subscriptions(run + [a]) == Subscriptions(run) + if a == Subscribe then 1 else 0
    ensures forall x :: x in run + [a] <==> x in run || x == a
  {
    assert (run + [a])[..|run|] == run;
  }

  lemma OneMoreForSubscriber(run: seq<Action>, a: Action, i: nat)
    requires i < Subscriptions(run)
    ensures Subscriptions(run + [a]) >= Subscriptions(run) && CreatedAt(run + [a], i) == CreatedAt(run, i)
    ensures var k := CreatedAt(run, i);
            (run + [a])[..k] == run[..k] && (run + [a])[k + 1..] == run[k + 1..] + [a]
    ensures ReceivedBy(run + [a], i) == ReceivedBy(run, i) + if a == Receive(i) then 1 else 0
    ensures HandedOver(run + [a], i) == if Flushes(a, i) then ReceivedBy(run, i) else HandedOver(run, i)
  {
    assert (run + [a])[..|run|] == run;
  }

  lemma ReflectsStep(run: seq<Action>, s: State, a: Action, i: nat)
    requires Inv(s) && Enabled(s, a) && Mirrors(run, s) && i < |s.subs|
    ensures i < Subscriptions(run + [a]) && i < |Do(s, a).subs| && Reflects(run + [a], i, Do(s, a).subs[i])
  {
    hide Inv, Enabled, Do, Pushed, Flatten, ReceivedBy, HandedOver, CreatedAt, Subscriptions, Flushes;
    EffectOnSubscriber(s, a, i);
    OneMoreAction(run, a);
    OneMoreForSubscriber(run, a, i);
    assert Reflects(run, i, s.subs[i]);
    var k := CreatedAt(run, i);
    assert Close in run[k + 1..] + [a] <==> Close in run[k + 1..] || a == Close;
  }

  lemma {:induction false} NothingReceived(run: seq<Action>, i: nat)
    requires forall a :: a in run && OfSubscriber(a) ==> a.sub != i
    ensures ReceivedBy(run, i) == 0 && HandedOver(run, i) == 0
    decreases |run|
  {
    if |run| > 0 {
      var n := |run| - 1;
      assert forall a :: a in run[..n] ==> a in run;
      assert run[n] in run;
      NothingReceived(run[..n], i);
    }
  }

  lemma NewReflects(run: seq<Action>, s: State)
    requires Inv(s) && Enabled(s, Subscribe) && Mirrors(run, s)
    ensures var i := |s.subs|;
            i < Subscriptions(run + [Subscribe]) && Reflects(run + [Subscribe], i, Do(s, Subscribe).subs[i])
  {
    hide Inv, Enabled, Do, Pushed, Flatten, Reflects;
    var i, run' := |s.subs|, run + [Subscribe];
    EffectOnRest(s, Subscribe);
    OneMoreAction(run, Subscribe);
    assert run'[..|run|] == run;
    assert CreatedAt(run', i) == |run|;
    assert run'[|run| + 1..] == [];
    assert forall a :: a in run && OfSubscriber(a) ==> a.sub != i;
    NothingReceived(run', i);
    NewSubscriberReflects(run', i, Do(s, Subscribe).subs[i]);
  }

  lemma NewSubscriberReflects(run: seq<Action>, i: nat, sub: Subscriber)
    requires i < Subscriptions(run) && CreatedAt(run, i) == |run| - 1
    requires sub == Subscriber([], true, Looping, false, [], [], |Pushed(run[..|run| - 1])|, [], false)
    requires forall a :: a in run && OfSubscriber(a) ==> a.sub != i
    requires ReceivedBy(run, i) == 0 && HandedOver(run, i) == 0
    ensures Reflects(run, i, sub)
  {
    hide Pushed, ReceivedBy, HandedOver, CreatedAt;
    assert Close !in run[|run|..];
    assert !(Cleanup(i) in run) && !(Cancel(i) in run) && !(SeeCancel(i) in run) && !(SeeClosed(i) in run) by {
      assert OfSubscriber(Cleanup(i)) && OfSubscriber(Cancel(i));
      assert OfSubscriber(SeeCancel(i)) && OfSubscriber(SeeClosed(i));
    }
  }

  lemma StepMirrors(run: seq<Action>, s: State, a: Action)
    requires Inv(s) && Enabled(s, a) && Mirrors(run, s)
    ensures Mirrors(run + [a], Do(s, a))
  {
    EffectOnRest(s, a);
    OneMoreAction(run, a);
    var s', run' := Do(s, a), run + [a];
    forall i: nat | i < |s'.subs|
      ensures i < Subscriptions(run') && Reflects(run', i, s'.subs[i])
    {
      if i < |s.subs| {
        ReflectsStep(run, s, a, i);
      } else {
        NewReflects(run, s);
      }
    }
    hide Do, Inv, Enabled, Reflects, Pushed, Subscriptions;
    assert Mirrors(run', s');
  }

  /** Every state of an executable run is what its actions say. */
  lemma {:induction false} RunMirrors(capacity: int, run: seq<Action>)
    requires Exec(capacity, run).Some?
    ensures Mirrors(run, Exec(capacity, run).value)
    decreases |run|
  {
    hide Inv, Do, Enabled, Reflects, Mirrors;
    if |run| > 0 {
      var front := run[..|run| - 1];
      RunMirrors(capacity, front);
      RunKeepsInv(capacity, front);
      StepMirrors(front, Exec(capacity, front).value, run[|run| - 1]);
      assert run == front + [run[|run| - 1]];
    } else {
      NothingMirrors(capacity);
    }
  }

  lemma NothingMirrors(capacity: int)
    ensures Mirrors([], New(capacity))
  {
  }

  /** Every beginning of an executable run is executable, and its next action was enabled. */
  lemma {:induction false} PrefixRuns(capacity: int, run: seq<Action>, j: nat)
    requires Exec(capacity, run).Some? && j <= |run|
    ensures Exec(capacity, run[..j]).Some?
    ensures j < |run| ==> Enabled(Exec(capacity, run[..j]).value, run[j])
    ensures Exec(capacity, run[..j]).value.capacity == if capacity <= 0 then 16 else capacity
    decreases |run|
  {
    hide Enabled;
    if j < |run| {
      var front := run[..|run| - 1];
      PrefixRuns(capacity, front, j);
      assert front[..j] == run[..j];
    } else {
      assert run[..j] == run;
      if |run| > 0 {
        PrefixRuns(capacity, run[..|run| - 1], |run| - 1);
        assert run[..|run| - 1][..|run| - 1] == run[..|run| - 1];
        CapacityStays(Exec(capacity, run[..|run| - 1]).value, run[|run| - 1]);
      }
    }
  }

  lemma CapacityStays(s: State, a: Action)
    requires Enabled(s, a)
    ensures Do(s, a).capacity == s.capacity
  {
    hide Without;
  }

  /** After a Close there is no further push and no second Close, and the history stays as it was. */
  lemma {:induction false} CloseIsFinal(capacity: int, run: seq<Action>, k: nat)
    requires Exec(capacity, run).Some? && k < |run| && run[k].Close?
    ensures forall j :: k < j < |run| ==> !run[j].PushBegin? && !run[j].Close?
    ensures Exec(capacity, run).value.pushed == Pushed(run) == Pushed(run[..k])
  {
    hide Exec;
    forall j | k < j < |run|
      ensures !run[j].PushBegin? && !run[j].Close?
    {
      PrefixRuns(capacity, run, j);
      RunMirrors(capacity, run[..j]);
      assert run[..j][k] == Close;
    }
    RunMirrors(capacity, run);
    NoMorePushed(run, k);
  }

  lemma {:induction false} NoMorePushed(run: seq<Action>, k: nat)
    requires k <= |run| && forall j :: k <= j < |run| ==> !run[j].PushBegin?
    ensures Pushed(run) == Pushed(run[..k])
    decreases |run|
  {
    if k < |run| {
      var front := run[..|run| - 1];
      NoMorePushed(front, k);
      assert front[..k] == run[..k];
    } else {
      assert run[..k] == run;
    }
  }

  /**
   Every step of an executable run is sound: an event is sent only to an open channel with room and
   dropped only at an open channel that is full, and only open channels are closed.
   */
  lemma EveryStepIsSound(capacity: int, run: seq<Action>, j: nat)
    requires Exec(capacity, run).Some? && j < |run|
    ensures Exec(capacity, run[..j]).Some?
    ensures var s, room := Exec(capacity, run[..j]).value, if capacity <= 0 then 16 else capacity;
            && (run[j].Send? ==> Offering(s) && Target(s).open && |Target(s).buffer| < room)
            && (run[j].Drop? ==> Offering(s) && Target(s).open && |Target(s).buffer| == room)
            && (run[j].Close? ==> forall p :: 0 <= p < |s.order| ==> s.order[p] < |s.subs| && s.subs[s.order[p]].open)
            && (run[j].Cleanup? && run[j].sub in s.order ==> run[j].sub < |s.subs| && s.subs[run[j].sub].open)
  {
    hide Exec, At, Flatten, TakenOk;
    PrefixRuns(capacity, run, j);
    RunKeepsInv(capacity, run[..j]);
    var s := Exec(capacity, run[..j]).value;
    if run[j].Drop? {
      assert SubOk(s, s.order[s.lock.value.next]);
    }
  }

  /** A push under way can always go on, or be cut short: a slow or departed subscriber never blocks it. */
  lemma PushNeverBlocks(capacity: int, run: seq<Action>)
    requires Exec(capacity, run).Some? && Exec(capacity, run).value.lock.Some?
    ensures var s := Exec(capacity, run).value;
            && (Enabled(s, Send) || Enabled(s, Drop) || Enabled(s, NextEvent) || Enabled(s, PushEnd))
            && (s.lock.value.at < s.lock.value.end ==> Enabled(s, PushAbort))
  {
    hide Exec, SubOk;
    RunKeepsInv(capacity, run);
  }

  /**
   No subscriber is stuck: in its loop it can receive what is in its channel, hand over its batch, and
   see that it was cancelled or that its empty channel was closed; past its loop it can clean up as
   soon as no push is under way.
   */
  lemma SubscriberCanGoOn(capacity: int, run: seq<Action>, i: nat)
    requires Exec(capacity, run).Some? && i < |Exec(capacity, run).value.subs|
    ensures var s := Exec(capacity, run).value;
            var sub := s.subs[i];
            && Enabled(s, Cancel(i))
            && (sub.phase.Looping? && |sub.buffer| > 0 ==> Enabled(s, Receive(i)))
            && (sub.phase.Looping? && |sub.batch| > 0 ==> Enabled(s, Tick(i)))
            && (sub.phase.Looping? && Cancel(i) in run ==> Enabled(s, SeeCancel(i)))
            && (sub.phase.Looping? && !sub.open && |sub.buffer| == 0 ==> Enabled(s, SeeClosed(i)))
            && (sub.phase.Exiting? && s.lock.None? ==> Enabled(s, Cleanup(i)))
  {
    hide Exec, SubOk, Pushed, Subscriptions, CreatedAt, ReceivedBy, HandedOver, Flatten;
    RunKeepsInv(capacity, run);
    RunMirrors(capacity, run);
    assert Reflects(run, i, Exec(capacity, run).value.subs[i]);
  }

  /** Between pushes anyone can subscribe, and until the Close anyone can push or close. */
  lemma CallersCanGoOn(capacity: int, run: seq<Action>, es: seq<Event>)
    requires Exec(capacity, run).Some? && Exec(capacity, run).value.lock.None?
    ensures Enabled(Exec(capacity, run).value, Subscribe)
    ensures Close !in run ==>
              Enabled(Exec(capacity, run).value, Close) && Enabled(Exec(capacity, run).value, PushBegin(es))
  {
    hide Exec, SubOk, Reflects;
    RunKeepsInv(capacity, run);
    RunMirrors(capacity, run);
  }

  /**
   Without drops and aborted pushes, a subscriber that nobody has closed has been sent, between
   pushes, exactly the events of the pushes after its subscription; it has handled those received
   before it last handed a batch over.
   */
  lemma WithoutDropsAllArrives(capacity: int, run: seq<Action>, i: nat)
    requires Exec(capacity, run).Some? && Exec(capacity, run).value.lock.None? && i < Subscriptions(run)
    requires Drop !in run && PushAbort !in run && Cleanup(i) !in run && Close !in run[CreatedAt(run, i) + 1..]
    ensures var s := Exec(capacity, run).value;
            && i < |s.subs|
            && var sub, since := s.subs[i], |Pushed(run[..CreatedAt(run, i)])|;
               && since <= |Pushed(run)|
               && Pushed(run)[since..] == Flatten(sub.handled) + sub.batch + sub.buffer
               && |Flatten(sub.handled)| == HandedOver(run, i)
               && |Flatten(sub.handled) + sub.batch| == ReceivedBy(run, i)
  {
    hide Exec, Flatten, Pushed, HandedOver, ReceivedBy, CreatedAt, Subscriptions;
    RunMirrors(capacity, run);
    assert Reflects(run, i, Exec(capacity, run).value.subs[i]);
    NothingIsLost(capacity, run, i);
  }

  /** One that saw its channel closed without being cancelled has handled all it was sent, which is all it received. */
  lemma ClosedSubscriberHandledAll(capacity: int, run: seq<Action>, i: nat)
    requires Exec(capacity, run).Some? && SeeClosed(i) in run && Cancel(i) !in run
    ensures var s := Exec(capacity, run).value;
            && i < |s.subs| && Promised(s, s.subs[i])
            && At(s.pushed, s.subs[i].taken) == Flatten(s.subs[i].handled)
            && |Flatten(s.subs[i].handled)| == ReceivedBy(run, i)
  {
    hide Exec, Flatten, Pushed, HandedOver, ReceivedBy, CreatedAt, Subscriptions, At, Promised;
    RunMirrors(capacity, run);
    assert OfSubscriber(SeeClosed(i));
    var s := Exec(capacity, run).value;
    assert Reflects(run, i, s.subs[i]);
    LeaversHandledAll(capacity, run, i);
    RunKeepsInv(capacity, run);
    assert SubOk(s, i);
  }
}
