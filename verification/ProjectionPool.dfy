/**
 The worker pool that runs projections after a sync (runProjectionsAfterSync in
 synckit/manager.go) as a state machine.

 Every call starts one goroutine per runner.  A goroutine takes a slot of the pool, which all
 calls of the manager share, runs its projection, reports on one of the call's two channels
 and gives its slot back; or it reports an error when the call's context is done while it
 waits.  The call collects reports until it has them all or the context is done, so workers of
 an earlier call may still be running when the next call starts.
 */
module ProjectionPool {
  import opened Basics

  datatype Worker =
    | Waiting
    | Running             // holds a slot
    | Reported(ok: bool)  // has reported and still holds its slot
    | Done(ok: bool)

  datatype Status = Collecting | Returned(isNil: bool)

  /** `okChan` and `errChan` count the reports in the channels, `okSeen` and `errSeen` those received. */
  datatype Call = Call(
    workers: seq<Worker>, okChan: nat, errChan: nat, okSeen: nat, errSeen: nat,
    ctxDone: bool, timedOut: bool, status: Status)

  datatype State = State(maxWorkers: nat, slots: nat, calls: seq<Call>)

  datatype Action =
    | Start(runners: nat)
    | Expire(call: nat)
    | Acquire(call: nat, worker: nat)
    | GiveUp(call: nat, worker: nat)
    | Finish(call: nat, worker: nat, ok: bool)
    | Release(call: nat, worker: nat)
    | CollectOk(call: nat)
    | CollectErr(call: nat)
    | SeeTimeout(call: nat)
    | Return(call: nat)

  predicate HasWorker(s: State, c: nat, w: nat) {
    c < |s.calls| && w < |s.calls[c].workers|
  }

  predicate CollectingMore(s: State, c: nat) {
    c < |s.calls| && s.calls[c].status.Collecting? && s.calls[c].okSeen + s.calls[c].errSeen < |s.calls[c].workers|
  }

  /** Both channels have room for one report of every runner; a full channel would block the worker. */
  predicate Enabled(s: State, a: Action) {
    match a
    case Start(n) => true
    case Expire(c) => c < |s.calls| && !s.calls[c].ctxDone
    case Acquire(c, w) => HasWorker(s, c, w) && s.calls[c].workers[w].Waiting? && s.slots < s.maxWorkers
    case GiveUp(c, w) =>
      && HasWorker(s, c, w) && s.calls[c].workers[w].Waiting?
      && s.calls[c].ctxDone && s.calls[c].errChan < |s.calls[c].workers|
    case Finish(c, w, ok) =>
      HasWorker(s, c, w) && s.calls[c].workers[w].Running? &&
      (if ok then s.calls[c].okChan else s.calls[c].errChan) < |s.calls[c].workers|
    case Release(c, w) => HasWorker(s, c, w) && s.calls[c].workers[w].Reported? && s.slots > 0
    case CollectOk(c) => CollectingMore(s, c) && s.calls[c].okChan > 0
    case CollectErr(c) => CollectingMore(s, c) && s.calls[c].errChan > 0
    case SeeTimeout(c) => CollectingMore(s, c) && s.calls[c].ctxDone
    case Return(c) => c < |s.calls| && s.calls[c].status.Collecting? && !CollectingMore(s, c)
  }

  function SetWorker(call: Call, w: nat, worker: Worker): Call
    requires w < |call.workers|
  {
    call.(workers := call.workers[w := worker])
  }

  function Do(s: State, a: Action): State
    requires Enabled(s, a)
  {
    match a
    case Start(n) => s.(calls := s.calls + [Call(seq(n, _ => Waiting), 0, 0, 0, 0, false, false, Collecting)])
    case Expire(c) => s.(calls := s.calls[c := s.calls[c].(ctxDone := true)])
    case Acquire(c, w) => s.(slots := s.slots + 1, calls := s.calls[c := SetWorker(s.calls[c], w, Running)])
    case GiveUp(c, w) =>
      var call := SetWorker(s.calls[c], w, Done(false));
      s.(calls := s.calls[c := call.(errChan := call.errChan + 1)])
    case Finish(c, w, ok) =>
      var call := SetWorker(s.calls[c], w, Reported(ok));
      s.(calls := s.calls[c := if ok then call.(okChan := call.okChan + 1) else call.(errChan := call.errChan + 1)])
    case Release(c, w) =>
      s.(slots := s.slots - 1, calls := s.calls[c := SetWorker(s.calls[c], w, Done(s.calls[c].workers[w].ok))])
    case CollectOk(c) =>
      var call := s.calls[c];
      s.(calls := s.calls[c := call.(okChan := call.okChan - 1, okSeen := call.okSeen + 1)])
    case CollectErr(c) =>
      var call := s.calls[c];
      s.(calls := s.calls[c := call.(errChan := call.errChan - 1, errSeen := call.errSeen + 1)])
    case SeeTimeout(c) =>
      s.(calls := s.calls[c := s.calls[c].(timedOut := true, ctxDone := true, status := Returned(false))])
    case Return(c) =>
      s.(calls := s.calls[c := s.calls[c].(ctxDone := true, status := Returned(s.calls[c].errSeen == 0))])
  }

  function Exec(maxWorkers: nat, run: seq<Action>): Option<State> {
    if |run| == 0 then Some(State(maxWorkers, 0, [])) else
      var s := Exec(maxWorkers, run[..|run| - 1]);
      if s.Some? && Enabled(s.value, run[|run| - 1]) then Some(Do(s.value, run[|run| - 1])) else None
  }

  // ---------------------------------------------------------------- counting workers

  datatype Kind = Holding | SaidOk | SaidErr

  predicate Is(w: Worker, kind: Kind) {
    match kind
    case Holding => w.Running? || w.Reported?
    case SaidOk => (w.Reported? || w.Done?) && w.ok
    case SaidErr => (w.Reported? || w.Done?) && !w.ok
  }

  function One(w: Worker, kind: Kind): nat {
    if Is(w, kind) then 1 else 0
  }

  function Count(ws: seq<Worker>, kind: Kind): nat {
    if |ws| == 0 then 0 else One(ws[0], kind) + Count(ws[1..], kind)
  }

  /** The workers of all calls that hold a slot. */
  function HoldingIn(calls: seq<Call>): nat {
    if |calls| == 0 then 0 else Count(calls[0].workers, Holding) + HoldingIn(calls[1..])
  }

  lemma {:induction false} CountUpdate(ws: seq<Worker>, i: nat, w: Worker, kind: Kind)
    requires i < |ws|
    ensures Count(ws[i := w], kind) + One(ws[i], kind) == Count(ws, kind) + One(w, kind)
  {
    if i == 0 {
      assert ws[i := w][1..] == ws[1..];
    } else {
      assert ws[i := w][1..] == ws[1..][i - 1 := w];
      CountUpdate(ws[1..], i - 1, w, kind);
    }
  }

  lemma {:induction false} HoldingUpdate(calls: seq<Call>, c: nat, call: Call)
    requires c < |calls|
    ensures HoldingIn(calls[c := call]) + Count(calls[c].workers, Holding) ==
            HoldingIn(calls) + Count(call.workers, Holding)
  {
    if c == 0 {
      assert calls[c := call][1..] == calls[1..];
    } else {
      assert calls[c := call][1..] == calls[1..][c - 1 := call];
      HoldingUpdate(calls[1..], c - 1, call);
    }
  }

  lemma {:induction false} HoldingAppend(calls: seq<Call>, call: Call)
    ensures HoldingIn(calls + [call]) == HoldingIn(calls) + Count(call.workers, Holding)
  {
    if |calls| == 0 {
      assert calls + [call] == [call];
    } else {
      assert (calls + [call])[1..] == calls[1..] + [call];
      HoldingAppend(calls[1..], call);
    }
  }

  lemma {:induction false} CountNone(ws: seq<Worker>, kind: Kind)
    requires forall i :: 0 <= i < |ws| ==> !Is(ws[i], kind)
    ensures Count(ws, kind) == 0
  {
    if |ws| > 0 {
      CountNone(ws[1..], kind);
    }
  }

  /** At most every worker has reported, and all have exactly when the counts add up. */
  lemma {:induction false} CountReports(ws: seq<Worker>)
    ensures Count(ws, SaidOk) + Count(ws, SaidErr) <= |ws|
    ensures (exists i :: 0 <= i < |ws| && !Is(ws[i], SaidOk) && !Is(ws[i], SaidErr)) <==>
            Count(ws, SaidOk) + Count(ws, SaidErr) < |ws|
    ensures Count(ws, SaidOk) == |ws| <==> forall i :: 0 <= i < |ws| ==> Is(ws[i], SaidOk)
  {
    if |ws| > 0 {
      CountReports(ws[1..]);
      assert forall i :: 0 < i < |ws| ==> ws[i] == ws[1..][i - 1];
      if Count(ws[1..], SaidOk) + Count(ws[1..], SaidErr) < |ws[1..]| {
        var j :| 0 <= j < |ws[1..]| && !Is(ws[1..][j], SaidOk) && !Is(ws[1..][j], SaidErr);
        assert ws[j + 1] == ws[1..][j];
      }
      if Count(ws, SaidOk) < |ws| && Is(ws[0], SaidOk) {
        var j :| 0 <= j < |ws[1..]| && !Is(ws[1..][j], SaidOk);
        assert ws[j + 1] == ws[1..][j];
      }
    }
  }

  lemma {:induction false} SomeoneHolds(calls: seq<Call>) returns (c: nat, w: nat)
    requires HoldingIn(calls) > 0
    ensures c < |calls| && w < |calls[c].workers| && Is(calls[c].workers[w], Holding)
  {
    if Count(calls[0].workers, Holding) > 0 {
      c := 0;
      if forall i :: 0 <= i < |calls[0].workers| ==> !Is(calls[0].workers[i], Holding) {
        CountNone(calls[0].workers, Holding);
      }
      w :| 0 <= w < |calls[0].workers| && Is(calls[0].workers[w], Holding);
    } else {
      c, w := SomeoneHolds(calls[1..]);
      c := c + 1;
    }
  }

  // ---------------------------------------------------------------- the invariant

  /** Every report is in a channel or was received, and the result of the call fits what was received. */
  ghost predicate CallOk(call: Call) {
    && call.okChan + call.okSeen == Count(call.workers, SaidOk)
    && call.errChan + call.errSeen == Count(call.workers, SaidErr)
    && (call.status.Collecting? ==> !call.timedOut)
    && (call.status.Returned? && !call.timedOut ==> call.okSeen + call.errSeen == |call.workers|)
    && (call.status.Returned? ==> (call.status.isNil <==> call.errSeen == 0 && !call.timedOut))
    && (call.timedOut ==> call.ctxDone)
  }

  ghost predicate Inv(s: State) {
    && s.slots == HoldingIn(s.calls) <= s.maxWorkers
    && forall c :: 0 <= c < |s.calls| ==> CallOk(s.calls[c])
  }

  lemma SetWorkerCounts(call: Call, w: nat, worker: Worker)
    requires w < |call.workers|
    ensures forall k: Kind :: Count(SetWorker(call, w, worker).workers, k) + One(call.workers[w], k) ==
                              Count(call.workers, k) + One(worker, k)
  {
    forall k: Kind
      ensures Count(SetWorker(call, w, worker).workers, k) + One(call.workers[w], k) ==
              Count(call.workers, k) + One(worker, k)
    {
      CountUpdate(call.workers, w, worker, k);
    }
  }

  /** A step on one call that changes its slots by as much as the pool's. */
  lemma CallStep(s: State, s': State, c: nat)
    requires Inv(s) && c < |s.calls| && |s'.calls| == |s.calls|
    requires s'.maxWorkers == s.maxWorkers && s'.calls == s.calls[c := s'.calls[c]]
    requires CallOk(s'.calls[c])
    requires s'.slots + Count(s.calls[c].workers, Holding) == s.slots + Count(s'.calls[c].workers, Holding)
    requires s'.slots <= s'.maxWorkers
    ensures Inv(s')
  {
    HoldingUpdate(s.calls, c, s'.calls[c]);
  }

  lemma WorkerStep(s: State, a: Action)
    requires Inv(s) && Enabled(s, a) && (a.Acquire? || a.GiveUp? || a.Finish? || a.Release?)
    ensures Inv(Do(s, a))
  {
    hide Count;
    var s' := Do(s, a);
    var c, w := a.call, a.worker;
    SetWorkerCounts(s.calls[c], w, s'.calls[c].workers[w]);
    CallStep(s, s', c);
  }

  lemma CollectorStep(s: State, a: Action)
    requires Inv(s) && Enabled(s, a)
    requires a.Expire? || a.CollectOk? || a.CollectErr? || a.SeeTimeout? || a.Return?
    ensures Inv(Do(s, a))
  {
    hide Count;
    CountReports(s.calls[a.call].workers);
    CallStep(s, Do(s, a), a.call);
  }

  lemma StartStep(s: State, n: nat)
    requires Inv(s)
    ensures Inv(Do(s, Start(n)))
  {
    var s' := Do(s, Start(n));
    var call := s'.calls[|s.calls|];
    CountNone(call.workers, Holding);
    CountNone(call.workers, SaidOk);
    CountNone(call.workers, SaidErr);
    HoldingAppend(s.calls, call);
  }

  lemma StepKeepsInv(s: State, a: Action)
    requires Inv(s) && Enabled(s, a)
    ensures Inv(Do(s, a))
  {
    hide Inv, Do;
    match a
    case Start(n) => StartStep(s, n);
    case Acquire(_, _) => WorkerStep(s, a);
    case GiveUp(_, _) => WorkerStep(s, a);
    case Finish(_, _, _) => WorkerStep(s, a);
    case Release(_, _) => WorkerStep(s, a);
    case Expire(_) => CollectorStep(s, a);
    case CollectOk(_) => CollectorStep(s, a);
    case CollectErr(_) => CollectorStep(s, a);
    case SeeTimeout(_) => CollectorStep(s, a);
    case Return(_) => CollectorStep(s, a);
  }

  // ---------------------------------------------------------------- main results

  /** In every interleaving, the occupied slots are those of the running workers, at most MaxWorkers. */
  lemma {:induction false} EveryRunKeepsInv(maxWorkers: nat, run: seq<Action>)
    requires Exec(maxWorkers, run).Some?
    ensures var s := Exec(maxWorkers, run).value;
            Inv(s) && s.maxWorkers == maxWorkers && s.slots == HoldingIn(s.calls) <= maxWorkers
    decreases |run|
  {
    if |run| > 0 {
      EveryRunKeepsInv(maxWorkers, run[..|run| - 1]);
      StepKeepsInv(Exec(maxWorkers, run[..|run| - 1]).value, run[|run| - 1]);
    }
  }

  /** No worker ever blocks on reporting: until it has reported, both channels have room. */
  lemma ReportingNeverBlocks(maxWorkers: nat, run: seq<Action>, c: nat, w: nat)
    requires Exec(maxWorkers, run).Some? && HasWorker(Exec(maxWorkers, run).value, c, w)
    ensures var s := Exec(maxWorkers, run).value;
            && (s.calls[c].workers[w].Running? ==> forall ok :: Enabled(s, Finish(c, w, ok)))
            && (s.calls[c].workers[w].Waiting? && s.calls[c].ctxDone ==> Enabled(s, GiveUp(c, w)))
            && (s.calls[c].workers[w].Reported? ==> Enabled(s, Release(c, w)))
  {
    hide Exec;
    EveryRunKeepsInv(maxWorkers, run);
    InvNeverBlocks(Exec(maxWorkers, run).value, c, w);
  }

  lemma InvNeverBlocks(s: State, c: nat, w: nat)
    requires Inv(s) && HasWorker(s, c, w)
    ensures s.calls[c].workers[w].Running? ==> forall ok :: Enabled(s, Finish(c, w, ok))
    ensures s.calls[c].workers[w].Waiting? && s.calls[c].ctxDone ==> Enabled(s, GiveUp(c, w))
    ensures s.calls[c].workers[w].Reported? ==> Enabled(s, Release(c, w))
  {
    hide Count, HoldingIn;
    var call := s.calls[c];
    CountReports(call.workers);
    if call.workers[w].Running? || call.workers[w].Waiting? {
      assert !Is(call.workers[w], SaidOk) && !Is(call.workers[w], SaidErr);
    }
    if call.workers[w].Reported? {
      CountUpdate(call.workers, w, Waiting, Holding);
      HoldingUpdate(s.calls, c, SetWorker(call, w, Waiting));
    }
  }

  /** A returned call gave nil exactly when every runner reported success and it did not stop on the timeout. */
  lemma ReturnFitsReports(maxWorkers: nat, run: seq<Action>, c: nat)
    requires Exec(maxWorkers, run).Some?
    requires c < |Exec(maxWorkers, run).value.calls| && Exec(maxWorkers, run).value.calls[c].status.Returned?
    ensures var call := Exec(maxWorkers, run).value.calls[c];
            call.status.isNil <==>
            !call.timedOut && forall w :: 0 <= w < |call.workers| ==> Is(call.workers[w], SaidOk)
  {
    hide Exec, Count;
    EveryRunKeepsInv(maxWorkers, run);
    CountReports(Exec(maxWorkers, run).value.calls[c].workers);
  }

  /** Until the context of a call expires, it is done only because the call has returned. */
  lemma {:induction false} WithoutExpiry(maxWorkers: nat, run: seq<Action>, c: nat)
    requires Exec(maxWorkers, run).Some? && c < |Exec(maxWorkers, run).value.calls|
    requires forall k :: 0 <= k < |run| ==> run[k] != Expire(c)
    ensures var call := Exec(maxWorkers, run).value.calls[c];
            !call.timedOut && (call.ctxDone ==> call.status.Returned?)
    decreases |run|
  {
    if |run| > 0 {
      var front, a := run[..|run| - 1], run[|run| - 1];
      var s := Exec(maxWorkers, front).value;
      if c < |s.calls| {
        assert forall k :: 0 <= k < |front| ==> front[k] == run[k];
        WithoutExpiry(maxWorkers, front, c);
        hide Exec;
        UnexpiredStep(s, a, c);
      }
    }
  }

  lemma UnexpiredStep(s: State, a: Action, c: nat)
    requires Enabled(s, a) && a != Expire(c) && c < |s.calls|
    requires !s.calls[c].timedOut && (s.calls[c].ctxDone ==> s.calls[c].status.Returned?)
    ensures c < |Do(s, a).calls|
    ensures var call := Do(s, a).calls[c];
            !call.timedOut && (call.ctxDone ==> call.status.Returned?)
  {
  }

  /** If the context of a call never expires, the call returns nil exactly when every runner reported success. */
  lemma UnexpiredReturnFitsReports(maxWorkers: nat, run: seq<Action>, c: nat)
    requires Exec(maxWorkers, run).Some?
    requires c < |Exec(maxWorkers, run).value.calls| && Exec(maxWorkers, run).value.calls[c].status.Returned?
    requires forall k :: 0 <= k < |run| ==> run[k] != Expire(c)
    ensures var call := Exec(maxWorkers, run).value.calls[c];
            call.status.isNil <==> forall w :: 0 <= w < |call.workers| ==> Is(call.workers[w], SaidOk)
  {
    hide Exec;
    WithoutExpiry(maxWorkers, run, c);
    ReturnFitsReports(maxWorkers, run, c);
  }

  /** The timeout matters: here the only runner reports success, and the call still returns an error. */
  lemma TimeoutCanHideSuccess()
    ensures exists run: seq<Action> ::
              var s := Exec(1, run);
              && s.Some? && |s.value.calls| == 1 && s.value.calls[0].status == Returned(false)
              && s.value.calls[0].workers == [Done(true)]
  {
    hide Exec;
    var s0 := State(1, 0, []);
    ExecNothing(1);
    var s1 := Do(s0, Start(1));
    ExecStep(1, [], s0, Start(1));
    var s2 := Do(s1, Acquire(0, 0));
    ExecStep(1, [] + [Start(1)], s1, Acquire(0, 0));
    var s3 := Do(s2, Finish(0, 0, true));
    ExecStep(1, [] + [Start(1)] + [Acquire(0, 0)], s2, Finish(0, 0, true));
    var s4 := Do(s3, Release(0, 0));
    ExecStep(1, [] + [Start(1)] + [Acquire(0, 0)] + [Finish(0, 0, true)], s3, Release(0, 0));
    var s5 := Do(s4, Expire(0));
    var r4 := [] + [Start(1)] + [Acquire(0, 0)] + [Finish(0, 0, true)] + [Release(0, 0)];
    ExecStep(1, r4, s4, Expire(0));
    ExecStep(1, r4 + [Expire(0)], s5, SeeTimeout(0));
    assert Exec(1, r4 + [Expire(0)] + [SeeTimeout(0)]).value.calls[0].workers == [Done(true)];
  }

  lemma ExecNothing(maxWorkers: nat)
    ensures Exec(maxWorkers, []) == Some(State(maxWorkers, 0, []))
  {
  }

  lemma ExecStep(maxWorkers: nat, run: seq<Action>, s: State, a: Action)
    requires Exec(maxWorkers, run) == Some(s) && Enabled(s, a)
    ensures Exec(maxWorkers, run + [a]) == Some(Do(s, a))
  {
    assert (run + [a])[..|run|] == run;
  }

  // ---------------------------------------------------------------- progress

  function WorkerSteps(w: Worker): nat {
    match w
    case Waiting => 3
    case Running => 2
    case Reported(_) => 1
    case Done(_) => 0
  }

  function StepsOf(ws: seq<Worker>): nat {
    if |ws| == 0 then 0 else WorkerSteps(ws[0]) + StepsOf(ws[1..])
  }

  /** An upper bound for the steps left in a call. */
  function CallSteps(call: Call): int {
    StepsOf(call.workers) + (if call.ctxDone then 0 else 1) +
    (if call.status.Collecting? then 1 + |call.workers| - call.okSeen - call.errSeen else 0)
  }

  function Steps(calls: seq<Call>): int {
    if |calls| == 0 then 0 else CallSteps(calls[0]) + Steps(calls[1..])
  }

  lemma {:induction false} StepsUpdate(calls: seq<Call>, c: nat, call: Call)
    requires c < |calls|
    ensures Steps(calls[c := call]) + CallSteps(calls[c]) == Steps(calls) + CallSteps(call)
  {
    if c == 0 {
      assert calls[c := call][1..] == calls[1..];
    } else {
      assert calls[c := call][1..] == calls[1..][c - 1 := call];
      StepsUpdate(calls[1..], c - 1, call);
    }
  }

  lemma {:induction false} StepsOfUpdate(ws: seq<Worker>, i: nat, w: Worker)
    requires i < |ws|
    ensures StepsOf(ws[i := w]) + WorkerSteps(ws[i]) == StepsOf(ws) + WorkerSteps(w)
  {
    if i == 0 {
      assert ws[i := w][1..] == ws[1..];
    } else {
      assert ws[i := w][1..] == ws[1..][i - 1 := w];
      StepsOfUpdate(ws[1..], i - 1, w);
    }
  }

  lemma {:induction false} StepsNotNegative(calls: seq<Call>)
    requires forall c :: 0 <= c < |calls| ==> CallOk(calls[c])
    ensures Steps(calls) >= 0
  {
    if |calls| > 0 {
      CountReports(calls[0].workers);
      StepsNotNegative(calls[1..]);
    }
  }

  /** Every step other than a new call brings the pool closer to rest, so it comes to rest. */
  lemma EveryStepProgresses(s: State, a: Action)
    requires Inv(s) && Enabled(s, a) && !a.Start?
    ensures 0 <= Steps(Do(s, a).calls) < Steps(s.calls)
  {
    hide Count, HoldingIn, Steps, StepsOf;
    var s' := Do(s, a);
    var c := a.call;
    CountReports(s.calls[c].workers);
    StepsUpdate(s.calls, c, s'.calls[c]);
    if a.Acquire? || a.GiveUp? || a.Finish? || a.Release? {
      StepsOfUpdate(s.calls[c].workers, a.worker, s'.calls[c].workers[a.worker]);
    }
    StepKeepsInv(s, a);
    StepsNotNegative(s'.calls);
  }

  /** At rest nothing can happen any more, except that a context is done or a call starts. */
  ghost predicate AtRest(s: State) {
    forall a: Action :: Enabled(s, a) ==> a.Start? || a.Expire?
  }

  /** A pool at rest, with at least one slot, has given back every slot, and every call has returned. */
  lemma RestMeansDone(s: State)
    requires Inv(s) && s.maxWorkers > 0 && AtRest(s)
    ensures s.slots == 0
    ensures forall c :: 0 <= c < |s.calls| ==> s.calls[c].status.Returned?
    ensures forall c, w :: 0 <= c < |s.calls| && 0 <= w < |s.calls[c].workers| ==> s.calls[c].workers[w].Done?
  {
    hide Count, HoldingIn;
    if s.slots > 0 {
      var c, w := SomeoneHolds(s.calls);
      assert !Enabled(s, Finish(c, w, true)) && !Enabled(s, Release(c, w));
      InvNeverBlocks(s, c, w);
    }
    forall c, w | 0 <= c < |s.calls| && 0 <= w < |s.calls[c].workers|
      ensures s.calls[c].workers[w].Done?
    {
      assert !Enabled(s, Finish(c, w, true)) && !Enabled(s, Release(c, w)) && !Enabled(s, Acquire(c, w));
      InvNeverBlocks(s, c, w);
    }
    forall c | 0 <= c < |s.calls|
      ensures s.calls[c].status.Returned?
    {
      CountReports(s.calls[c].workers);
      assert !Enabled(s, CollectOk(c)) && !Enabled(s, CollectErr(c)) && !Enabled(s, Return(c));
    }
  }

  // ---------------------------------------------------------------- states read off the actions

  function Starts(run: seq<Action>): nat {
    if |run| == 0 then 0 else Starts(run[..|run| - 1]) + if run[|run| - 1].Start? then 1 else 0
  }

  /** The number of runners of call c. */
  function RunnersOf(run: seq<Action>, c: nat): nat
    requires c < Starts(run)
    decreases |run|
  {
    var n := |run| - 1;
    if c < Starts(run[..n]) then RunnersOf(run[..n], c) else run[n].runners
  }

  function Acquisitions(run: seq<Action>): nat {
    if |run| == 0 then 0 else Acquisitions(run[..|run| - 1]) + if run[|run| - 1].Acquire? then 1 else 0
  }

  function Releases(run: seq<Action>): nat {
    if |run| == 0 then 0 else Releases(run[..|run| - 1]) + if run[|run| - 1].Release? then 1 else 0
  }

  /** What the actions of a run say about worker w of call c. */
  ghost predicate WorkerFollows(run: seq<Action>, c: nat, w: nat, worker: Worker) {
    && (worker.Waiting? <==> Acquire(c, w) !in run && GiveUp(c, w) !in run)
    && (Is(worker, SaidOk) <==> Finish(c, w, true) in run)
    && (Is(worker, SaidErr) <==> Finish(c, w, false) in run || GiveUp(c, w) in run)
    && (worker.Done? <==> Release(c, w) in run || GiveUp(c, w) in run)
  }

  /** What they say about call c. */
  ghost predicate CallFollows(run: seq<Action>, c: nat, call: Call)
    requires c < Starts(run)
  {
    && |call.workers| == RunnersOf(run, c)
    && (call.timedOut <==> SeeTimeout(c) in run)
    && (call.status.Returned? <==> SeeTimeout(c) in run || Return(c) in run)
    && (call.ctxDone <==> Expire(c) in run || SeeTimeout(c) in run || Return(c) in run)
    && forall w :: 0 <= w < |call.workers| ==> WorkerFollows(run, c, w, call.workers[w])
  }

  ghost predicate Mirrors(run: seq<Action>, s: State) {
    && |s.calls| == Starts(run) && s.slots + Releases(run) == Acquisitions(run)
    && (forall a :: a in run && !a.Start? ==> a.call < |s.calls|)
    && forall c :: 0 <= c < |s.calls| ==> CallFollows(run, c, s.calls[c])
  }

  lemma OneMoreAction(run: seq<Action>, a: Action)
    ensures Starts(run + [a]) == Starts(run) + if a.Start? then 1 else 0
    ensures Acquisitions(run + [a]) == Acquisitions(run) + if a.Acquire? then 1 else 0
    ensures Releases(run + [a]) == Releases(run) + if a.Release? then 1 else 0
    ensures forall c: nat :: c < Starts(run) ==> RunnersOf(run + [a], c) == RunnersOf(run, c)
    ensures a.Start? ==> RunnersOf(run + [a], Starts(run)) == a.runners
    ensures forall x :: x in run + [a] <==> x in run || x == a
  {
    assert (run + [a])[..|run|] == run;
  }

  /** What an action does to the worker it names, and to no other. */
  lemma EffectOnWorker(s: State, a: Action, c: nat, w: nat)
    requires Enabled(s, a) && c < |s.calls| && w < |s.calls[c].workers|
    ensures c < |Do(s, a).calls| && w < |Do(s, a).calls[c].workers|
    ensures var before, after := s.calls[c].workers[w], Do(s, a).calls[c].workers[w];
            && (a == Acquire(c, w) ==> before == Waiting && after == Running)
            && (a == GiveUp(c, w) ==> before == Waiting && after == Done(false))
            && (a == Finish(c, w, true) ==> before == Running && after == Reported(true))
            && (a == Finish(c, w, false) ==> before == Running && after == Reported(false))
            && (a == Release(c, w) ==> before.Reported? && after == Done(before.ok))
            && (!Names(a, c, w) ==> after == before)
  {
  }

  predicate Names(a: Action, c: nat, w: nat) {
    (a.Acquire? || a.GiveUp? || a.Finish? || a.Release?) && a.call == c && a.worker == w
  }

  lemma WorkerFollowsStep(run: seq<Action>, s: State, a: Action, c: nat, w: nat)
    requires Enabled(s, a) && c < |s.calls| && w < |s.calls[c].workers|
    requires WorkerFollows(run, c, w, s.calls[c].workers[w])
    ensures c < |Do(s, a).calls| && w < |Do(s, a).calls[c].workers|
    ensures WorkerFollows(run + [a], c, w, Do(s, a).calls[c].workers[w])
  {
    EffectOnWorker(s, a, c, w);
    hide Do, Enabled;
    assert forall x :: x in run + [a] <==> x in run || x == a;
  }

  lemma CallFollowsStep(run: seq<Action>, s: State, a: Action, c: nat)
    requires Enabled(s, a) && c < |s.calls| == Starts(run) && CallFollows(run, c, s.calls[c])
    ensures c < |Do(s, a).calls| && c < Starts(run + [a]) && CallFollows(run + [a], c, Do(s, a).calls[c])
  {
    hide RunnersOf, Starts;
    OneMoreAction(run, a);
    assert |Do(s, a).calls[c].workers| == |s.calls[c].workers|;
    forall w | 0 <= w < |s.calls[c].workers|
      ensures WorkerFollows(run + [a], c, w, Do(s, a).calls[c].workers[w])
    {
      WorkerFollowsStep(run, s, a, c, w);
    }
    hide WorkerFollows;
  }

  lemma NewCallFollows(run: seq<Action>, s: State, n: nat)
    requires Mirrors(run, s)
    ensures var c, s' := |s.calls|, Do(s, Start(n));
            c < Starts(run + [Start(n)]) && CallFollows(run + [Start(n)], c, s'.calls[c])
  {
    hide CallFollows, Acquisitions, Releases, RunnersOf;
    OneMoreAction(run, Start(n));
    var c, run' := |s.calls|, run + [Start(n)];
    assert forall a :: a in run' && !a.Start? ==> a.call != c;
    NewCall(run', c, Do(s, Start(n)).calls[c]);
  }

  lemma NewCall(run: seq<Action>, c: nat, call: Call)
    requires c < Starts(run) && forall a :: a in run && !a.Start? ==> a.call != c
    requires call == Call(seq(RunnersOf(run, c), _ => Waiting), 0, 0, 0, 0, false, false, Collecting)
    ensures CallFollows(run, c, call)
  {
    hide RunnersOf, Starts;
    assert SeeTimeout(c) !in run && Return(c) !in run && Expire(c) !in run;
    forall w | 0 <= w < |call.workers|
      ensures WorkerFollows(run, c, w, call.workers[w])
    {
      assert Acquire(c, w) !in run && GiveUp(c, w) !in run && Release(c, w) !in run;
      assert Finish(c, w, true) !in run && Finish(c, w, false) !in run;
    }
  }

  lemma StepMirrors(run: seq<Action>, s: State, a: Action)
    requires Enabled(s, a) && Mirrors(run, s)
    ensures Mirrors(run + [a], Do(s, a))
  {
    hide Do, Enabled, CallFollows, Starts, RunnersOf, Acquisitions, Releases;
    OneMoreAction(run, a);
    EffectOnPool(s, a);
    var s', run' := Do(s, a), run + [a];
    forall c | 0 <= c < |s'.calls|
      ensures c < Starts(run') && CallFollows(run', c, s'.calls[c])
    {
      if c < |s.calls| {
        CallFollowsStep(run, s, a, c);
      } else {
        NewCallFollows(run, s, a.runners);
      }
    }
  }

  lemma EffectOnPool(s: State, a: Action)
    requires Enabled(s, a)
    ensures |Do(s, a).calls| == |s.calls| + if a.Start? then 1 else 0
    ensures Do(s, a).slots == s.slots + (if a.Acquire? then 1 else 0) - (if a.Release? then 1 else 0)
    ensures !a.Start? ==> a.call < |s.calls|
  {
  }

  /** Every state of an executable run is what its actions say. */
  lemma {:induction false} RunMirrors(maxWorkers: nat, run: seq<Action>)
    requires Exec(maxWorkers, run).Some?
    ensures Mirrors(run, Exec(maxWorkers, run).value)
    decreases |run|
  {
    hide Do, Enabled, Mirrors;
    if |run| > 0 {
      var front := run[..|run| - 1];
      RunMirrors(maxWorkers, front);
      StepMirrors(front, Exec(maxWorkers, front).value, run[|run| - 1]);
      assert run == front + [run[|run| - 1]];
    } else {
      NothingMirrors(maxWorkers);
    }
  }

  lemma NothingMirrors(maxWorkers: nat)
    ensures Mirrors([], State(maxWorkers, 0, []))
  {
  }

  /** In every interleaving, at most MaxWorkers slots have been taken and not yet given back. */
  lemma NeverTooManyAtOnce(maxWorkers: nat, run: seq<Action>)
    requires Exec(maxWorkers, run).Some?
    ensures Releases(run) <= Acquisitions(run) <= Releases(run) + maxWorkers
  {
    hide Exec, Acquisitions, Releases;
    RunMirrors(maxWorkers, run);
    EveryRunKeepsInv(maxWorkers, run);
  }

  /** A call that has returned gave nil exactly when all its runners finished with success and it did not time out. */
  lemma ReturnMeansSuccess(maxWorkers: nat, run: seq<Action>, c: nat)
    requires Exec(maxWorkers, run).Some? && c < Starts(run) && (Return(c) in run || SeeTimeout(c) in run)
    ensures var calls := Exec(maxWorkers, run).value.calls;
            && c < |calls| && calls[c].status.Returned?
            && (calls[c].status.isNil <==>
                SeeTimeout(c) !in run && forall w: nat :: w < RunnersOf(run, c) ==> Finish(c, w, true) in run)
  {
    hide Exec, Starts, RunnersOf, Acquisitions, Releases;
    RunMirrors(maxWorkers, run);
    var call := Exec(maxWorkers, run).value.calls[c];
    assert CallFollows(run, c, call);
    ReturnFitsReports(maxWorkers, run, c);
    assert forall w :: 0 <= w < |call.workers| ==>
             WorkerFollows(run, c, w, call.workers[w]) && (Is(call.workers[w], SaidOk) <==> Finish(c, w, true) in run);
  }

  /** If its context never expired, exactly when all its runners finished with success. */
  lemma NilMeansSuccessUnlessExpired(maxWorkers: nat, run: seq<Action>, c: nat)
    requires Exec(maxWorkers, run).Some? && c < Starts(run) && (Return(c) in run || SeeTimeout(c) in run)
    requires Expire(c) !in run
    ensures var calls := Exec(maxWorkers, run).value.calls;
            && c < |calls| && calls[c].status.Returned?
            && (calls[c].status.isNil <==> forall w: nat :: w < RunnersOf(run, c) ==> Finish(c, w, true) in run)
  {
    hide Exec, Starts, RunnersOf, Acquisitions, Releases;
    ReturnMeansSuccess(maxWorkers, run, c);
    RunMirrors(maxWorkers, run);
    assert CallFollows(run, c, Exec(maxWorkers, run).value.calls[c]);
    UnexpiredReturnFitsReports(maxWorkers, run, c);
    WithoutExpiry(maxWorkers, run, c);
  }

  /** A pool at rest has seen every runner of every call finish or give up, and every slot given back. */
  lemma RestMeansAllFinished(maxWorkers: nat, run: seq<Action>)
    requires Exec(maxWorkers, run).Some? && maxWorkers > 0 && AtRest(Exec(maxWorkers, run).value)
    ensures Acquisitions(run) == Releases(run)
    ensures forall c: nat :: c < Starts(run) ==> Return(c) in run || SeeTimeout(c) in run
    ensures forall c: nat, w: nat :: c < Starts(run) && w < RunnersOf(run, c) ==>
              Finish(c, w, true) in run || Finish(c, w, false) in run || GiveUp(c, w) in run
  {
    hide Exec, Starts, RunnersOf, Acquisitions, Releases, AtRest;
    RunMirrors(maxWorkers, run);
    EveryRunKeepsInv(maxWorkers, run);
    var s := Exec(maxWorkers, run).value;
    RestMeansDone(s);
    forall c: nat | c < Starts(run)
      ensures Return(c) in run || SeeTimeout(c) in run
    {
      assert CallFollows(run, c, s.calls[c]) && s.calls[c].status.Returned?;
    }
    forall c: nat, w: nat | c < Starts(run) && w < RunnersOf(run, c)
      ensures Finish(c, w, true) in run || Finish(c, w, false) in run || GiveUp(c, w) in run
    {
      assert CallFollows(run, c, s.calls[c]) && WorkerFollows(run, c, w, s.calls[c].workers[w]);
    }
  }
}
