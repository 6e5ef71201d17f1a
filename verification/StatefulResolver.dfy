/**
 The stateful resolver (synckit/stateful_resolver.go) with its conflict-resolution state
 machine (synckit/statemachine/dcr_state.go), active workflows and outcome counters.
 Conflicts are handled one at a time.
 */
module StatefulResolvers {
  import opened Basics
  import opened ConflictDetection
  import opened Resolvers
  import opened StateMachines

  datatype ResolutionState =
    | DCRIdle | DCRAnalyzing | DCRApplyingRules | DCRResolved | DCRManualReview | DCREscalated | DCRFailed

  /** The transition table of the conflict-resolution machine. */
  function DcrRules(): map<ResolutionState, seq<ResolutionState>> {
    map[
      DCRIdle := [DCRAnalyzing],
      DCRAnalyzing := [DCRApplyingRules, DCRFailed],
      DCRApplyingRules := [DCRResolved, DCRManualReview, DCREscalated, DCRFailed],
      DCRResolved := [DCRIdle],
      DCRManualReview := [DCRResolved, DCREscalated, DCRFailed, DCRIdle],
      DCREscalated := [DCRResolved, DCRFailed, DCRIdle],
      DCRFailed := [DCRIdle]
    ]
  }

  /** The same table, read as a relation. */
  predicate Follows(from: ResolutionState, to: ResolutionState) {
    match from
    case DCRIdle => to.DCRAnalyzing?
    case DCRAnalyzing => to.DCRApplyingRules? || to.DCRFailed?
    case DCRApplyingRules => to.DCRResolved? || to.DCRManualReview? || to.DCREscalated? || to.DCRFailed?
    case DCRResolved => to.DCRIdle?
    case DCRManualReview => to.DCRResolved? || to.DCREscalated? || to.DCRFailed? || to.DCRIdle?
    case DCREscalated => to.DCRResolved? || to.DCRFailed? || to.DCRIdle?
    case DCRFailed => to.DCRIdle?
  }

  lemma TableIsRelation(from: ResolutionState, to: ResolutionState)
    ensures Allows(DcrRules(), from, to) <==> Follows(from, to)
  {
  }

  /** The state in which a resolution ends. */
  function EndState(o: Outcome): ResolutionState {
    match o
    case Err(_) => DCRFailed
    case Ok(r) =>
      if r.decision == "manual_review" then DCRManualReview
      else if r.decision == "escalated" then DCREscalated
      else DCRResolved
  }

  datatype Metrics = Metrics(total: nat, autoResolved: nat, manualReview: nat, escalated: nat, failed: nat)

  /** updatePerformanceMetrics, as far as it counts outcomes. */
  function Counted(m: Metrics, o: Outcome): Metrics {
    match o
    case Err(_) => m.(total := m.total + 1, failed := m.failed + 1)
    case Ok(r) =>
      if r.decision == "manual_review" then m.(total := m.total + 1, manualReview := m.manualReview + 1)
      else if r.decision == "escalated" then m.(total := m.total + 1, escalated := m.escalated + 1)
      else m.(total := m.total + 1, autoResolved := m.autoResolved + 1)
  }

  /** How many outcomes ended in the given state. */
  function Ending(os: seq<Outcome>, s: ResolutionState): nat {
    if |os| == 0 then 0 else Ending(os[..|os| - 1], s) + if EndState(os[|os| - 1]) == s then 1 else 0
  }

  /** The counters that a list of outcomes calls for. */
  function MetricsOf(os: seq<Outcome>): Metrics {
    Metrics(|os|, Ending(os, DCRResolved), Ending(os, DCRManualReview), Ending(os, DCREscalated), Ending(os, DCRFailed))
  }

  lemma CountedOneMore(os: seq<Outcome>, o: Outcome)
    ensures Counted(MetricsOf(os), o) == MetricsOf(os + [o])
  {
    assert (os + [o])[..|os|] == os;
  }

  /** The total is the sum of the four outcome counters. */
  lemma {:induction false} TotalIsSum(os: seq<Outcome>)
    ensures var m := MetricsOf(os); m.total == m.autoResolved + m.manualReview + m.escalated + m.failed
    decreases |os|
  {
    if |os| > 0 {
      TotalIsSum(os[..|os| - 1]);
    }
  }

  /** How many outcomes have a property. */
  function Tally(os: seq<Outcome>, p: Outcome -> bool): nat {
    if |os| == 0 then 0 else Tally(os[..|os| - 1], p) + if p(os[|os| - 1]) then 1 else 0
  }

  /** Every counter is the number of outcomes of its kind: errors, the two special decisions, and the rest. */
  lemma {:induction false} CountersExactly(os: seq<Outcome>)
    ensures var m := MetricsOf(os);
            && m.total == |os|
            && m.failed == Tally(os, (o: Outcome) => o.Err?)
            && m.manualReview == Tally(os, (o: Outcome) => o.Ok? && o.value.decision == "manual_review")
            && m.escalated == Tally(os, (o: Outcome) => o.Ok? && o.value.decision == "escalated")
            && m.autoResolved ==
               Tally(os, (o: Outcome) =>
                           o.Ok? && o.value.decision != "manual_review" && o.value.decision != "escalated")
    decreases |os|
  {
    if |os| > 0 {
      CountersExactly(os[..|os| - 1]);
    }
  }

  /** The number of rules before the first that matches, or of all rules. */
  function FirstIndex(rules: seq<Rule>, c: Conflict): (n: nat)
    ensures n <= |rules|
    ensures forall i :: 0 <= i < n ==> !rules[i].matches(c)
    ensures n < |rules| ==> rules[n].matches(c)
  {
    if |rules| == 0 || rules[0].matches(c) then 0 else 1 + FirstIndex(rules[1..], c)
  }

  lemma {:induction false} FirstMatchAt(rules: seq<Rule>, c: Conflict)
    ensures FirstMatch(rules, c) ==
            var n := FirstIndex(rules, c); if n < |rules| then Some(rules[n].resolve(c)) else None
  {
    if |rules| > 0 && !rules[0].matches(c) {
      FirstMatchAt(rules[1..], c);
    }
  }

  function Names(rules: seq<Rule>): seq<string> {
    seq(|rules|, i requires 0 <= i < |rules| => rules[i].name)
  }

  /** What the machine records about a resolution: rules evaluated, matched and failed. */
  datatype Audit = Audit(path: seq<string>, matched: seq<string>, failed: seq<string>)

  /** The record of a finished rule application: every rule up to the first match, and that match. */
  function AuditOf(rules: seq<Rule>, c: Conflict): Audit {
    var n := FirstIndex(rules, c);
    if n == |rules| then Audit(Names(rules), [], []) else
      Audit(Names(rules[..n + 1]), [rules[n].name], if rules[n].resolve(c).Err? then [rules[n].name] else [])
  }

  /** The record in words: the rules up to the first match were evaluated, that one matched, and failed iff it did. */
  lemma AuditExactly(rules: seq<Rule>, c: Conflict)
    ensures var a, n := AuditOf(rules, c), FirstIndex(rules, c);
            && |a.path| == (if n < |rules| then n + 1 else |rules|)
            && (forall i :: 0 <= i < |a.path| ==> a.path[i] == rules[i].name)
            && (n == |rules| ==> a.matched == [] && a.failed == [])
            && (n < |rules| ==> a.matched == [rules[n].name] &&
                                a.failed == if rules[n].resolve(c).Err? then [rules[n].name] else [])
  {
  }

  /** The table read by its targets. */
  lemma TableByTarget(s: ResolutionState)
    ensures Allows(DcrRules(), s, DCRAnalyzing) <==> s == DCRIdle
    ensures Allows(DcrRules(), s, DCRApplyingRules) <==> s == DCRAnalyzing
    ensures Allows(DcrRules(), s, DCRResolved) <==> s in [DCRApplyingRules, DCRManualReview, DCREscalated]
    ensures Allows(DcrRules(), s, DCRManualReview) <==> s == DCRApplyingRules
    ensures Allows(DcrRules(), s, DCREscalated) <==> s in [DCRApplyingRules, DCRManualReview]
    ensures Allows(DcrRules(), s, DCRFailed) <==> s in [DCRAnalyzing, DCRApplyingRules, DCRManualReview, DCREscalated]
    ensures Allows(DcrRules(), s, DCRIdle) <==> s in [DCRResolved, DCRManualReview, DCREscalated, DCRFailed]
  {
  }

  class StatefulResolver {
    const rules: seq<Rule>
    const fallback: Option<Strategy>
    const useMachine: bool
    const useWorkflows: bool
    const useMetrics: bool
    const machine: Machine<ResolutionState>

    var conflictID: string
    var audit: Audit
    var activeWorkflows: set<string>
    var metrics: Metrics

    // Every outcome returned so far.
    ghost var outcomes: seq<Outcome>

    ghost predicate Wired()
      reads this, machine
    {
      machine.config.rules == DcrRules() && machine.validator.None? && machine.config.maxHistory > 0
    }

    /** The last transition the machine remembers. */
    ghost predicate JustMoved(from: ResolutionState, to: ResolutionState)
      reads this, machine
    {
      var h := machine.history;
      |h| > 0 && h[|h| - 1].from == from && h[|h| - 1].to == to
    }

    /** Between calls: the machine is idle and cleared, no workflow is active, and the counters are right. */
    ghost predicate Valid()
      reads this, machine
    {
      && Wired() && machine.state == DCRIdle
      && conflictID == "" && audit == Audit([], [], [])
      && activeWorkflows == {}
      && metrics == if useMetrics then MetricsOf(outcomes) else Metrics(0, 0, 0, 0, 0)
    }

    constructor (rules: seq<Rule>, fallback: Option<Strategy>, useMachine: bool, useWorkflows: bool, useMetrics: bool,
                 maxHistory: int, now: int)
      ensures Valid() && outcomes == [] && fresh(machine)
      ensures this.rules == rules && this.fallback == fallback
    {
      this.rules, this.fallback := rules, fallback;
      this.useMachine, this.useWorkflows, this.useMetrics := useMachine, useWorkflows, useMetrics;
      machine := new Machine(Config(DCRIdle, DcrRules(), None, maxHistory), now);
      conflictID, audit := "", Audit([], [], []);
      activeWorkflows := {};
      metrics := Metrics(0, 0, 0, 0, 0);
      outcomes := [];
    }

    /** A transition of the machine, if there is one. */
    method Move(to: ResolutionState, now: int) returns (ok: bool)
      requires Wired()
      modifies machine
      ensures Wired()
      ensures useMachine ==> ok == Follows(old(machine.state), to)
      ensures useMachine ==> machine.state == if ok then to else old(machine.state)
      ensures useMachine && ok ==> JustMoved(old(machine.state), to)
      ensures !useMachine ==> ok && machine.state == old(machine.state)
    {
      if !useMachine {
        return true;
      }
      TableIsRelation(machine.state, to);
      var err := machine.TransitionTo(to, now);
      ok := err.None?;
    }

    /** resolveWithTracking: applies the rules in order and records what it does. */
    method ResolveWithTracking(c: Conflict, now: int) returns (r: Outcome)
      requires Wired() && audit == Audit([], [], [])
      requires machine.state == if useMachine then DCRAnalyzing else DCRIdle
      modifies this`audit, machine
      ensures Wired() && machine.state == if useMachine then DCRApplyingRules else DCRIdle
      ensures r == DynamicResolve(rules, fallback, c)
      ensures audit == if useMachine then AuditOf(rules, c) else Audit([], [], [])
    {
      hide DcrRules;
      var begun := Move(DCRApplyingRules, now);
      FirstMatchAt(rules, c);
      ghost var n := FirstIndex(rules, c);
      for i := 0 to |rules|
        invariant i <= n && Wired()
        invariant machine.state == if useMachine then DCRApplyingRules else DCRIdle
        invariant audit == if useMachine then Audit(Names(rules[..i]), [], []) else Audit([], [], [])
      {
        assert Names(rules[..i + 1]) == Names(rules[..i]) + [rules[i].name];
        if useMachine {
          audit := audit.(path := audit.path + [rules[i].name]);
        }
        if rules[i].matches(c) {
          assert i == n;
          if useMachine {
            audit := audit.(matched := audit.matched + [rules[i].name]);
          }
          var res := rules[i].resolve(c);
          if res.Err? && useMachine {
            audit := audit.(failed := audit.failed + [rules[i].name]);
          }
          return res;
        }
      }
      assert rules[..|rules|] == rules;
      if fallback.None? {
        return Err(Unmatched("no rule matched and no fallback configured"));
      }
      return fallback.value(c);
    }

    /**
     Resolve: the same result or error as the plain resolver, and afterwards the machine is
     idle again, having come from the end state of that outcome, no workflow is left active,
     and the outcome is counted.
     */
    method Resolve(c: Conflict, workflowID: string, id: string, now: int) returns (r: Outcome)
      requires Valid()
      modifies this, machine
      ensures Valid()
      ensures r == DynamicResolve(rules, fallback, c)
      ensures outcomes == old(outcomes) + [r]
      ensures useMachine ==> JustMoved(EndState(r), DCRIdle)
      ensures useMachine && r.Err? ==> JustMoved(DCRFailed, DCRIdle)
      ensures useMachine && r.Ok? ==>
                match r.value.decision
                case "manual_review" => JustMoved(DCRManualReview, DCRIdle)
                case "escalated" => JustMoved(DCREscalated, DCRIdle)
                case _ => JustMoved(DCRResolved, DCRIdle)
    {
      hide DcrRules, DynamicResolve, AuditOf, MetricsOf;
      if useWorkflows {
        activeWorkflows := activeWorkflows + {workflowID};
      }
      StartResolution(id, now);
      r := ResolveWithTracking(c, now);
      var _ := Move(EndState(r), now);
      if useWorkflows {
        activeWorkflows := activeWorkflows - {workflowID};
      }
      Count(r);
      Reset(now);
    }

    /** Enters the analysis phase; from idle this always succeeds. */
    method StartResolution(id: string, now: int)
      requires Wired() && machine.state == DCRIdle && audit == Audit([], [], [])
      modifies this`conflictID, this`audit, machine
      ensures Wired() && machine.state == if useMachine then DCRAnalyzing else DCRIdle
      ensures conflictID == (if useMachine then id else old(conflictID)) && audit == Audit([], [], [])
    {
      hide DcrRules;
      var started := Move(DCRAnalyzing, now);
      if !started {
        assert false;
      }
      if useMachine {
        conflictID := id;
        audit := Audit([], [], []);
      }
    }

    /** Adds an outcome to the counters. */
    method Count(r: Outcome)
      requires metrics == if useMetrics then MetricsOf(outcomes) else Metrics(0, 0, 0, 0, 0)
      modifies this`metrics, this`outcomes
      ensures outcomes == old(outcomes) + [r]
      ensures metrics == if useMetrics then MetricsOf(outcomes) else Metrics(0, 0, 0, 0, 0)
    {
      if useMetrics {
        CountedOneMore(outcomes, r);
        metrics := Counted(metrics, r);
      }
      outcomes := outcomes + [r];
    }

    /** The deferred reset: back to idle, with the records cleared. */
    method Reset(now: int)
      requires Wired()
      modifies this`conflictID, this`audit, machine
      ensures Wired()
      ensures useMachine && Follows(old(machine.state), DCRIdle) ==>
                machine.state == DCRIdle && conflictID == "" && audit == Audit([], [], []) &&
                JustMoved(old(machine.state), DCRIdle)
      ensures !useMachine || !Follows(old(machine.state), DCRIdle) ==>
                machine.state == old(machine.state) && conflictID == old(conflictID) && audit == old(audit)
    {
      if !useMachine {
        return;
      }
      var ok := Move(DCRIdle, now);
      if ok {
        conflictID := "";
        audit := Audit([], [], []);
      }
    }
  }
}
