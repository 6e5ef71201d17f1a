/**
 Conflict resolution by rules (synckit/resolver.go, synckit/composite.go): the first-match
 resolver, the tree of rule groups, and the flattening of the tree.
 */
module Resolvers {
  import opened Basics
  import opened Versions
  import opened ConflictDetection

  datatype Resolved = Resolved(events: seq<EventWithVersion>, decision: string, reasons: seq<string>)

  /** Either nothing matched, or a resolver failed with an error of its own. */
  datatype ResolveError = Unmatched(text: string) | Failed(cause: string)

  type Outcome = Result<Resolved, ResolveError>

  type Strategy = Conflict -> Outcome

  datatype Rule = Rule(name: string, matches: Conflict -> bool, resolve: Strategy)

  datatype Group = Group(
    name: string, rules: seq<Rule>, subGroups: seq<Group>, enabled: bool, fallback: Option<Strategy>)

  // ---------------------------------------------------------------- the first-match resolver

  /** The outcome of the first rule that matches. */
  function FirstMatch(rules: seq<Rule>, c: Conflict): Option<Outcome> {
    if |rules| == 0 then None
    else if rules[0].matches(c) then Some(rules[0].resolve(c))
    else FirstMatch(rules[1..], c)
  }

  /** DynamicResolver.Resolve. */
  function DynamicResolve(rules: seq<Rule>, fallback: Option<Strategy>, c: Conflict): Outcome {
    match FirstMatch(rules, c)
    case Some(o) => o
    case None =>
      if fallback.None? then Err(Unmatched("no rule matched and no fallback configured")) else fallback.value(c)
  }

  // ---------------------------------------------------------------- the built-in resolvers

  function KeepLocal(c: Conflict, reason: string): Outcome {
    Ok(Resolved([c.local], "keep_local", [reason]))
  }

  function KeepRemote(c: Conflict, reason: string): Outcome {
    Ok(Resolved([c.remote], "keep_remote", [reason]))
  }

  function LastWriteWins(c: Conflict): Outcome {
    match CompareVersions(c.local.version, c.remote.version)
    case -1 => KeepRemote(c, "remote newer")
    case 1 => KeepLocal(c, "local newer")
    case _ => KeepRemote(c, "equal versions, prefer remote")
  }

  function FirstWriteWins(c: Conflict): Outcome {
    match CompareVersions(c.local.version, c.remote.version)
    case -1 => KeepLocal(c, "local is first")
    case 1 => KeepRemote(c, "remote is first")
    case _ => KeepLocal(c, "equal versions, prefer local")
  }

  function AdditiveMerge(c: Conflict): Outcome {
    Ok(Resolved([c.local, c.remote], "merge", ["additive merge"]))
  }

  function ManualReview(reason: string, c: Conflict): Outcome {
    Ok(Resolved([], "manual_review", ["manual review required"] + if reason == "" then [] else [reason]))
  }

  /** The resolver of a manager that is not given one: no rules, and the last write wins. */
  function DefaultResolver(c: Conflict): Outcome {
    DynamicResolve([], Some(LastWriteWins), c)
  }

  // ---------------------------------------------------------------- the group tree

  /** What a group says: nothing matched, a result, or an error. */
  datatype GroupAnswer = NotMatched | Matched(resolved: Resolved) | Errored(error: ResolveError)

  function Answer(o: Outcome): GroupAnswer {
    match o
    case Ok(r) => Matched(r)
    case Err(e) => Errored(e)
  }

  /** RuleGroup.ResolveInGroup: own rules, then subgroups, then the group's fallback. */
  function ResolveInGroup(g: Group, c: Conflict): GroupAnswer
    decreases g, 1
  {
    if !g.enabled then NotMatched else
      match FirstMatch(g.rules, c)
      case Some(o) => Answer(o)
      case None =>
        var sub := ResolveInGroups(g.subGroups, c);
        if !sub.NotMatched? then sub
        else if g.fallback.Some? then Answer(g.fallback.value(c))
        else NotMatched
  }

  /** The loop over groups: the first one that matched or failed. */
  function ResolveInGroups(gs: seq<Group>, c: Conflict): GroupAnswer
    decreases gs, 0
  {
    if |gs| == 0 then NotMatched else
      var first := ResolveInGroup(gs[0], c);
      if !first.NotMatched? then first else ResolveInGroups(gs[1..], c)
  }

  /** CompositeResolver.Resolve. */
  function CompositeResolve(groups: seq<Group>, fallback: Option<Strategy>, c: Conflict): Outcome {
    match ResolveInGroups(groups, c)
    case Errored(e) => Err(e)
    case Matched(r) => Ok(r)
    case NotMatched =>
      if fallback.Some? then fallback.value(c)
      else Err(Unmatched("no rule groups matched conflict and no fallback provided"))
  }

  // ---------------------------------------------------------------- flattening

  /** An entry of the flattened tree: a rule, or the fallback of a group. */
  datatype Entry = OfRule(rule: Rule) | OfFallback(strategy: Strategy)

  function OwnEntries(rules: seq<Rule>): seq<Entry> {
    seq(|rules|, i requires 0 <= i < |rules| => OfRule(rules[i]))
  }

  function Entries(g: Group): seq<Entry>
    decreases g, 1
  {
    if !g.enabled then [] else
      OwnEntries(g.rules) +
      EntriesOf(g.subGroups) +
      if g.fallback.Some? then [OfFallback(g.fallback.value)] else []
  }

  function EntriesOf(gs: seq<Group>): seq<Entry>
    decreases gs, 0
  {
    if |gs| == 0 then [] else Entries(gs[0]) + EntriesOf(gs[1..])
  }

  /** A fallback becomes a rule that always matches. */
  function AsRule(e: Entry): Rule {
    match e
    case OfRule(r) => r
    case OfFallback(f) => Rule("fallback", c => true, f)
  }

  function AsRules(es: seq<Entry>): seq<Rule> {
    seq(|es|, i requires 0 <= i < |es| => AsRule(es[i]))
  }

  /** RuleGroup.GetAllRules: the rules in depth-first order, without the fallbacks. */
  function GetAllRules(g: Group): seq<Rule>
    decreases g, 1
  {
    if !g.enabled then [] else g.rules + GetAllRulesOf(g.subGroups)
  }

  function GetAllRulesOf(gs: seq<Group>): seq<Rule>
    decreases gs, 0
  {
    if |gs| == 0 then [] else GetAllRules(gs[0]) + GetAllRulesOf(gs[1..])
  }

  /** The rules among the entries. */
  function RulesOf(es: seq<Entry>): seq<Rule> {
    if |es| == 0 then [] else (if es[0].OfRule? then [es[0].rule] else []) + RulesOf(es[1..])
  }

  /** The first entry that answers a conflict. */
  function FirstEntry(es: seq<Entry>, c: Conflict): Option<Entry> {
    if |es| == 0 then None
    else if es[0].OfFallback? || es[0].rule.matches(c) then Some(es[0])
    else FirstEntry(es[1..], c)
  }

  /** Equal, or both say that nothing matched, in different words. */
  predicate SameUpToText(a: Outcome, b: Outcome)
  {
    a == b || (a.Err? && b.Err? && a.error.Unmatched? && b.error.Unmatched?)
  }

  // ---------------------------------------------------------------- lemmas

  lemma {:induction false} FirstMatchConcat(a: seq<Rule>, b: seq<Rule>, c: Conflict)
    ensures FirstMatch(a + b, c) == if FirstMatch(a, c).Some? then FirstMatch(a, c) else FirstMatch(b, c)
  {
    if |a| == 0 {
      assert a + b == b;
    } else {
      assert (a + b)[1..] == a[1..] + b;
      FirstMatchConcat(a[1..], b, c);
    }
  }

  lemma AsRulesConcat(a: seq<Entry>, b: seq<Entry>)
    ensures AsRules(a + b) == AsRules(a) + AsRules(b)
  {
  }

  /** The answer of a group as an optional outcome. */
  function AsOption(a: GroupAnswer): Option<Outcome> {
    match a
    case NotMatched => None
    case Matched(r) => Some(Ok(r))
    case Errored(e) => Some(Err(e))
  }

  /** A group answers like the first match among its flattened entries. */
  lemma {:induction false} GroupIsFlat(g: Group, c: Conflict)
    ensures AsOption(ResolveInGroup(g, c)) == FirstMatch(AsRules(Entries(g)), c)
    decreases g, 1
  {
    if g.enabled {
      var own := OwnEntries(g.rules);
      var last: seq<Entry> := if g.fallback.Some? then [OfFallback(g.fallback.value)] else [];
      var mid := EntriesOf(g.subGroups);
      assert AsRules(own) == g.rules;
      AsRulesConcat(own + mid, last);
      AsRulesConcat(own, mid);
      FirstMatchConcat(AsRules(own) + AsRules(mid), AsRules(last), c);
      FirstMatchConcat(AsRules(own), AsRules(mid), c);
      GroupsAreFlat(g.subGroups, c);
      FallbackAlwaysMatches(g.fallback, c);
    }
  }

  lemma FallbackAlwaysMatches(fallback: Option<Strategy>, c: Conflict)
    ensures var last: seq<Entry> := if fallback.Some? then [OfFallback(fallback.value)] else [];
            FirstMatch(AsRules(last), c) == if fallback.Some? then Some(fallback.value(c)) else None
  {
  }

  lemma {:induction false} GroupsAreFlat(gs: seq<Group>, c: Conflict)
    ensures AsOption(ResolveInGroups(gs, c)) == FirstMatch(AsRules(EntriesOf(gs)), c)
    decreases gs, 0
  {
    if |gs| > 0 {
      GroupIsFlat(gs[0], c);
      GroupsAreFlat(gs[1..], c);
      AsRulesConcat(Entries(gs[0]), EntriesOf(gs[1..]));
      FirstMatchConcat(AsRules(Entries(gs[0])), AsRules(EntriesOf(gs[1..])), c);
    }
  }

  /** Every rule-group tree resolves like the first-match resolver over its flattened list. */
  lemma CompositeIsFlat(groups: seq<Group>, fallback: Option<Strategy>, c: Conflict)
    ensures SameUpToText(CompositeResolve(groups, fallback, c), DynamicResolve(AsRules(EntriesOf(groups)), fallback, c))
  {
    GroupsAreFlat(groups, c);
  }

  lemma {:induction false} RulesOfConcat(a: seq<Entry>, b: seq<Entry>)
    ensures RulesOf(a + b) == RulesOf(a) + RulesOf(b)
  {
    if |a| == 0 {
      assert a + b == b && [] + RulesOf(b) == RulesOf(b);
    } else {
      var head, tail := if a[0].OfRule? then [a[0].rule] else [], a[1..];
      assert (a + b)[1..] == tail + b;
      RulesOfConcat(tail, b);
      assert RulesOf(a + b) == head + RulesOf(tail + b);
      assert head + (RulesOf(tail) + RulesOf(b)) == (head + RulesOf(tail)) + RulesOf(b);
    }
  }

  lemma {:induction false} RulesOfOwn(rules: seq<Rule>)
    ensures RulesOf(OwnEntries(rules)) == rules
  {
    if |rules| > 0 {
      assert OwnEntries(rules)[1..] == OwnEntries(rules[1..]);
      RulesOfOwn(rules[1..]);
    }
  }

  /** GetAllRules keeps exactly the rules of the flattened list. */
  lemma {:induction false} GetAllRulesIsRulesOf(g: Group)
    ensures RulesOf(Entries(g)) == GetAllRules(g)
    decreases g, 1
  {
    if g.enabled {
      var own := OwnEntries(g.rules);
      var last: seq<Entry> := if g.fallback.Some? then [OfFallback(g.fallback.value)] else [];
      RulesOfConcat(own + EntriesOf(g.subGroups), last);
      RulesOfConcat(own, EntriesOf(g.subGroups));
      RulesOfOwn(g.rules);
      GetAllRulesOfIsRulesOf(g.subGroups);
      assert RulesOf(last) == [];
      assert Entries(g) == own + EntriesOf(g.subGroups) + last;
      assert GetAllRules(g) + [] == GetAllRules(g);
    }
  }

  lemma {:induction false} GetAllRulesOfIsRulesOf(gs: seq<Group>)
    ensures RulesOf(EntriesOf(gs)) == GetAllRulesOf(gs)
    decreases gs, 0
  {
    if |gs| > 0 {
      GetAllRulesIsRulesOf(gs[0]);
      GetAllRulesOfIsRulesOf(gs[1..]);
      RulesOfConcat(Entries(gs[0]), EntriesOf(gs[1..]));
    }
  }

  lemma {:induction false} DropFallbacks(es: seq<Entry>, c: Conflict)
    ensures FirstEntry(es, c).None? ==> FirstMatch(AsRules(es), c).None? && FirstMatch(RulesOf(es), c).None?
    ensures FirstEntry(es, c).Some? ==> FirstMatch(AsRules(es), c) == Some(AsRule(FirstEntry(es, c).value).resolve(c))
    ensures FirstEntry(es, c).Some? && FirstEntry(es, c).value.OfRule? ==>
              FirstMatch(RulesOf(es), c) == FirstMatch(AsRules(es), c)
  {
    if |es| > 0 {
      DropFallbacks(es[1..], c);
      assert AsRules(es)[1..] == AsRules(es[1..]);
      if es[0].OfRule? {
        assert (RulesOf(es))[1..] == RulesOf(es[1..]);
      }
    }
  }

  /**
   The list of GetAllRules, run by the first-match resolver, agrees with the tree on every
   conflict that no group fallback is the first to answer; where one is, the tree returns that
   fallback's outcome.
   */
  lemma GetAllRulesAgrees(groups: seq<Group>, fallback: Option<Strategy>, c: Conflict)
    ensures var first := FirstEntry(EntriesOf(groups), c);
            if first.Some? && first.value.OfFallback?
            then CompositeResolve(groups, fallback, c) == first.value.strategy(c)
            else SameUpToText(CompositeResolve(groups, fallback, c), DynamicResolve(GetAllRulesOf(groups), fallback, c))
  {
    GroupsAreFlat(groups, c);
    GetAllRulesOfIsRulesOf(groups);
    DropFallbacks(EntriesOf(groups), c);
  }

  /** No enabled group of the tree has a fallback of its own. */
  predicate NoFallbacks(g: Group)
    decreases g, 1
  {
    g.enabled ==> g.fallback.None? && NoFallbacksIn(g.subGroups)
  }

  predicate NoFallbacksIn(gs: seq<Group>)
    decreases gs, 0
  {
    |gs| == 0 || (NoFallbacks(gs[0]) && NoFallbacksIn(gs[1..]))
  }

  lemma {:induction false} NoFallbackEntries(g: Group)
    requires NoFallbacks(g)
    ensures forall i :: 0 <= i < |Entries(g)| ==> Entries(g)[i].OfRule?
    decreases g, 1
  {
    if g.enabled {
      NoFallbackEntriesIn(g.subGroups);
    }
  }

  lemma {:induction false} NoFallbackEntriesIn(gs: seq<Group>)
    requires NoFallbacksIn(gs)
    ensures forall i :: 0 <= i < |EntriesOf(gs)| ==> EntriesOf(gs)[i].OfRule?
    decreases gs, 0
  {
    if |gs| > 0 {
      NoFallbackEntries(gs[0]);
      NoFallbackEntriesIn(gs[1..]);
    }
  }

  lemma {:induction false} FirstEntryIsMember(es: seq<Entry>, c: Conflict)
    ensures FirstEntry(es, c).Some? ==> exists i :: 0 <= i < |es| && es[i] == FirstEntry(es, c).value
  {
    if |es| > 0 {
      FirstEntryIsMember(es[1..], c);
      if FirstEntry(es[1..], c).Some? {
        var i :| 0 <= i < |es[1..]| && es[1..][i] == FirstEntry(es[1..], c).value;
        assert es[i + 1] == es[1..][i];
      }
    }
  }

  /** Without group fallbacks, the concatenated GetAllRules is the whole meaning of the tree. */
  lemma WithoutFallbacksGetAllRulesIsExact(groups: seq<Group>, fallback: Option<Strategy>, c: Conflict)
    requires NoFallbacksIn(groups)
    ensures SameUpToText(CompositeResolve(groups, fallback, c), DynamicResolve(GetAllRulesOf(groups), fallback, c))
  {
    NoFallbackEntriesIn(groups);
    FirstEntryIsMember(EntriesOf(groups), c);
    GetAllRulesAgrees(groups, fallback, c);
  }

  /** With a group fallback, the list of GetAllRules can resolve less than the tree. */
  lemma FallbackMakesADifference(f: Strategy, c: Conflict)
    requires f(c).Ok?
    ensures var groups := [Group("g", [], [], true, Some(f))];
            !SameUpToText(CompositeResolve(groups, None, c), DynamicResolve(GetAllRulesOf(groups), None, c))
  {
    var g := Group("g", [], [], true, Some(f));
    GetAllRulesAgrees([g], None, c);
    assert EntriesOf([g]) == Entries(g) + [] == [OfFallback(f)];
    assert GetAllRulesOf([g]) == [];
  }

  // ---------------------------------------------------------------- the order of a tree

  /**
   The entry of a group at a path: [0, i] is its rule i, [1] followed by the path of a subgroup's
   entry is that entry, and [2] is its fallback.  A disabled group has none.
   */
  function EntryIn(g: Group, p: seq<nat>): Option<Entry>
    decreases |p|
  {
    if !g.enabled || |p| == 0 then None
    else if p[0] == 0 then (if |p| == 2 && p[1] < |g.rules| then Some(OfRule(g.rules[p[1]])) else None)
    else if p[0] == 1 then EntryAt(g.subGroups, p[1..])
    else if p == [2] && g.fallback.Some? then Some(OfFallback(g.fallback.value))
    else None
  }

  /** In a list of groups the path starts with the number of the group. */
  function EntryAt(gs: seq<Group>, p: seq<nat>): Option<Entry>
    decreases |p|
  {
    if |p| > 0 && p[0] < |gs| then EntryIn(gs[p[0]], p[1..]) else None
  }

  /** The lexicographic order of paths. */
  predicate Earlier(p: seq<nat>, q: seq<nat>) {
    |q| > 0 && (|p| == 0 || p[0] < q[0] || (p[0] == q[0] && Earlier(p[1..], q[1..])))
  }

  predicate Answering(e: Option<Entry>, c: Conflict) {
    e.Some? && (e.value.OfFallback? || e.value.rule.matches(c))
  }

  function OutcomeOf(e: Entry, c: Conflict): Outcome {
    match e
    case OfRule(r) => r.resolve(c)
    case OfFallback(f) => f(c)
  }

  /** p is the first path of the group that answers, and it answers so. */
  ghost predicate FirstIn(g: Group, p: seq<nat>, c: Conflict, a: GroupAnswer) {
    && Answering(EntryIn(g, p), c) && a == Answer(OutcomeOf(EntryIn(g, p).value, c))
    && forall q: seq<nat> :: Answering(EntryIn(g, q), c) ==> p == q || Earlier(p, q)
  }

  ghost predicate FirstPath(gs: seq<Group>, p: seq<nat>, c: Conflict) {
    Answering(EntryAt(gs, p), c) && forall q: seq<nat> :: Answering(EntryAt(gs, q), c) ==> p == q || Earlier(p, q)
  }

  ghost predicate FirstAt(gs: seq<Group>, p: seq<nat>, c: Conflict, a: GroupAnswer) {
    FirstPath(gs, p, c) && a == Answer(OutcomeOf(EntryAt(gs, p).value, c))
  }

  lemma {:induction false} FirstOwn(rules: seq<Rule>, c: Conflict) returns (i: nat)
    ensures FirstMatch(rules, c).None? ==> forall k :: 0 <= k < |rules| ==> !rules[k].matches(c)
    ensures FirstMatch(rules, c).Some? ==>
              && i < |rules| && rules[i].matches(c) && FirstMatch(rules, c) == Some(rules[i].resolve(c))
              && forall k :: 0 <= k < i ==> !rules[k].matches(c)
  {
    i := 0;
    if |rules| > 0 && !rules[0].matches(c) {
      var j := FirstOwn(rules[1..], c);
      i := j + 1;
      assert forall k :: 1 <= k < |rules| ==> rules[k] == rules[1..][k - 1];
    }
  }

  lemma {:induction false} GroupPath(g: Group, c: Conflict) returns (p: seq<nat>)
    ensures ResolveInGroup(g, c).NotMatched? ==> forall q: seq<nat> :: !Answering(EntryIn(g, q), c)
    ensures !ResolveInGroup(g, c).NotMatched? ==> FirstIn(g, p, c, ResolveInGroup(g, c))
    decreases g, 1
  {
    p := [2];
    if g.enabled {
      var i := FirstOwn(g.rules, c);
      if FirstMatch(g.rules, c).Some? {
        p := [0, i];
        OwnRuleIsFirst(g, c, i);
      } else {
        var sub := GroupsPath(g.subGroups, c);
        if !ResolveInGroups(g.subGroups, c).NotMatched? {
          p := [1] + sub;
          SubgroupIsNext(g, c, sub);
        } else {
          FallbackIsLast(g, c);
        }
      }
    }
  }

  lemma OwnRuleIsFirst(g: Group, c: Conflict, i: nat)
    requires g.enabled && i < |g.rules| && g.rules[i].matches(c)
    requires FirstMatch(g.rules, c) == Some(g.rules[i].resolve(c))
    requires forall k :: 0 <= k < i ==> !g.rules[k].matches(c)
    ensures FirstIn(g, [0, i], c, ResolveInGroup(g, c))
  {
    forall q: seq<nat> | Answering(EntryIn(g, q), c)
      ensures [0, i] == q || Earlier([0, i], q)
    {
      if q[0] == 0 {
        assert q == [0, q[1]];
        assert [0, i][1..] == [i] && q[1..] == [q[1]];
      }
    }
  }

  lemma SubgroupIsNext(g: Group, c: Conflict, sub: seq<nat>)
    requires g.enabled && FirstMatch(g.rules, c).None? && forall k :: 0 <= k < |g.rules| ==> !g.rules[k].matches(c)
    requires !ResolveInGroups(g.subGroups, c).NotMatched?
    requires FirstAt(g.subGroups, sub, c, ResolveInGroups(g.subGroups, c))
    ensures FirstIn(g, [1] + sub, c, ResolveInGroup(g, c))
  {
    var p := [1] + sub;
    assert p[1..] == sub;
    forall q: seq<nat> | Answering(EntryIn(g, q), c)
      ensures p == q || Earlier(p, q)
    {
      if q[0] == 1 {
        assert Answering(EntryAt(g.subGroups, q[1..]), c);
        assert q == [1] + q[1..];
      }
    }
  }

  lemma FallbackIsLast(g: Group, c: Conflict)
    requires g.enabled && FirstMatch(g.rules, c).None? && forall k :: 0 <= k < |g.rules| ==> !g.rules[k].matches(c)
    requires ResolveInGroups(g.subGroups, c).NotMatched?
    requires forall q: seq<nat> :: !Answering(EntryAt(g.subGroups, q), c)
    ensures g.fallback.None? ==>
              ResolveInGroup(g, c).NotMatched? && forall q: seq<nat> :: !Answering(EntryIn(g, q), c)
    ensures g.fallback.Some? ==> FirstIn(g, [2], c, ResolveInGroup(g, c))
  {
    forall q: seq<nat>
      ensures Answering(EntryIn(g, q), c) ==> q == [2] && g.fallback.Some?
    {
      assert !Answering(EntryAt(g.subGroups, if |q| > 0 then q[1..] else []), c);
    }
  }

  lemma {:induction false} GroupsPath(gs: seq<Group>, c: Conflict) returns (p: seq<nat>)
    ensures ResolveInGroups(gs, c).NotMatched? ==> forall q: seq<nat> :: !Answering(EntryAt(gs, q), c)
    ensures !ResolveInGroups(gs, c).NotMatched? ==> FirstAt(gs, p, c, ResolveInGroups(gs, c))
    decreases gs, 0
  {
    p := [];
    if |gs| > 0 {
      var first := GroupPath(gs[0], c);
      if !ResolveInGroup(gs[0], c).NotMatched? {
        p := [0] + first;
        FirstGroupAnswers(gs, c, first);
      } else {
        var rest := GroupsPath(gs[1..], c);
        if !ResolveInGroups(gs[1..], c).NotMatched? {
          p := [rest[0] + 1] + rest[1..];
          LaterGroupAnswers(gs, c, rest);
        } else {
          forall q: seq<nat>
            ensures !Answering(EntryAt(gs, q), c)
          {
            ShiftedPath(gs, q);
          }
        }
      }
    }
  }

  /** A path into a later group is a path into the remaining groups. */
  lemma ShiftedPath(gs: seq<Group>, q: seq<nat>)
    requires |gs| > 0
    ensures |q| > 0 && q[0] > 0 ==> EntryAt(gs, q) == EntryAt(gs[1..], [q[0] - 1] + q[1..])
    ensures |q| > 0 && q[0] == 0 ==> EntryAt(gs, q) == EntryIn(gs[0], q[1..])
    ensures |q| == 0 ==> EntryAt(gs, q).None?
  {
    if |q| > 0 && q[0] > 0 {
      var q' := [q[0] - 1] + q[1..];
      assert q'[1..] == q[1..];
    }
  }

  lemma FirstGroupAnswers(gs: seq<Group>, c: Conflict, first: seq<nat>)
    requires |gs| > 0 && !ResolveInGroup(gs[0], c).NotMatched?
    requires FirstIn(gs[0], first, c, ResolveInGroup(gs[0], c))
    ensures FirstAt(gs, [0] + first, c, ResolveInGroups(gs, c))
  {
    hide EntryIn;
    var p := [0] + first;
    assert p[1..] == first;
    forall q: seq<nat> | Answering(EntryAt(gs, q), c)
      ensures p == q || Earlier(p, q)
    {
      ShiftedPath(gs, q);
      if q[0] == 0 {
        assert q == [0] + q[1..];
      }
    }
  }

  lemma LaterGroupAnswers(gs: seq<Group>, c: Conflict, rest: seq<nat>)
    requires |gs| > 0 && ResolveInGroup(gs[0], c).NotMatched? && !ResolveInGroups(gs[1..], c).NotMatched?
    requires forall q: seq<nat> :: !Answering(EntryIn(gs[0], q), c)
    requires FirstAt(gs[1..], rest, c, ResolveInGroups(gs[1..], c))
    ensures |rest| > 0 && FirstAt(gs, [rest[0] + 1] + rest[1..], c, ResolveInGroups(gs, c))
  {
    hide EntryIn;
    assert |rest| > 0;
    var p := [rest[0] + 1] + rest[1..];
    ShiftedPath(gs, p);
    assert [p[0] - 1] + p[1..] == rest;
    forall q: seq<nat> | Answering(EntryAt(gs, q), c)
      ensures p == q || Earlier(p, q)
    {
      ShiftedPath(gs, q);
      assert q[0] > 0;
      var q' := [q[0] - 1] + q[1..];
      assert Answering(EntryAt(gs[1..], q'), c);
      assert rest == q' || Earlier(rest, q');
      assert q'[1..] == q[1..] && p[1..] == rest[1..];
      if rest == q' {
        assert q == [q[0]] + q[1..];
      }
    }
  }

  /**
   A tree answers with its first entry that answers, in the order of paths: in every enabled group its
   own rules, then its subgroups, then its fallback.  If there is none, the resolver's own fallback
   answers, and without one nothing does.
   */
  lemma CompositeAnswersInOrder(groups: seq<Group>, fallback: Option<Strategy>, c: Conflict)
    ensures (exists p: seq<nat> ::
               FirstPath(groups, p, c) &&
               CompositeResolve(groups, fallback, c) == OutcomeOf(EntryAt(groups, p).value, c))
            || (&& (forall q: seq<nat> :: !Answering(EntryAt(groups, q), c))
                && (if fallback.Some? then CompositeResolve(groups, fallback, c) == fallback.value(c)
                    else CompositeResolve(groups, fallback, c).Err? &&
                         CompositeResolve(groups, fallback, c).error.Unmatched?))
  {
    hide EntryAt, ResolveInGroups;
    var p := GroupsPath(groups, c);
    if !ResolveInGroups(groups, c).NotMatched? {
      assert FirstPath(groups, p, c);
      assert CompositeResolve(groups, fallback, c) == OutcomeOf(EntryAt(groups, p).value, c);
    }
  }

  /** GetAllRules lists nothing for a disabled group, and for an enabled one its rules and then those below it. */
  lemma GetAllRulesInOrder(g: Group, gs: seq<Group>, hs: seq<Group>)
    ensures !g.enabled ==> GetAllRules(g) == []
    ensures g.enabled ==> g.rules <= GetAllRules(g) && GetAllRules(g)[|g.rules|..] == GetAllRulesOf(g.subGroups)
    ensures GetAllRulesOf(gs + hs) == GetAllRulesOf(gs) + GetAllRulesOf(hs) && GetAllRulesOf([g]) == GetAllRules(g)
  {
    GetAllRulesConcat(gs, hs);
    var none: seq<Group> := [];
    assert [g][1..] == none && GetAllRulesOf(none) == [];
    assert GetAllRules(g) + [] == GetAllRules(g);
  }

  lemma {:induction false} GetAllRulesConcat(gs: seq<Group>, hs: seq<Group>)
    ensures GetAllRulesOf(gs + hs) == GetAllRulesOf(gs) + GetAllRulesOf(hs)
  {
    if |gs| == 0 {
      assert gs + hs == hs && [] + GetAllRulesOf(hs) == GetAllRulesOf(hs);
    } else {
      assert (gs + hs)[1..] == gs[1..] + hs;
      GetAllRulesConcat(gs[1..], hs);
      var head := GetAllRules(gs[0]);
      assert head + (GetAllRulesOf(gs[1..]) + GetAllRulesOf(hs)) == (head + GetAllRulesOf(gs[1..])) + GetAllRulesOf(hs);
    }
  }
}
