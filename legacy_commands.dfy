/**
 * The legacy plan command: propose a change for every declared resource,
 * in order, and summarise how often each action is required, overall and
 * per resource class.
 */
module LegacyCommands {
  import opened Wrappers
  import opened LegacyReferences
  import opened LegacyProviders
  import opened LegacyLookups
  import opened LegacyProposals

  /** One entry of `perResource`: a resource class name and its count. */
  datatype ResourceCount = ResourceCount(resourceName: string, count: nat)

  /** What `countTimesActionRequired` returns. */
  datatype ActionStats = ActionStats(total: nat, perResource: seq<ResourceCount>)

  /** `perResource[name] ?? 0`. */
  function CountFor(per: seq<ResourceCount>, name: string): nat {
    if per == [] then 0
    else if per[0].resourceName == name then per[0].count
    else CountFor(per[1..], name)
  }

  /** The sum of the counts. */
  function Sum(per: seq<ResourceCount>): nat {
    if per == [] then 0 else per[0].count + Sum(per[1..])
  }

  /** The class is listed. */
  function Listed(per: seq<ResourceCount>, name: string): bool {
    per != [] && (per[0].resourceName == name || Listed(per[1..], name))
  }

  /** No class name appears twice. */
  predicate DistinctNames(per: seq<ResourceCount>) {
    per == [] || (!Listed(per[1..], per[0].resourceName) && DistinctNames(per[1..]))
  }

  /** No class is listed with a zero count. */
  predicate AllPositive(per: seq<ResourceCount>) {
    forall i :: 0 <= i < |per| ==> per[i].count > 0
  }

  /**
   * `{...perResource, [name]: (perResource[name] ?? 0) + 1}`: an entry
   * already there is bumped in place, a new one is appended with 1.
   */
  function Bump(per: seq<ResourceCount>, name: string): (r: seq<ResourceCount>)
    ensures forall c :: CountFor(r, c) == CountFor(per, c) + (if c == name then 1 else 0)
    ensures forall c :: Listed(r, c) <==> Listed(per, c) || c == name
    ensures Sum(r) == Sum(per) + 1
    ensures |r| <= |per| + 1
  {
    if per == [] then [ResourceCount(name, 1)]
    else if per[0].resourceName == name then [ResourceCount(name, per[0].count + 1)] + per[1..]
    else [per[0]] + Bump(per[1..], name)
  }

  /** Bumping keeps every count positive and every name listed once. */
  lemma {:induction false} BumpKeepsShape(per: seq<ResourceCount>, name: string)
    requires AllPositive(per) && DistinctNames(per)
    ensures AllPositive(Bump(per, name)) && DistinctNames(Bump(per, name))
  {
    if per != [] && per[0].resourceName != name {
      assert forall i :: 0 < i < |per| ==> per[i] == per[1..][i - 1];
      BumpKeepsShape(per[1..], name);
      var r := Bump(per, name);
      assert r[1..] == Bump(per[1..], name);
      assert forall i :: 0 < i < |r| ==> r[i] == r[1..][i - 1];
    }
  }

  /** The number of proposals with the action. */
  function Occurrences(proposals: seq<Proposal>, action: ProposalAction): nat {
    if proposals == [] then 0
    else Occurrences(proposals[..|proposals| - 1], action) + (if proposals[|proposals| - 1].action == action then 1 else 0)
  }

  /** The number of proposals with the action for the resource class. */
  function OccurrencesFor(proposals: seq<Proposal>, action: ProposalAction, name: string): nat {
    if proposals == [] then 0
    else
      var last := proposals[|proposals| - 1];
      OccurrencesFor(proposals[..|proposals| - 1], action, name) +
        (if last.action == action && last.forResourceClassName == name then 1 else 0)
  }

  /**
   * `countTimesActionRequired`: keep the proposals with the action and
   * fold them, in order, into a total and a count per resource class.
   */
  function CountTimesActionRequired(proposals: seq<Proposal>, action: ProposalAction): (s: ActionStats)
    ensures s.total <= |proposals|
    ensures Sum(s.perResource) == s.total
    ensures |s.perResource| <= s.total
  {
    if proposals == [] then ActionStats(0, [])
    else
      var prev := CountTimesActionRequired(proposals[..|proposals| - 1], action);
      var last := proposals[|proposals| - 1];
      if last.action == action then ActionStats(prev.total + 1, Bump(prev.perResource, last.forResourceClassName))
      else prev
  }

  /**
   * The statistics are right: `total` counts the proposals with the action,
   * each class's count counts those of that class, the counts sum to the
   * total, no class appears twice and none with a zero count.
   */
  lemma {:induction false} CountsAreRight(proposals: seq<Proposal>, action: ProposalAction)
    ensures CountTimesActionRequired(proposals, action).total == Occurrences(proposals, action)
    ensures forall c :: CountFor(CountTimesActionRequired(proposals, action).perResource, c) == OccurrencesFor(proposals, action, c)
    ensures Sum(CountTimesActionRequired(proposals, action).perResource) == CountTimesActionRequired(proposals, action).total
    ensures DistinctNames(CountTimesActionRequired(proposals, action).perResource)
    ensures AllPositive(CountTimesActionRequired(proposals, action).perResource)
  {
    if proposals != [] {
      var init := proposals[..|proposals| - 1];
      CountsAreRight(init, action);
      BumpKeepsShape(CountTimesActionRequired(init, action).perResource, proposals[|proposals| - 1].forResourceClassName);
    }
  }

  /** A class is listed exactly when some proposal with the action is for it. */
  lemma ListedIffProposed(proposals: seq<Proposal>, action: ProposalAction, name: string)
    ensures Listed(CountTimesActionRequired(proposals, action).perResource, name) <==> OccurrencesFor(proposals, action, name) > 0
  {
    CountsAreRight(proposals, action);
    ListedIffCounted(CountTimesActionRequired(proposals, action).perResource, name);
  }

  /** In a list with no zero counts, a class has a positive count exactly when it is listed. */
  lemma {:induction false} ListedIffCounted(per: seq<ResourceCount>, name: string)
    requires AllPositive(per)
    ensures Listed(per, name) <==> CountFor(per, name) > 0
  {
    if per != [] {
      assert forall i :: 0 < i < |per| ==> per[i] == per[1..][i - 1];
      ListedIffCounted(per[1..], name);
    }
  }

  /** The class names of a count list, in its order. */
  function Names(per: seq<ResourceCount>): (names: seq<string>)
    ensures |names| == |per|
  {
    if per == [] then [] else [per[0].resourceName] + Names(per[1..])
  }

  /**
   * The classes of the proposals with the action, each once, in the order
   * of the first such proposal for it.
   */
  function FirstSeen(proposals: seq<Proposal>, action: ProposalAction): seq<string> {
    if proposals == [] then []
    else
      var prev := FirstSeen(proposals[..|proposals| - 1], action);
      var last := proposals[|proposals| - 1];
      if last.action == action && last.forResourceClassName !in prev then prev + [last.forResourceClassName]
      else prev
  }

  /** Being listed is being among the names. */
  lemma {:induction false} ListedIffNamed(per: seq<ResourceCount>, name: string)
    ensures Listed(per, name) <==> name in Names(per)
  {
    if per != [] {
      ListedIffNamed(per[1..], name);
    }
  }

  /** Bumping a listed class keeps the names; bumping a new one appends it last. */
  lemma {:induction false} BumpNames(per: seq<ResourceCount>, name: string)
    ensures Names(Bump(per, name)) == if Listed(per, name) then Names(per) else Names(per) + [name]
  {
    if per != [] {
      var r := Bump(per, name);
      if per[0].resourceName == name {
        assert r[1..] == per[1..];
      } else {
        assert r[1..] == Bump(per[1..], name);
        BumpNames(per[1..], name);
      }
    }
  }

  /**
   * The listing order: the classes appear in `perResource` in the order of
   * the first proposal with the action for each of them.
   */
  lemma {:induction false} ListedInFirstSeenOrder(proposals: seq<Proposal>, action: ProposalAction)
    ensures Names(CountTimesActionRequired(proposals, action).perResource) == FirstSeen(proposals, action)
  {
    if proposals != [] {
      var init := proposals[..|proposals| - 1];
      var last := proposals[|proposals| - 1];
      ListedInFirstSeenOrder(init, action);
      if last.action == action {
        var prev := CountTimesActionRequired(init, action).perResource;
        BumpNames(prev, last.forResourceClassName);
        ListedIffNamed(prev, last.forResourceClassName);
      }
    }
  }

  /** Every proposal has exactly one of the five actions, so the totals add up to the proposals. */
  lemma {:induction false} TotalsCoverEveryProposal(proposals: seq<Proposal>)
    ensures Occurrences(proposals, DoNothing) + Occurrences(proposals, Create) + Occurrences(proposals, Update) +
            Occurrences(proposals, Replace) + Occurrences(proposals, Destroy) == |proposals|
  {
    if proposals != [] {
      TotalsCoverEveryProposal(proposals[..|proposals| - 1]);
    }
  }

  /* ------------------------------------------------------------ the summary */

  /** One summary row: an action, its total, and the per-class lines under it. */
  datatype SummaryRow = SummaryRow(action: ProposalAction, total: nat, lines: seq<ResourceCount>)

  /** The order the statistics object lists the actions in. */
  const StatsOrder: seq<ProposalAction> := [DoNothing, Create, Update, Replace, Destroy]

  /** The row of one action: DO_NOTHING carries no per-class lines. */
  function RowFor(proposals: seq<Proposal>, action: ProposalAction): SummaryRow {
    var stats := CountTimesActionRequired(proposals, action);
    SummaryRow(action, stats.total, if action == DoNothing then [] else stats.perResource)
  }

  /** `statsToSummaryRows` over some of the actions, in order: a row only for an action required at least once. */
  function RowsFor(proposals: seq<Proposal>, actions: seq<ProposalAction>): (rows: seq<SummaryRow>)
    ensures forall r <- rows :: r.total > 0 && r.action in actions && r == RowFor(proposals, r.action)
    ensures forall a <- actions :: RowFor(proposals, a).total > 0 ==> RowFor(proposals, a) in rows
  {
    if actions == [] then []
    else
      var row := RowFor(proposals, actions[0]);
      var rest := RowsFor(proposals, actions[1..]);
      assert forall a <- actions :: a == actions[0] || a in actions[1..];
      if row.total > 0 then [row] + rest else rest
  }

  /** The summary rows of the plan command. */
  function SummaryRows(proposals: seq<Proposal>): (rows: seq<SummaryRow>)
  {
    RowsFor(proposals, StatsOrder)
  }

  /**
   * An action has a summary row exactly when some proposal requires it;
   * the row's total counts those proposals; only DO_NOTHING lists no
   * classes; and the totals of the rows add up to the number of proposals.
   */
  lemma SummaryIsRight(proposals: seq<Proposal>, action: ProposalAction)
    ensures (exists r <- SummaryRows(proposals) :: r.action == action) <==> Occurrences(proposals, action) > 0
    ensures forall r <- SummaryRows(proposals) :: r.total == Occurrences(proposals, r.action) && r.total > 0
    ensures forall r <- SummaryRows(proposals) :: r.action == DoNothing ==> r.lines == []
    ensures forall r <- SummaryRows(proposals) :: r.action != DoNothing ==>
      r.lines == CountTimesActionRequired(proposals, r.action).perResource && Sum(r.lines) == r.total
  {
    forall a: ProposalAction
      ensures CountTimesActionRequired(proposals, a).total == Occurrences(proposals, a)
      ensures Sum(CountTimesActionRequired(proposals, a).perResource) == CountTimesActionRequired(proposals, a).total
    {
      CountsAreRight(proposals, a);
    }
    assert action in StatsOrder by {
      assert StatsOrder[0] == DoNothing && StatsOrder[1] == Create && StatsOrder[2] == Update;
      assert StatsOrder[3] == Replace && StatsOrder[4] == Destroy;
    }
    if Occurrences(proposals, action) > 0 {
      assert RowFor(proposals, action) in SummaryRows(proposals);
    }
  }

  /** The rows' totals add up to the number of proposals. */
  lemma SummaryCoversEveryProposal(proposals: seq<Proposal>)
    ensures TotalOf(SummaryRows(proposals)) == |proposals|
  {
    CountsAreRight(proposals, DoNothing);
    CountsAreRight(proposals, Create);
    CountsAreRight(proposals, Update);
    CountsAreRight(proposals, Replace);
    CountsAreRight(proposals, Destroy);
    TotalsCoverEveryProposal(proposals);
    RowsTotal(proposals, StatsOrder);
    FiveTotals(proposals);
  }

  /** The sum of the totals over the statistics' actions, written out. */
  lemma FiveTotals(proposals: seq<Proposal>)
    ensures SumOfTotals(proposals, StatsOrder) ==
      CountTimesActionRequired(proposals, DoNothing).total + CountTimesActionRequired(proposals, Create).total +
      CountTimesActionRequired(proposals, Update).total + CountTimesActionRequired(proposals, Replace).total +
      CountTimesActionRequired(proposals, Destroy).total
  {
    var s := StatsOrder;
    assert s[1..][1..][1..][1..][1..] == [];
    assert SumOfTotals(proposals, s[1..][1..][1..][1..]) == CountTimesActionRequired(proposals, Destroy).total;
    assert SumOfTotals(proposals, s[1..][1..][1..]) ==
      CountTimesActionRequired(proposals, Replace).total + SumOfTotals(proposals, s[1..][1..][1..][1..]);
    assert SumOfTotals(proposals, s[1..][1..]) ==
      CountTimesActionRequired(proposals, Update).total + SumOfTotals(proposals, s[1..][1..][1..]);
    assert SumOfTotals(proposals, s[1..]) ==
      CountTimesActionRequired(proposals, Create).total + SumOfTotals(proposals, s[1..][1..]);
  }

  /** The sum of the rows' totals. */
  function TotalOf(rows: seq<SummaryRow>): nat {
    if rows == [] then 0 else rows[0].total + TotalOf(rows[1..])
  }

  /** Leaving out the rows with a zero total does not change the sum. */
  lemma {:induction false} RowsTotal(proposals: seq<Proposal>, actions: seq<ProposalAction>)
    ensures TotalOf(RowsFor(proposals, actions)) == SumOfTotals(proposals, actions)
  {
    if actions != [] {
      RowsTotal(proposals, actions[1..]);
    }
  }

  /** The sum of the actions' totals. */
  function SumOfTotals(proposals: seq<Proposal>, actions: seq<ProposalAction>): nat {
    if actions == [] then 0
    else CountTimesActionRequired(proposals, actions[0]).total + SumOfTotals(proposals, actions[1..])
  }

  /* ------------------------------------------------------------ the plan */

  /** What the plan command reports besides the proposals it returns. */
  datatype PlanReport = PlanReport(
    proposals: seq<Proposal>,
    /** "Everything is up to date": full detail asked for and nothing to change; nothing else is shown. */
    upToDate: bool,
    /** The proposals listed one by one with their differences: full detail only. */
    detailed: seq<Proposal>,
    summary: seq<SummaryRow>)

  /** The proposals that change something, in order. */
  function WithChange(proposals: seq<Proposal>): (r: seq<Proposal>)
    ensures forall p <- r :: p in proposals && p.action != DoNothing
    ensures forall p <- proposals :: p.action != DoNothing ==> p in r
    ensures r == [] <==> forall p <- proposals :: p.action == DoNothing
  {
    if proposals == [] then []
    else
      var last := proposals[|proposals| - 1];
      var init := WithChange(proposals[..|proposals| - 1]);
      assert forall p <- proposals :: p in proposals[..|proposals| - 1] || p == last;
      if last.action == DoNothing then init else init + [last]
  }

  /** Making the proposal for one resource. */
  type Proposer = Declared -> Result<Proposal, LegacyError>

  /** `proposeChangeForResource` against one context and remote state. */
  function ProposerFor(fuel: nat, context: GlobalContext, store: LegacyStore, detect: Detector): (propose: Proposer)
    ensures forall d :: propose(d) == ProposeChangeForResource(fuel, d, context, store, detect)
  {
    (d: Declared) => ProposeChangeForResource(fuel, d, context, store, detect)
  }

  /**
   * The proposals of the resources in order (planning runs one resource at
   * a time), or the error of the first resource whose proposal fails.
   */
  function ProposeAll(resources: seq<Declared>, propose: Proposer): (r: Result<seq<Proposal>, LegacyError>)
    ensures r.Success? ==>
      |r.value| == |resources| && forall i :: 0 <= i < |resources| ==> propose(resources[i]) == Success(r.value[i])
  {
    if resources == [] then Success([])
    else
      var init := resources[..|resources| - 1];
      match ProposeAll(init, propose)
      case Failure(e) => Failure(e)
      case Success(ps) =>
        match propose(resources[|resources| - 1])
        case Failure(e) => Failure(e)
        case Success(p) =>
          assert forall i :: 0 <= i < |init| ==> resources[i] == init[i];
          Success(ps + [p])
  }

  /** Resource `i`'s proposal fails, and those of every resource before it succeed. */
  predicate FirstFailing(resources: seq<Declared>, propose: Proposer, i: int) {
    0 <= i < |resources| && propose(resources[i]).Failure? &&
    forall j :: 0 <= j < i ==> propose(resources[j]).Success?
  }

  /** A failed planning run fails with the error of the first resource whose proposal fails. */
  lemma {:induction false} ProposeAllFailsAtFirst(resources: seq<Declared>, propose: Proposer)
    requires ProposeAll(resources, propose).Failure?
    ensures exists i :: FirstFailing(resources, propose, i) && propose(resources[i]) == Failure(ProposeAll(resources, propose).error)
  {
    var init := resources[..|resources| - 1];
    assert forall i :: 0 <= i < |init| ==> resources[i] == init[i];
    if ProposeAll(init, propose).Failure? {
      ProposeAllFailsAtFirst(init, propose);
      var i :| FirstFailing(init, propose, i) && propose(init[i]) == Failure(ProposeAll(init, propose).error);
      assert FirstFailing(resources, propose, i);
    } else {
      assert FirstFailing(resources, propose, |resources| - 1);
    }
  }

  /** Once a resource's proposal has failed, the resources after it do not change the outcome. */
  lemma {:induction false} ProposeAllStopsAtFailure(resources: seq<Declared>, k: nat, propose: Proposer)
    requires k <= |resources|
    requires ProposeAll(resources[..k], propose).Failure?
    ensures ProposeAll(resources, propose) == ProposeAll(resources[..k], propose)
  {
    if k < |resources| {
      var init := resources[..|resources| - 1];
      assert init[..k] == resources[..k];
      ProposeAllStopsAtFailure(init, k, propose);
    } else {
      assert resources[..k] == resources;
    }
  }

  /**
   * The report of `planChanges` for proposals already made: in full-detail
   * mode with nothing to change, only "up to date"; otherwise the changing
   * proposals listed (full detail only) and the summary rows.
   */
  function Report(proposals: seq<Proposal>, inFullDetail: bool): (r: PlanReport)
    ensures r.proposals == proposals
    ensures r.upToDate <==> inFullDetail && forall p <- proposals :: p.action == DoNothing
    ensures r.upToDate ==> r.detailed == [] && r.summary == []
    ensures !r.upToDate ==> r.summary == SummaryRows(proposals)
    ensures !inFullDetail ==> r.detailed == []
    ensures inFullDetail ==> forall p <- r.detailed :: p in proposals && p.action != DoNothing
    ensures inFullDetail ==> forall p <- proposals :: p.action != DoNothing ==> p in r.detailed
  {
    var changing := WithChange(proposals);
    if inFullDetail && changing == [] then PlanReport(proposals, true, [], [])
    else PlanReport(proposals, false, if inFullDetail then changing else [], SummaryRows(proposals))
  }

  /**
   * `planChanges`: propose a change for each resource, one at a time and in
   * order, then report; the first failing resource fails the command.
   */
  method PlanChanges(fuel: nat, resources: seq<Declared>, inFullDetail: bool, context: GlobalContext,
                     store: LegacyStore, detect: Detector)
    returns (r: Result<PlanReport, LegacyError>)
    ensures var all := ProposeAll(resources, ProposerFor(fuel, context, store, detect));
      (all.Failure? ==> r == Failure(all.error)) &&
      (all.Success? ==> r == Success(Report(all.value, inFullDetail)))
  {
    var all := ProposeEach(resources, ProposerFor(fuel, context, store, detect));
    if all.Failure? {
      return Failure(all.error);
    }
    return Success(Report(all.value, inFullDetail));
  }

  /** The loop over the resources, one proposal at a time, stopping at the first that fails. */
  method ProposeEach(resources: seq<Declared>, propose: Proposer) returns (r: Result<seq<Proposal>, LegacyError>)
    ensures r == ProposeAll(resources, propose)
  {
    var proposals: seq<Proposal> := [];
    var i := 0;
    while i < |resources|
      invariant 0 <= i <= |resources|
      invariant ProposeAll(resources[..i], propose) == Success(proposals)
    {
      assert resources[..i + 1][..i] == resources[..i];
      var proposal := propose(resources[i]);
      if proposal.Failure? {
        ProposeAllStopsAtFailure(resources, i + 1, propose);
        return Failure(proposal.error);
      }
      proposals := proposals + [proposal.value];
      i := i + 1;
    }
    assert resources[..i] == resources;
    return Success(proposals);
  }
}
