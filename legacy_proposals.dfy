/**
 * Legacy change proposals: deciding what to do about one declared
 * resource, executing a proposal against the remote state one interface
 * call at a time, and applying a list of proposals in order.
 */
module LegacyProposals {
  import opened Wrappers
  import opened Values
  import opened LegacyReferences
  import opened LegacyProviders
  import opened LegacyLookups
  import opened LegacyComparable
  import opened LegacyGrokable

  /** `DeclastructChangeProposalAction`. */
  datatype ProposalAction = DoNothing | Create | Update | Destroy | Replace

  /**
   * What the difference detector reports: the usable diff, as the entries
   * of each change category, and the displayable diff text.
   */
  datatype Difference = Difference(usable: seq<seq<Field>>, displayable: string)

  /** `DeclastructChangeProposal`. */
  datatype Proposal = Proposal(
    forResourceClassName: string,
    forGrokableIdentifier: string,
    fromRemoteState: Option<Declared>,
    toDesiredState: Option<Declared>,
    action: ProposalAction,
    difference: Option<string>)

  /** The difference detector, a foreign call: a function of the desired and the remote state. */
  type Detector = (Declared, Option<Declared>) -> Difference

  /** Every change category of the usable diff is empty. */
  predicate NoChanges(diff: Difference) {
    forall i :: 0 <= i < |diff.usable| ==> |diff.usable[i]| == 0
  }

  /** Both states are present, they are not the same, and the diff reports a change. */
  predicate Changed(desired: Option<Declared>, remote: Option<Declared>, diff: Difference) {
    desired.Some? && remote.Some? && desired != remote && !NoChanges(diff)
  }

  /**
   * The action-deciding block of `proposeChangeForResource`: the same state
   * on both sides, or present on both sides with no usable change, is
   * DO_NOTHING; a missing remote state is CREATE; a missing desired state is
   * DESTROY; a change is UPDATE when the routed interface defines `update`,
   * REPLACE otherwise, and a routing error then propagates.
   */
  function ChooseAction(desired: Option<Declared>, remote: Option<Declared>, diff: Difference, context: GlobalContext)
    : (r: Result<ProposalAction, LegacyError>)
    ensures r == Success(DoNothing) <==> desired == remote || (desired.Some? && remote.Some? && NoChanges(diff))
    ensures r == Success(Create) <==> desired != remote && remote.None?
    ensures r == Success(Destroy) <==> remote.Some? && desired.None?
    ensures r == Success(Update) <==> Changed(desired, remote, diff) && CanUpdateResource(desired.value, context) == Success(true)
    ensures r == Success(Replace) <==> Changed(desired, remote, diff) && CanUpdateResource(desired.value, context) == Success(false)
    ensures r.Failure? <==> Changed(desired, remote, diff) && CanUpdateResource(desired.value, context).Failure?
    ensures r.Failure? ==> r.error == CanUpdateResource(desired.value, context).error
  {
    if desired == remote then Success(DoNothing)
    else if remote.None? then Success(Create)
    else if desired.None? then Success(Destroy)
    else if NoChanges(diff) then Success(DoNothing)
    else
      match CanUpdateResource(desired.value, context)
      case Failure(e) => Failure(e)
      case Success(canUpdate) => if canUpdate then Success(Update) else Success(Replace)
  }

  /**
   * `proposeChangeForResource`: fetch the remote state through the desired
   * resource's own reference, detect the difference, decide the action,
   * name the resource by its grokable string, and assemble the proposal;
   * the difference is left out exactly for DO_NOTHING. Each step's error
   * propagates, in that order.
   */
  function ProposeChangeForResource(fuel: nat, desired: Declared, context: GlobalContext, store: LegacyStore, detect: Detector)
    : (r: Result<Proposal, LegacyError>)
    ensures GetReferenceTo(desired).Failure? ==> r == Failure(GetReferenceTo(desired).error)
    ensures GetReferenceTo(desired).Success? && GetByReference(GetReferenceTo(desired).value, context, store).Failure? ==>
      r == Failure(GetByReference(GetReferenceTo(desired).value, context, store).error)
    ensures GetReferenceTo(desired).Success? && GetByReference(GetReferenceTo(desired).value, context, store).Success? ==>
      var ref := GetReferenceTo(desired).value;
      var remote := GetByReference(ref, context, store).value;
      var action := ChooseAction(Some(desired), remote, detect(desired, remote), context);
      var grokable := GrokableString(fuel, ref, ByReference(context, store));
      (action.Failure? ==> r == Failure(action.error)) &&
      (action.Success? && grokable.Failure? ==> r == Failure(grokable.error)) &&
      (action.Success? && grokable.Success? ==> r.Success? && r.value.forGrokableIdentifier == grokable.value)
    ensures r.Success? ==>
      GetReferenceTo(desired).Success? &&
      GetByReference(GetReferenceTo(desired).value, context, store) == Success(r.value.fromRemoteState) &&
      ChooseAction(Some(desired), r.value.fromRemoteState, detect(desired, r.value.fromRemoteState), context) == Success(r.value.action) &&
      r.value.toDesiredState == Some(desired) &&
      r.value.forResourceClassName == desired.cls.name &&
      StartsWith(r.value.forGrokableIdentifier, desired.cls.name) &&
      (r.value.difference.None? <==> r.value.action == DoNothing) &&
      (r.value.difference.Some? ==> r.value.difference.value == detect(desired, r.value.fromRemoteState).displayable)
  {
    match GetReferenceTo(desired)
    case Failure(e) => Failure(e)
    case Success(ref) =>
      match GetByReference(ref, context, store)
      case Failure(e) => Failure(e)
      case Success(remote) =>
        var diff := detect(desired, remote);
        match ChooseAction(Some(desired), remote, diff, context)
        case Failure(e) => Failure(e)
        case Success(action) =>
          match GrokableString(fuel, ref, ByReference(context, store))
          case Failure(e) => Failure(e)
          case Success(grokable) =>
            Success(Proposal(desired.cls.name, grokable, remote, Some(desired), action,
                             if action == DoNothing then None else Some(diff.displayable)))
  }

  /** A proposal for a declared resource never destroys: the desired state is always present. */
  lemma ProposalNeverDestroys(fuel: nat, desired: Declared, context: GlobalContext, store: LegacyStore, detect: Detector)
    requires ProposeChangeForResource(fuel, desired, context, store, detect).Success?
    ensures ProposeChangeForResource(fuel, desired, context, store, detect).value.action != Destroy
  {
    var p := ProposeChangeForResource(fuel, desired, context, store, detect).value;
    assert ChooseAction(Some(desired), p.fromRemoteState, detect(desired, p.fromRemoteState), context) == Success(p.action);
  }

  /** When the remote state found is the desired state itself, the proposal is DO_NOTHING with no difference. */
  lemma SameStateDoesNothing(fuel: nat, desired: Declared, context: GlobalContext, store: LegacyStore, detect: Detector)
    requires GetReferenceTo(desired).Success?
    requires GetByReference(GetReferenceTo(desired).value, context, store) == Success(Some(desired))
    requires ProposeChangeForResource(fuel, desired, context, store, detect).Success?
    ensures ProposeChangeForResource(fuel, desired, context, store, detect).value.action == DoNothing
    ensures ProposeChangeForResource(fuel, desired, context, store, detect).value.difference == None
  {
    var p := ProposeChangeForResource(fuel, desired, context, store, detect).value;
    assert p.fromRemoteState == Some(desired);
    assert ChooseAction(Some(desired), Some(desired), detect(desired, Some(desired)), context) == Success(DoNothing);
  }

  /** When nothing is stored under the desired resource's reference, the proposal is CREATE. */
  lemma MissingRemoteCreates(fuel: nat, desired: Declared, context: GlobalContext, store: LegacyStore, detect: Detector)
    requires GetReferenceTo(desired).Success?
    requires GetByReference(GetReferenceTo(desired).value, context, store) == Success(None)
    requires ProposeChangeForResource(fuel, desired, context, store, detect).Success?
    ensures ProposeChangeForResource(fuel, desired, context, store, detect).value.action == Create
    ensures ProposeChangeForResource(fuel, desired, context, store, detect).value.fromRemoteState == None
    ensures ProposeChangeForResource(fuel, desired, context, store, detect).value.difference ==
      Some(detect(desired, None).displayable)
  {
    var p := ProposeChangeForResource(fuel, desired, context, store, detect).value;
    assert p.fromRemoteState == None;
    assert ChooseAction(Some(desired), None, detect(desired, None), context) == Success(Create);
  }

  /* ------------------------------------------------------------ the remote state */

  /**
   * An interface's `findByUnique`, handed a whole resource: the first stored
   * resource of the interface's class matching the resource's unique key.
   * A unique key that can not be built is an error.
   */
  function FindByUnique(iface: RemoteInterface, store: LegacyStore, resource: Declared): (r: Result<Option<Declared>, LegacyError>)
    ensures BuildUniqueKeyTo(resource.cls, resource.fields).Failure? ==> r == Failure(BuildUniqueKeyTo(resource.cls, resource.fields).error)
    ensures BuildUniqueKeyTo(resource.cls, resource.fields).Success? ==>
      r == Success(Find(iface, store, BuildUniqueKeyTo(resource.cls, resource.fields).value))
  {
    match BuildUniqueKeyTo(resource.cls, resource.fields)
    case Failure(e) => Failure(e)
    case Success(key) => Success(Find(iface, store, key))
  }

  /** An interface's `update`: every stored resource of its class matching the unique key takes the new state. */
  function Overwrite(iface: RemoteInterface, store: LegacyStore, key: seq<Field>, resource: Declared): (r: LegacyStore)
    ensures |r| == |store|
    ensures forall i :: 0 <= i < |store| ==>
      r[i] == (if MatchesKey(store[i], iface.forClass, key) then resource else store[i])
  {
    if store == [] then []
    else [if MatchesKey(store[0], iface.forClass, key) then resource else store[0]] + Overwrite(iface, store[1..], key, resource)
  }

  /** The remote state every interface reads and writes. */
  class LegacyRemote {
    var rows: LegacyStore

    constructor (initial: LegacyStore)
      ensures rows == initial
    {
      rows := initial;
    }

    /** An interface's `create`: the new resource is stored after every other. */
    method Create(resource: Declared)
      modifies this
      ensures rows == old(rows) + [resource]
    {
      rows := rows + [resource];
    }

    /** An interface's `update`, by the resource's unique key. */
    method Update(iface: RemoteInterface, key: seq<Field>, resource: Declared)
      modifies this
      ensures rows == Overwrite(iface, old(rows), key, resource)
    {
      rows := Overwrite(iface, rows, key, resource);
    }
  }

  /** `proposal.toDesiredState ?? proposal.fromRemoteState`: the resource that routes the proposal. */
  function RoutedBy(proposal: Proposal): (v: Value)
    ensures proposal.toDesiredState.Some? ==> v == proposal.toDesiredState.value
    ensures proposal.toDesiredState.None? && proposal.fromRemoteState.Some? ==> v == proposal.fromRemoteState.value
    ensures proposal.toDesiredState.None? && proposal.fromRemoteState.None? ==> v == Null
  {
    if proposal.toDesiredState.Some? then proposal.toDesiredState.value
    else if proposal.fromRemoteState.Some? then proposal.fromRemoteState.value
    else Null
  }

  /** The second half of CREATE: after `create`, re-read, and a resource still missing is an error. */
  function CreateThenFind(iface: RemoteInterface, store: LegacyStore, desired: Declared)
    : (o: (Result<Declared, LegacyError>, LegacyStore))
    ensures o.1 == store + [desired]
    ensures var again := FindByUnique(iface, store + [desired], desired);
      (again.Failure? ==> o.0 == Failure(again.error)) &&
      (again == Success(None) ==> o.0 == Failure(MissingAfterCreate)) &&
      (again.Success? && again.value.Some? ==> o.0 == Success(again.value.value))
  {
    var after := store + [desired];
    match FindByUnique(iface, after, desired)
    case Failure(e) => (Failure(e), after)
    case Success(None) => (Failure(MissingAfterCreate), after)
    case Success(Some(found)) => (Success(found), after)
  }

  /**
   * What `executeProposal` returns and leaves in the remote state: route by
   * the desired state, else the remote state; DO_NOTHING re-reads and fails
   * when the resource is missing; CREATE returns what is already there, or
   * creates and re-reads; UPDATE needs the interface's `update`; DESTROY
   * and REPLACE are unsupported.
   */
  function ExecuteOutcome(proposal: Proposal, context: GlobalContext, store: LegacyStore)
    : (o: (Result<Declared, LegacyError>, LegacyStore))
    ensures ExecutionDependencies(RoutedBy(proposal), context).Failure? ==>
      o == (Failure(ExecutionDependencies(RoutedBy(proposal), context).error), store)
    ensures proposal.action != Create && proposal.action != Update ==> o.1 == store
    ensures proposal.action.Destroy? || proposal.action.Replace? ==> o.0.Failure?
    ensures ExecutionDependencies(RoutedBy(proposal), context).Success? ==>
      var iface := ExecutionDependencies(RoutedBy(proposal), context).value.0;
      (proposal.action.Destroy? || proposal.action.Replace? ==> o.0 == Failure(UnsupportedProposalAction)) &&
      (proposal.action == Update && !iface.hasUpdate ==> o == (Failure(UpdateNotSupported), store)) &&
      (proposal.action == Create && proposal.toDesiredState.Some? ==>
        var found := FindByUnique(iface, store, proposal.toDesiredState.value);
        (found.Success? && found.value.Some? ==> o == (Success(found.value.value), store)) &&
        (found == Success(None) ==> o.1 == store + [proposal.toDesiredState.value])) &&
      (proposal.action == DoNothing && proposal.toDesiredState.Some? ==>
        var found := FindByUnique(iface, store, proposal.toDesiredState.value);
        (found == Success(None) ==> o.0 == Failure(MissingForDoNothing)) &&
        (found.Success? && found.value.Some? ==> o.0 == Success(found.value.value)))
  {
    match ExecutionDependencies(RoutedBy(proposal), context)
    case Failure(e) => (Failure(e), store)
    case Success(deps) =>
      var iface := deps.0;
      match proposal.action
      case DoNothing =>
        if proposal.toDesiredState.None? then (Failure(NoDesiredState), store)
        else
          (match FindByUnique(iface, store, proposal.toDesiredState.value)
           case Failure(e) => (Failure(e), store)
           case Success(None) => (Failure(MissingForDoNothing), store)
           case Success(Some(found)) => (Success(found), store))
      case Create =>
        if proposal.toDesiredState.None? then (Failure(NoDesiredState), store)
        else
          var desired := proposal.toDesiredState.value;
          (match FindByUnique(iface, store, desired)
           case Failure(e) => (Failure(e), store)
           case Success(Some(found)) => (Success(found), store)
           case Success(None) => CreateThenFind(iface, store, desired))
      case Update =>
        if !iface.hasUpdate then (Failure(UpdateNotSupported), store)
        else if proposal.toDesiredState.None? then (Failure(NoDesiredState), store)
        else
          var desired := proposal.toDesiredState.value;
          (match BuildUniqueKeyTo(desired.cls, desired.fields)
           case Failure(e) => (Failure(e), store)
           case Success(key) => (Success(desired), Overwrite(iface, store, key, desired)))
      case Destroy => (Failure(UnsupportedProposalAction), store)
      case Replace => (Failure(UnsupportedProposalAction), store)
  }

  /**
   * Every branch of `executeProposal` once the interface is found: the
   * missing desired state, the DO_NOTHING re-read, CREATE returning what is
   * found or creating and re-reading (a resource still missing is an
   * error), and UPDATE returning the desired state after the interface's
   * `update` by its unique key.
   */
  lemma ExecuteBranches(proposal: Proposal, context: GlobalContext, store: LegacyStore)
    requires ExecutionDependencies(RoutedBy(proposal), context).Success?
    ensures var iface := ExecutionDependencies(RoutedBy(proposal), context).value.0;
      var o := ExecuteOutcome(proposal, context, store);
      (proposal.toDesiredState.None? &&
       (proposal.action == DoNothing || proposal.action == Create || (proposal.action == Update && iface.hasUpdate))
       ==> o == (Failure(NoDesiredState), store)) &&
      (proposal.action == Create && proposal.toDesiredState.Some? ==>
        var desired := proposal.toDesiredState.value;
        var found := FindByUnique(iface, store, desired);
        (found.Failure? ==> o == (Failure(found.error), store)) &&
        (found.Success? && found.value.Some? ==> o == (Success(found.value.value), store)) &&
        (found == Success(None) ==>
          var again := FindByUnique(iface, store + [desired], desired);
          o.1 == store + [desired] &&
          (again == Success(None) ==> o.0 == Failure(MissingAfterCreate)) &&
          (again.Success? && again.value.Some? ==> o.0 == Success(again.value.value)))) &&
      (proposal.action == Update && iface.hasUpdate && proposal.toDesiredState.Some? ==>
        var desired := proposal.toDesiredState.value;
        var key := BuildUniqueKeyTo(desired.cls, desired.fields);
        (key.Failure? ==> o == (Failure(key.error), store)) &&
        (key.Success? ==> o == (Success(desired), Overwrite(iface, store, key.value, desired)))) &&
      (proposal.action == DoNothing && proposal.toDesiredState.Some? ==>
        var found := FindByUnique(iface, store, proposal.toDesiredState.value);
        (found.Failure? ==> o.0 == Failure(found.error)) &&
        (found == Success(None) ==> o.0 == Failure(MissingForDoNothing)) &&
        (found.Success? && found.value.Some? ==> o.0 == Success(found.value.value)))
  {
  }

  /** `executeProposal`, one interface call at a time against the remote state. */
  method ExecuteProposal(remote: LegacyRemote, proposal: Proposal, context: GlobalContext)
    returns (r: Result<Declared, LegacyError>)
    modifies remote
    ensures (r, remote.rows) == ExecuteOutcome(proposal, context, old(remote.rows))
  {
    var deps := ExecutionDependencies(RoutedBy(proposal), context);
    if deps.Failure? {
      return Failure(deps.error);
    }
    var iface := deps.value.0;
    if proposal.action == DoNothing {
      if proposal.toDesiredState.None? {
        return Failure(NoDesiredState);
      }
      var found := FindByUnique(iface, remote.rows, proposal.toDesiredState.value);
      if found.Failure? {
        return Failure(found.error);
      }
      if found.value.None? {
        return Failure(MissingForDoNothing);
      }
      return Success(found.value.value);
    }
    if proposal.action == Create {
      if proposal.toDesiredState.None? {
        return Failure(NoDesiredState);
      }
      var desired := proposal.toDesiredState.value;
      var found := FindByUnique(iface, remote.rows, desired);
      if found.Failure? {
        return Failure(found.error);
      }
      if found.value.Some? {
        return Success(found.value.value);
      }
      remote.Create(desired);
      var foundNow := FindByUnique(iface, remote.rows, desired);
      if foundNow.Failure? {
        return Failure(foundNow.error);
      }
      if foundNow.value.None? {
        return Failure(MissingAfterCreate);
      }
      return Success(foundNow.value.value);
    }
    if proposal.action == Update {
      if !iface.hasUpdate {
        return Failure(UpdateNotSupported);
      }
      if proposal.toDesiredState.None? {
        return Failure(NoDesiredState);
      }
      var desired := proposal.toDesiredState.value;
      var key := BuildUniqueKeyTo(desired.cls, desired.fields);
      if key.Failure? {
        return Failure(key.error);
      }
      remote.Update(iface, key.value, desired);
      return Success(desired);
    }
    return Failure(UnsupportedProposalAction);
  }

  /** A lookup that finds something keeps finding the same thing when resources are stored after it. */
  lemma {:induction false} FindKeepsFirstMatch(iface: RemoteInterface, store: LegacyStore, more: LegacyStore, key: seq<Field>)
    requires Find(iface, store, key).Some?
    ensures Find(iface, store + more, key) == Find(iface, store, key)
  {
    assert store != [];
    if !MatchesKey(store[0], iface.forClass, key) {
      assert (store + more)[1..] == store[1..] + more;
      FindKeepsFirstMatch(iface, store[1..], more, key);
    }
  }

  /** A resource routed to an interface of its own class is found by its own unique key once stored. */
  lemma CreatedIsFound(iface: RemoteInterface, store: LegacyStore, desired: Declared)
    requires iface.forClass == desired.cls.name
    requires BuildUniqueKeyTo(desired.cls, desired.fields).Success?
    requires Find(iface, store, BuildUniqueKeyTo(desired.cls, desired.fields).value).None?
    ensures FindByUnique(iface, store + [desired], desired) == Success(Some(desired))
  {
    var keys := DefineReferenceKeyConstituentsOf(desired.cls).value;
    var key := BuildUniqueKeyTo(desired.cls, desired.fields).value;
    assert key == Pick(desired.fields, keys.unique);
    MatchesOwnKey(desired, keys.unique);
    var after := store + [desired];
    assert forall i :: 0 <= i < |store| ==> after[i] == store[i];
    assert after[|store|] == desired;
    FindsSoleMatch(iface, after, key, desired);
  }

  /**
   * CREATE when the interface serves the resource's own class never fails
   * with "could not find resource after creating it".
   */
  lemma CreateFindsWhatItCreated(proposal: Proposal, context: GlobalContext, store: LegacyStore)
    requires proposal.action == Create && proposal.toDesiredState.Some?
    requires ExecutionDependencies(RoutedBy(proposal), context).Success?
    requires ExecutionDependencies(RoutedBy(proposal), context).value.0.forClass == proposal.toDesiredState.value.cls.name
    ensures ExecuteOutcome(proposal, context, store).0 != Failure(MissingAfterCreate)
  {
    var iface := ExecutionDependencies(RoutedBy(proposal), context).value.0;
    var desired := proposal.toDesiredState.value;
    var found := FindByUnique(iface, store, desired);
    if found == Success(None) {
      CreatedIsFound(iface, store, desired);
    }
  }

  /**
   * Running a CREATE proposal a second time, against the state the first
   * run left, writes nothing and returns the same resource: the resource
   * is created at most once.
   */
  lemma CreateTwiceCreatesOnce(proposal: Proposal, context: GlobalContext, store: LegacyStore)
    requires proposal.action == Create
    requires ExecuteOutcome(proposal, context, store).0.Success?
    ensures var (first, after) := ExecuteOutcome(proposal, context, store);
      ExecuteOutcome(proposal, context, after) == (first, after)
  {
    var iface := ExecutionDependencies(RoutedBy(proposal), context).value.0;
    var desired := proposal.toDesiredState.value;
    var key := BuildUniqueKeyTo(desired.cls, desired.fields).value;
    if Find(iface, store, key).None? {
      var after := store + [desired];
      assert Find(iface, after, key).Some?;
      assert FindByUnique(iface, after, desired) == Success(Find(iface, after, key));
      FindKeepsFirstMatch(iface, after, [desired], key);
    }
  }

  /* ------------------------------------------------------------ applying */

  /** `applyChanges` runs only CREATE and UPDATE proposals. */
  predicate CanApply(action: ProposalAction) {
    action == Create || action == Update
  }

  /**
   * Where `applyChanges` stands: the first error thrown (if any), the
   * remote state, and the proposals it logged as skipped.
   */
  datatype ApplyState = ApplyState(thrown: Option<LegacyError>, store: LegacyStore, logged: seq<Proposal>)

  /** One iteration: DO_NOTHING silently, DESTROY and REPLACE logged, the rest executed. */
  function ApplyStep(st: ApplyState, proposal: Proposal, context: GlobalContext): (next: ApplyState)
    ensures !CanApply(proposal.action) ==> next.store == st.store && next.thrown == st.thrown
    ensures proposal.action == DoNothing ==> next == st
  {
    if proposal.action == DoNothing then st
    else if !CanApply(proposal.action) then st.(logged := st.logged + [proposal])
    else
      var (r, after) := ExecuteOutcome(proposal, context, st.store);
      if r.Failure? then ApplyState(Some(r.error), after, st.logged)
      else st.(store := after)
  }

  /**
   * The loop of `applyChanges` over the proposals, in order: once a
   * proposal's execution throws, later proposals are never attempted and
   * the writes made so far stay.
   */
  function ApplyWalk(proposals: seq<Proposal>, context: GlobalContext, store: LegacyStore): ApplyState
  {
    if proposals == [] then ApplyState(None, store, [])
    else
      var prev := ApplyWalk(proposals[..|proposals| - 1], context, store);
      if prev.thrown.Some? then prev
      else ApplyStep(prev, proposals[|proposals| - 1], context)
  }

  /** `applyChanges`: a sequential loop over the proposals against the remote state. */
  method ApplyChanges(remote: LegacyRemote, proposals: seq<Proposal>, context: GlobalContext)
    returns (thrown: Option<LegacyError>, logged: seq<Proposal>)
    modifies remote
    ensures ApplyState(thrown, remote.rows, logged) == ApplyWalk(proposals, context, old(remote.rows))
  {
    logged := [];
    var i := 0;
    while i < |proposals|
      invariant 0 <= i <= |proposals|
      invariant ApplyState(None, remote.rows, logged) == ApplyWalk(proposals[..i], context, old(remote.rows))
    {
      var proposal := proposals[i];
      assert proposals[..i + 1][..i] == proposals[..i];
      if proposal.action == DoNothing {
        i := i + 1;
        continue;
      }
      if !CanApply(proposal.action) {
        logged := logged + [proposal];
        i := i + 1;
        continue;
      }
      var r := ExecuteProposal(remote, proposal, context);
      if r.Failure? {
        ApplyStopsAtFailure(proposals, i + 1, context, old(remote.rows));
        return Some(r.error), logged;
      }
      i := i + 1;
    }
    assert proposals[..i] == proposals;
    return None, logged;
  }

  /** Once an execution has thrown, the rest of the proposals change nothing. */
  lemma {:induction false} ApplyStopsAtFailure(proposals: seq<Proposal>, k: nat, context: GlobalContext, store: LegacyStore)
    requires k <= |proposals|
    requires ApplyWalk(proposals[..k], context, store).thrown.Some?
    ensures ApplyWalk(proposals, context, store) == ApplyWalk(proposals[..k], context, store)
  {
    if k < |proposals| {
      var init := proposals[..|proposals| - 1];
      assert init[..k] == proposals[..k];
      ApplyStopsAtFailure(init, k, context, store);
    } else {
      assert proposals[..k] == proposals;
    }
  }

  /** The DESTROY and REPLACE proposals, in order. */
  function Skipped(proposals: seq<Proposal>): (r: seq<Proposal>)
    ensures |r| <= |proposals|
    ensures forall p <- r :: p in proposals && (p.action.Destroy? || p.action.Replace?)
  {
    if proposals == [] then []
    else
      var last := proposals[|proposals| - 1];
      var init := Skipped(proposals[..|proposals| - 1]);
      assert forall p <- proposals[..|proposals| - 1] :: p in proposals;
      if last.action.Destroy? || last.action.Replace? then init + [last] else init
  }

  /** A run that throws nothing logs exactly the DESTROY and REPLACE proposals, in order. */
  lemma {:induction false} ApplyLogsSkipped(proposals: seq<Proposal>, context: GlobalContext, store: LegacyStore)
    requires ApplyWalk(proposals, context, store).thrown.None?
    ensures ApplyWalk(proposals, context, store).logged == Skipped(proposals)
  {
    if proposals != [] {
      ApplyLogsSkipped(proposals[..|proposals| - 1], context, store);
    }
  }

  /** Proposals none of which is CREATE or UPDATE leave the remote state untouched and throw nothing. */
  lemma {:induction false} NothingToApply(proposals: seq<Proposal>, context: GlobalContext, store: LegacyStore)
    requires forall p <- proposals :: !CanApply(p.action)
    ensures ApplyWalk(proposals, context, store).store == store
    ensures ApplyWalk(proposals, context, store).thrown.None?
  {
    if proposals != [] {
      assert forall p <- proposals[..|proposals| - 1] :: p in proposals;
      NothingToApply(proposals[..|proposals| - 1], context, store);
    }
  }

  /** The proposal's resource is already in the remote state, as its CREATE would find it. */
  predicate AlreadyThere(proposal: Proposal, context: GlobalContext, store: LegacyStore) {
    proposal.toDesiredState.Some? &&
    ExecutionDependencies(RoutedBy(proposal), context).Success? &&
    var found := FindByUnique(ExecutionDependencies(RoutedBy(proposal), context).value.0, store, proposal.toDesiredState.value);
    found.Success? && found.value.Some?
  }

  /**
   * One successful CREATE keeps in place whatever was already there, and
   * puts its own resource in place.
   */
  lemma CreateKeepsResources(last: Proposal, context: GlobalContext, mid: LegacyStore)
    requires last.action == Create
    requires ExecuteOutcome(last, context, mid).0.Success?
    ensures mid <= ExecuteOutcome(last, context, mid).1
    ensures AlreadyThere(last, context, ExecuteOutcome(last, context, mid).1)
    ensures forall p :: AlreadyThere(p, context, mid) ==> AlreadyThere(p, context, ExecuteOutcome(last, context, mid).1)
  {
    var after := ExecuteOutcome(last, context, mid).1;
    var iface := ExecutionDependencies(RoutedBy(last), context).value.0;
    var desired := last.toDesiredState.value;
    var key := BuildUniqueKeyTo(desired.cls, desired.fields).value;
    if Find(iface, mid, key).None? {
      assert after == mid + [desired];
      forall p | AlreadyThere(p, context, mid)
        ensures AlreadyThere(p, context, after)
      {
        var pf := ExecutionDependencies(RoutedBy(p), context).value.0;
        var pd := p.toDesiredState.value;
        FindKeepsFirstMatch(pf, mid, [desired], BuildUniqueKeyTo(pd.cls, pd.fields).value);
      }
    }
  }

  /** The last step of a walk that threw nothing, when that step is a CREATE. */
  lemma WalkCreateStep(proposals: seq<Proposal>, context: GlobalContext, store: LegacyStore)
    requires proposals != [] && proposals[|proposals| - 1].action == Create
    requires ApplyWalk(proposals, context, store).thrown.None?
    ensures var prev := ApplyWalk(proposals[..|proposals| - 1], context, store);
      var (r, after) := ExecuteOutcome(proposals[|proposals| - 1], context, prev.store);
      prev.thrown.None? && r.Success? && ApplyWalk(proposals, context, store).store == after
  {
    var last := proposals[|proposals| - 1];
    var prev := ApplyWalk(proposals[..|proposals| - 1], context, store);
    assert prev.thrown.None?;
    assert ApplyWalk(proposals, context, store) == ApplyStep(prev, last, context);
  }

  /** Applying CREATE proposals only appends, and leaves every one of their resources in place. */
  lemma {:induction false} CreatesLeaveResources(proposals: seq<Proposal>, context: GlobalContext, store: LegacyStore)
    requires forall p <- proposals :: p.action == Create
    requires ApplyWalk(proposals, context, store).thrown.None?
    ensures store <= ApplyWalk(proposals, context, store).store
    ensures forall p <- proposals :: AlreadyThere(p, context, ApplyWalk(proposals, context, store).store)
  {
    if proposals != [] {
      var init := proposals[..|proposals| - 1];
      var last := proposals[|proposals| - 1];
      WalkCreateStep(proposals, context, store);
      assert forall p <- init :: p in proposals;
      CreatesLeaveResources(init, context, store);
      var mid := ApplyWalk(init, context, store).store;
      var after := ApplyWalk(proposals, context, store).store;
      CreateKeepsResources(last, context, mid);
      forall p <- proposals
        ensures AlreadyThere(p, context, after)
      {
        if p != last {
          assert p in init;
        }
      }
    }
  }

  /** CREATE proposals whose resources are all in place apply as nothing at all. */
  lemma {:induction false} ApplyWhenAllThere(proposals: seq<Proposal>, context: GlobalContext, store: LegacyStore)
    requires forall p <- proposals :: p.action == Create && AlreadyThere(p, context, store)
    ensures ApplyWalk(proposals, context, store) == ApplyState(None, store, [])
  {
    if proposals != [] {
      assert forall p <- proposals[..|proposals| - 1] :: p in proposals;
      ApplyWhenAllThere(proposals[..|proposals| - 1], context, store);
    }
  }

  /**
   * Applying the same CREATE proposals again, after a run that threw
   * nothing, writes nothing and throws nothing.
   */
  lemma ReapplyingCreatesChangesNothing(proposals: seq<Proposal>, context: GlobalContext, store: LegacyStore)
    requires forall p <- proposals :: p.action == Create
    requires ApplyWalk(proposals, context, store).thrown.None?
    ensures var after := ApplyWalk(proposals, context, store).store;
      ApplyWalk(proposals, context, after) == ApplyState(None, after, [])
  {
    CreatesLeaveResources(proposals, context, store);
    ApplyWhenAllThere(proposals, context, ApplyWalk(proposals, context, store).store);
  }
}
