/**
 * `planChanges`, `assertPlanStillValid` and `extractResourcesFromPlan`.
 * Hashing (`hashChanges`), the clock and `getUniqueIdentifierSlug` are
 * foreign: they are passed in as functions.
 */
module Planning {
  import opened Wrappers
  import opened Values
  import opened Resources
  import opened Changes
  import opened Routing

  /** A plan: the hash of its changes, when it was made, the wish file it came from, and the changes. */
  datatype Plan = Plan(hash: string, createdAt: string, wishUri: string, changes: seq<Change>)

  /** The tag a resource's change is filed under: its class name and slug. */
  function TagOf(r: Resource, slug: Resource -> string): ResourceTag {
    ResourceTag(r.cls.name, slug(r))
  }

  /**
   * One resource's entry in the plan: route it, read its stored state by
   * unique key through the routed DAO, and compute the change.
   */
  function PlanResource(resource: Resource, providers: seq<Provider>, store: Store, slug: Resource -> string)
    : (r: Result<Change, RoutingError>)
    ensures GetDaoByResource(resource, providers).Failure? ==>
      r == Failure(GetDaoByResource(resource, providers).error)
    ensures GetDaoByResource(resource, providers).Success? ==>
      r == Success(ComputeChange(Some(resource), ByUnique(GetDaoByResource(resource, providers).value.dao, store, resource.attrs), slug))
  {
    match GetDaoByResource(resource, providers)
    case Failure(e) => Failure(e)
    case Success(routed) =>
      var remote := ByUnique(routed.dao, store, resource.attrs);
      Success(ComputeChange(Some(resource), remote, slug))
  }

  /** Resource `i` is the first that cannot be planned, failing with `e`. */
  predicate FirstFailure(resources: seq<Resource>, providers: seq<Provider>, store: Store, slug: Resource -> string,
                         i: int, e: RoutingError) {
    0 <= i < |resources| && PlanResource(resources[i], providers, store, slug) == Failure(e) &&
    forall j :: 0 <= j < i ==> PlanResource(resources[j], providers, store, slug).Success?
  }

  /** Resource `i` is the first for which `plan` fails, failing with `e`. */
  predicate FirstFailing(resources: seq<Resource>, plan: Resource -> Result<Change, RoutingError>, i: int, e: RoutingError) {
    0 <= i < |resources| && plan(resources[i]) == Failure(e) &&
    forall j :: 0 <= j < i ==> plan(resources[j]).Success?
  }

  /**
   * The changes for all resources, in resource order; the first resource
   * that cannot be planned fails the whole call.
   */
  function PlanAll(resources: seq<Resource>, plan: Resource -> Result<Change, RoutingError>)
    : Result<seq<Change>, RoutingError>
  {
    if resources == [] then Success([])
    else
      match plan(resources[0])
      case Failure(e) => Failure(e)
      case Success(first) =>
        match PlanAll(resources[1..], plan)
        case Failure(e) => Failure(e)
        case Success(rest) => Success([first] + rest)
  }

  /**
   * `planChanges` maps over the resources in order: it succeeds when every
   * resource can be planned, change `i` being resource `i`'s; otherwise it
   * fails with the first failing resource's error.
   */
  lemma PlanAllSpec(resources: seq<Resource>, plan: Resource -> Result<Change, RoutingError>)
    ensures var r := PlanAll(resources, plan);
      (r.Success? <==> forall i :: 0 <= i < |resources| ==> plan(resources[i]).Success?) &&
      (r.Success? ==> |r.value| == |resources|) &&
      (r.Success? ==> forall i :: 0 <= i < |resources| ==> r.value[i] == plan(resources[i]).value) &&
      (r.Failure? ==> exists i :: FirstFailing(resources, plan, i, r.error))
  {
    PlanAllSucceeds(resources, plan);
    if PlanAll(resources, plan).Failure? {
      PlanAllFailsAtFirst(resources, plan);
    }
  }

  /** The success half of `PlanAllSpec`. */
  lemma {:induction false} PlanAllSucceeds(resources: seq<Resource>, plan: Resource -> Result<Change, RoutingError>)
    ensures var r := PlanAll(resources, plan);
      (r.Success? <==> forall i :: 0 <= i < |resources| ==> plan(resources[i]).Success?) &&
      (r.Success? ==> |r.value| == |resources|) &&
      (r.Success? ==> forall i :: 0 <= i < |resources| ==> r.value[i] == plan(resources[i]).value)
  {
    if resources != [] {
      var tail := resources[1..];
      PlanAllSucceeds(tail, plan);
      assert forall i :: 0 < i < |resources| ==> resources[i] == tail[i - 1];
    }
  }

  /** The failure half of `PlanAllSpec`. */
  lemma {:induction false} PlanAllFailsAtFirst(resources: seq<Resource>, plan: Resource -> Result<Change, RoutingError>)
    requires PlanAll(resources, plan).Failure?
    ensures exists i :: FirstFailing(resources, plan, i, PlanAll(resources, plan).error)
  {
    var tail := resources[1..];
    if plan(resources[0]).Failure? {
      assert FirstFailing(resources, plan, 0, plan(resources[0]).error);
    } else {
      PlanAllFailsAtFirst(tail, plan);
      var i :| FirstFailing(tail, plan, i, PlanAll(tail, plan).error);
      assert forall j :: 0 < j < |resources| ==> resources[j] == tail[j - 1];
      assert FirstFailing(resources, plan, i + 1, PlanAll(tail, plan).error);
    }
  }

  /**
   * `planChanges`: the changes for the resources, in order, their hash,
   * the time the plan was made, and the wish file's URI. Every change has
   * the resource as its desired state, so none is DESTROY.
   */
  function PlanChanges(resources: seq<Resource>, providers: seq<Provider>, wishFilePath: string, store: Store,
                       slug: Resource -> string, hash: seq<Change> -> string, now: string)
    : (r: Result<Plan, RoutingError>)
    ensures r.Success? <==> forall i :: 0 <= i < |resources| ==> PlanResource(resources[i], providers, store, slug).Success?
    ensures r.Failure? ==> exists i :: FirstFailure(resources, providers, store, slug, i, r.error)
    ensures r.Success? ==>
      r.value.hash == hash(r.value.changes) && r.value.createdAt == now && r.value.wishUri == wishFilePath
    ensures r.Success? ==>
      |r.value.changes| == |resources| &&
      forall i :: 0 <= i < |resources| ==> r.value.changes[i] == PlanResource(resources[i], providers, store, slug).value
    ensures r.Success? ==>
      forall i :: 0 <= i < |resources| ==>
        r.value.changes[i].desired == Some(resources[i]) && r.value.changes[i].action != Destroy &&
        r.value.changes[i].forResource == TagOf(resources[i], slug)
  {
    var plan := (resource: Resource) => PlanResource(resource, providers, store, slug);
    PlanAllSpec(resources, plan);
    match PlanAll(resources, plan)
    case Failure(e) =>
      assert exists i :: FirstFailure(resources, providers, store, slug, i, e) by {
        var i :| FirstFailing(resources, plan, i, e);
        assert FirstFailure(resources, providers, store, slug, i, e);
      }
      Failure(e)
    case Success(changes) => Success(Plan(hash(changes), now, wishFilePath, changes))
  }

  /**
   * The hash depends only on the resources, the providers and the store
   * (through the slug and hash functions): neither the wish file's URI
   * nor the clock enters it, so replanning against an unchanged remote
   * state succeeds again with the same hash.
   */
  lemma ReplanSameHash(resources: seq<Resource>, providers: seq<Provider>, uri1: string, uri2: string, store: Store,
                       slug: Resource -> string, hash: seq<Change> -> string, now1: string, now2: string)
    requires PlanChanges(resources, providers, uri1, store, slug, hash, now1).Success?
    ensures PlanChanges(resources, providers, uri2, store, slug, hash, now2).Success?
    ensures PlanChanges(resources, providers, uri2, store, slug, hash, now2).value.hash ==
            PlanChanges(resources, providers, uri1, store, slug, hash, now1).value.hash
  {
  }

  datatype StalePlan = StalePlan(originalHash: string, currentHash: string)

  /** `assertPlanStillValid`: only the hashes are compared; a mismatch is "plan is stale" carrying both. */
  function AssertPlanStillValid(originalPlan: Plan, currentPlan: Plan): (r: Result<(), StalePlan>)
    ensures r.Success? <==> originalPlan.hash == currentPlan.hash
    ensures r.Failure? ==> r.error == StalePlan(originalPlan.hash, currentPlan.hash)
  {
    if originalPlan.hash != currentPlan.hash then Failure(StalePlan(originalPlan.hash, currentPlan.hash))
    else Success(())
  }

  /** How many changes carry a desired state. */
  function DesiredCount(changes: seq<Change>): nat {
    if changes == [] then 0
    else (if changes[0].desired.Some? then 1 else 0) + DesiredCount(changes[1..])
  }

  /** `extractResourcesFromPlan`: the desired states of the changes, in plan order, nulls dropped. */
  function ExtractResourcesFromPlan(plan: Plan): (resources: seq<Resource>)
    ensures |resources| == DesiredCount(plan.changes) <= |plan.changes|
    ensures forall r <- resources :: exists c <- plan.changes :: c.desired == Some(r)
  {
    DesiredStates(plan.changes)
  }

  function DesiredStates(changes: seq<Change>): (resources: seq<Resource>)
    ensures |resources| == DesiredCount(changes) <= |changes|
    ensures forall r <- resources :: exists c <- changes :: c.desired == Some(r)
  {
    if changes == [] then []
    else
      var rest := DesiredStates(changes[1..]);
      assert forall c <- changes[1..] :: c in changes;
      (if changes[0].desired.Some? then [changes[0].desired.value] else []) + rest
  }

  /** One change contributes its desired state when it has one, and nothing otherwise. */
  lemma DesiredStatesOne(c: Change)
    ensures c.desired.Some? ==> DesiredStates([c]) == [c.desired.value]
    ensures c.desired.None? ==> DesiredStates([c]) == []
  {
    assert [c][1..] == [];
  }

  /** Desired states are collected change by change, so they keep plan order. */
  lemma {:induction false} DesiredStatesAppend(a: seq<Change>, b: seq<Change>)
    ensures DesiredStates(a + b) == DesiredStates(a) + DesiredStates(b)
  {
    if a == [] {
      assert a + b == b;
    } else {
      var ab := a + b;
      assert ab[0] == a[0] && ab[1..] == a[1..] + b;
      DesiredStatesAppend(a[1..], b);
      var head := if a[0].desired.Some? then [a[0].desired.value] else [];
      calc {
        DesiredStates(ab);
        head + DesiredStates(a[1..] + b);
        head + (DesiredStates(a[1..]) + DesiredStates(b));
        (head + DesiredStates(a[1..])) + DesiredStates(b);
        DesiredStates(a) + DesiredStates(b);
      }
    }
  }

  /**
   * Plan order: the desired state of change `i` is the extracted resource
   * at the position counting the desired states before it.
   */
  lemma ExtractResourcesInOrder(plan: Plan, i: int)
    requires 0 <= i < |plan.changes| && plan.changes[i].desired.Some?
    ensures DesiredCount(plan.changes[..i]) < |ExtractResourcesFromPlan(plan)|
    ensures ExtractResourcesFromPlan(plan)[DesiredCount(plan.changes[..i])] == plan.changes[i].desired.value
  {
    var cs := plan.changes;
    assert cs == cs[..i] + ([cs[i]] + cs[i + 1..]);
    DesiredStatesAppend(cs[..i], [cs[i]] + cs[i + 1..]);
    DesiredStatesAppend([cs[i]], cs[i + 1..]);
    DesiredStatesOne(cs[i]);
  }

  /** When every change carries a desired state, extraction returns exactly those states. */
  lemma {:induction false} DesiredStatesAllPresent(changes: seq<Change>)
    requires forall i :: 0 <= i < |changes| ==> changes[i].desired.Some?
    ensures |DesiredStates(changes)| == |changes|
    ensures forall i :: 0 <= i < |changes| ==> DesiredStates(changes)[i] == changes[i].desired.value
  {
    if changes != [] {
      DesiredStatesAllPresent(changes[1..]);
    }
  }

  /** Round trip: the resources extracted from a plan are the resources it was made from. */
  lemma ExtractAfterPlan(resources: seq<Resource>, providers: seq<Provider>, wishFilePath: string, store: Store,
                         slug: Resource -> string, hash: seq<Change> -> string, now: string)
    requires PlanChanges(resources, providers, wishFilePath, store, slug, hash, now).Success?
    ensures ExtractResourcesFromPlan(PlanChanges(resources, providers, wishFilePath, store, slug, hash, now).value) == resources
  {
    var plan := PlanChanges(resources, providers, wishFilePath, store, slug, hash, now).value;
    DesiredStatesAllPresent(plan.changes);
  }
}
