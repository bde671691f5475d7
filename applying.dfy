/**
 * `applyChange` and `applyChanges`: carry out a plan against the remote
 * store, one change at a time.
 */
module Applying {
  import opened Wrappers
  import opened Values
  import opened Resources
  import opened Changes
  import opened Routing
  import opened Planning

  datatype ApplyError =
    | UnrelatedResource(resourceClass: string, changeClass: string)   // resource and change name different classes
    | Unroutable(routing: RoutingError)
    | MissingDesired(action: Action)                                  // "expected change.state.desired for ..."
    | MissingRemote(action: Action)                                   // "expected change.state.remote for ..."
    | UpdatesUnsupported(resourceClassName: string)                   // "DAO does not support updates"
    | DeletesUnsupported(resourceClassName: string)                   // "DAO does not support deletes"
    | UnknownAction(action: Action)
    | NotInWish(forResource: ResourceTag)                             // "could not find resource specified in plan"
    | Stale(stale: StalePlan)

  /** The remote state all DAOs write to, with the DAO write operations. */
  class RemoteStore {
    var entries: Store

    constructor (initial: Store)
      ensures entries == initial
    {
      entries := initial;
    }

    /** `dao.set.findsert(r)`. */
    method Findsert(dao: Dao, r: Resource)
      modifies this
      ensures entries == Resources.Findsert(dao, old(entries), r)
    {
      entries := Resources.Findsert(dao, entries, r);
    }

    /** `dao.set.upsert(r)`. */
    method Upsert(dao: Dao, r: Resource)
      modifies this
      ensures entries == Resources.Upsert(dao, old(entries), r)
    {
      entries := Resources.Upsert(dao, entries, r);
    }

    /** `dao.set.delete(r)`. */
    method Delete(dao: Dao, r: Resource)
      modifies this
      ensures entries == Resources.Delete(dao, old(entries), r.attrs)
    {
      entries := Resources.Delete(dao, entries, r.attrs);
    }
  }

  /**
   * What `applyChange` returns and leaves in the store. KEEP is returned at
   * once; otherwise the resource must be of the change's class and routable.
   * CREATE find-or-inserts the desired state, UPDATE upserts it (the DAO must
   * have `upsert`), DESTROY deletes the remote state (the DAO must have
   * `delete`), REPLACE deletes and then find-or-inserts, with no rollback.
   * Any other action is unknown. Success returns the change itself.
   */
  function ApplyChangeOutcome(store: Store, resource: Resource, change: Change, providers: seq<Provider>)
    : (o: (Result<Change, ApplyError>, Store))
    ensures change.action == Keep ==> o == (Success(change), store)
    ensures change.action != Keep && resource.cls.name != change.forResource.cls ==>
      o == (Failure(UnrelatedResource(resource.cls.name, change.forResource.cls)), store)
    ensures o.0.Success? ==> o.0.value == change
    ensures o.0.Failure? && change.action != Replace ==> o.1 == store
    ensures change.action == Omit ==> o.0.Failure?
    ensures change.action != Keep && resource.cls.name == change.forResource.cls && GetDaoByResource(resource, providers).Failure? ==>
      o == (Failure(Unroutable(GetDaoByResource(resource, providers).error)), store)
    ensures change.action != Keep && resource.cls.name == change.forResource.cls && GetDaoByResource(resource, providers).Success? ==>
      var dao := GetDaoByResource(resource, providers).value.dao;
      (change.action == Create && change.desired.None? ==> o == (Failure(MissingDesired(Create)), store)) &&
      (change.action == Create && change.desired.Some? ==> o == (Success(change), Findsert(dao, store, change.desired.value))) &&
      (change.action == Update && !dao.upsert ==> o == (Failure(UpdatesUnsupported(change.forResource.cls)), store)) &&
      (change.action == Update && dao.upsert && change.desired.None? ==> o == (Failure(MissingDesired(Update)), store)) &&
      (change.action == Update && dao.upsert && change.desired.Some? ==>
        o == (Success(change), Upsert(dao, store, change.desired.value))) &&
      ((change.action == Destroy || change.action == Replace) && !dao.delete ==>
        o == (Failure(DeletesUnsupported(change.forResource.cls)), store)) &&
      (change.action == Destroy && dao.delete && change.remote.None? ==> o == (Failure(MissingRemote(Destroy)), store)) &&
      (change.action == Destroy && dao.delete && change.remote.Some? ==>
        o == (Success(change), Delete(dao, store, change.remote.value.attrs))) &&
      (change.action == Omit ==> o == (Failure(UnknownAction(Omit)), store))
    // REPLACE deletes first and then find-or-inserts; a missing desired state
    // fails after the delete, which is not rolled back.
    ensures change.action == Replace && resource.cls.name == change.forResource.cls &&
            GetDaoByResource(resource, providers).Success? && GetDaoByResource(resource, providers).value.dao.delete ==>
      var dao := GetDaoByResource(resource, providers).value.dao;
      (change.remote.None? ==> o == (Failure(MissingRemote(Replace)), store)) &&
      (change.remote.Some? && change.desired.None? ==>
        o == (Failure(MissingDesired(Replace)), Delete(dao, store, change.remote.value.attrs))) &&
      (change.remote.Some? && change.desired.Some? ==>
        o == (Success(change), Findsert(dao, Delete(dao, store, change.remote.value.attrs), change.desired.value)))
  {
    if change.action == Keep then (Success(change), store)
    else if resource.cls.name != change.forResource.cls then
      (Failure(UnrelatedResource(resource.cls.name, change.forResource.cls)), store)
    else
      match GetDaoByResource(resource, providers)
      case Failure(e) => (Failure(Unroutable(e)), store)
      case Success(routed) =>
        var dao := routed.dao;
        match change.action
        case Create =>
          if change.desired.None? then (Failure(MissingDesired(Create)), store)
          else (Success(change), Findsert(dao, store, change.desired.value))
        case Update =>
          if !dao.upsert then (Failure(UpdatesUnsupported(change.forResource.cls)), store)
          else if change.desired.None? then (Failure(MissingDesired(Update)), store)
          else (Success(change), Upsert(dao, store, change.desired.value))
        case Destroy =>
          if !dao.delete then (Failure(DeletesUnsupported(change.forResource.cls)), store)
          else if change.remote.None? then (Failure(MissingRemote(Destroy)), store)
          else (Success(change), Delete(dao, store, change.remote.value.attrs))
        case Replace =>
          if !dao.delete then (Failure(DeletesUnsupported(change.forResource.cls)), store)
          else if change.remote.None? then (Failure(MissingRemote(Replace)), store)
          else
            var afterDelete := Delete(dao, store, change.remote.value.attrs);
            if change.desired.None? then (Failure(MissingDesired(Replace)), afterDelete)
            else (Success(change), Findsert(dao, afterDelete, change.desired.value))
        case _ => (Failure(UnknownAction(change.action)), store)
  }

  /**
   * What a successful DESTROY or REPLACE leaves behind: DESTROY empties the
   * remote state's place and keeps everything else; REPLACE puts the desired
   * state in place of the remote state when both have the same unique key,
   * and every other stored resource is either kept or was the remote state.
   */
  lemma DestroyAndReplaceEffects(store: Store, resource: Resource, change: Change, providers: seq<Provider>)
    requires change.action == Destroy || change.action == Replace
    requires ApplyChangeOutcome(store, resource, change, providers).0.Success?
    ensures GetDaoByResource(resource, providers).Success? && change.remote.Some?
    ensures var dao := GetDaoByResource(resource, providers).value.dao;
      var gone := IdentityOf(dao.dobj, change.remote.value.attrs);
      var after := ApplyChangeOutcome(store, resource, change, providers).1;
      (change.action == Destroy ==>
        gone !in after && forall id :: id in store && id != gone ==> id in after && after[id] == store[id]) &&
      (change.action == Replace ==>
        change.desired.Some? &&
        var put := IdentityOf(dao.dobj, change.desired.value.attrs);
        put in after && (put == gone ==> after[put] == change.desired.value) &&
        forall id :: id in after && id != put ==> id != gone && id in store && after[id] == store[id])
  {
  }

  /** `applyChange`, writing through the remote store. */
  method ApplyChange(remote: RemoteStore, resource: Resource, change: Change, providers: seq<Provider>)
    returns (r: Result<Change, ApplyError>)
    modifies remote
    ensures (r, remote.entries) == ApplyChangeOutcome(old(remote.entries), resource, change, providers)
  {
    if change.action == Keep {
      return Success(change);
    }
    if resource.cls.name != change.forResource.cls {
      return Failure(UnrelatedResource(resource.cls.name, change.forResource.cls));
    }
    var routed := GetDaoByResource(resource, providers);
    if routed.Failure? {
      return Failure(Unroutable(routed.error));
    }
    var dao := routed.value.dao;
    match change.action {
      case Create =>
        if change.desired.None? {
          return Failure(MissingDesired(Create));
        }
        remote.Findsert(dao, change.desired.value);
        return Success(change);
      case Update =>
        if !dao.upsert {
          return Failure(UpdatesUnsupported(change.forResource.cls));
        }
        if change.desired.None? {
          return Failure(MissingDesired(Update));
        }
        remote.Upsert(dao, change.desired.value);
        return Success(change);
      case Destroy =>
        if !dao.delete {
          return Failure(DeletesUnsupported(change.forResource.cls));
        }
        if change.remote.None? {
          return Failure(MissingRemote(Destroy));
        }
        remote.Delete(dao, change.remote.value);
        return Success(change);
      case Replace =>
        if !dao.delete {
          return Failure(DeletesUnsupported(change.forResource.cls));
        }
        if change.remote.None? {
          return Failure(MissingRemote(Replace));
        }
        remote.Delete(dao, change.remote.value);
        if change.desired.None? {
          return Failure(MissingDesired(Replace));
        }
        remote.Findsert(dao, change.desired.value);
        return Success(change);
      case _ =>
        return Failure(UnknownAction(change.action));
    }
  }

  /** Resource `i` is the first whose class and slug match the tag. */
  predicate FirstTagged(resources: seq<Resource>, tag: ResourceTag, slug: Resource -> string, i: int) {
    0 <= i < |resources| && TagOf(resources[i], slug) == tag &&
    forall j :: 0 <= j < i ==> TagOf(resources[j], slug) != tag
  }

  /** `resources.find(...)`: the first resource with the change's class name and slug. */
  function FindResource(resources: seq<Resource>, tag: ResourceTag, slug: Resource -> string): (found: Option<Resource>)
    ensures found.None? <==> forall i :: 0 <= i < |resources| ==> TagOf(resources[i], slug) != tag
    ensures found.Some? ==> exists i :: FirstTagged(resources, tag, slug, i) && found.value == resources[i]
  {
    if resources == [] then None
    else if TagOf(resources[0], slug) == tag then
      assert FirstTagged(resources, tag, slug, 0);
      Some(resources[0])
    else
      var found := FindResource(resources[1..], tag, slug);
      assert forall i :: 0 < i < |resources| ==> resources[i] == resources[1..][i - 1];
      if found.Some? then
        var i :| FirstTagged(resources[1..], tag, slug, i) && found.value == resources[1..][i];
        assert FirstTagged(resources, tag, slug, i + 1);
        found
      else found
  }

  /** One iteration of the walk over the plan: skip KEEP, else find the resource and apply the change. */
  function Step(applied: seq<Change>, store: Store, change: Change, resources: seq<Resource>,
                providers: seq<Provider>, slug: Resource -> string): (Result<seq<Change>, ApplyError>, Store)
  {
    if change.action == Keep then (Success(applied), store)
    else
      match FindResource(resources, change.forResource, slug)
      case None => (Failure(NotInWish(change.forResource)), store)
      case Some(resource) =>
        var (r, next) := ApplyChangeOutcome(store, resource, change, providers);
        if r.Failure? then (Failure(r.error), next) else (Success(applied + [r.value]), next)
  }

  /**
   * The walk over the plan's changes, in order: the changes applied so far
   * and the store they left, or the first error and the store as it was
   * when that error was thrown (earlier writes stay).
   */
  function Walk(store: Store, changes: seq<Change>, resources: seq<Resource>, providers: seq<Provider>,
                slug: Resource -> string): (Result<seq<Change>, ApplyError>, Store)
  {
    if changes == [] then (Success([]), store)
    else
      var (prev, s) := Walk(store, changes[..|changes| - 1], resources, providers, slug);
      if prev.Failure? then (prev, s)
      else Step(prev.value, s, changes[|changes| - 1], resources, providers, slug)
  }

  /** Once the walk has failed, later changes are never attempted. */
  lemma {:induction false} WalkStopsAtFailure(store: Store, changes: seq<Change>, k: nat, resources: seq<Resource>,
                                              providers: seq<Provider>, slug: Resource -> string)
    requires k <= |changes|
    requires Walk(store, changes[..k], resources, providers, slug).0.Failure?
    ensures Walk(store, changes, resources, providers, slug) == Walk(store, changes[..k], resources, providers, slug)
  {
    if k < |changes| {
      var init := changes[..|changes| - 1];
      assert init[..k] == changes[..k];
      WalkStopsAtFailure(store, init, k, resources, providers, slug);
    } else {
      assert changes[..k] == changes;
    }
  }

  /** The changes that are not KEEP, in order. */
  function NonKeep(changes: seq<Change>): (r: seq<Change>)
    ensures |r| <= |changes|
    ensures forall c <- r :: c in changes && c.action != Keep
  {
    if changes == [] then []
    else
      var last := changes[|changes| - 1];
      var init := NonKeep(changes[..|changes| - 1]);
      assert forall c <- changes[..|changes| - 1] :: c in changes;
      if last.action == Keep then init else init + [last]
  }

  /** A successful walk applied exactly the non-KEEP changes, in plan order. */
  lemma {:induction false} WalkAppliesNonKeep(store: Store, changes: seq<Change>, resources: seq<Resource>,
                                              providers: seq<Provider>, slug: Resource -> string)
    requires Walk(store, changes, resources, providers, slug).0.Success?
    ensures Walk(store, changes, resources, providers, slug).0.value == NonKeep(changes)
  {
    if changes != [] {
      WalkAppliesNonKeep(store, changes[..|changes| - 1], resources, providers, slug);
    }
  }

  /** A plan of KEEP changes only applies nothing and leaves the store as it was. */
  lemma {:induction false} AllKeepAppliesNothing(store: Store, changes: seq<Change>, resources: seq<Resource>,
                                                 providers: seq<Provider>, slug: Resource -> string)
    requires forall c <- changes :: c.action == Keep
    ensures Walk(store, changes, resources, providers, slug) == (Success([]), store)
  {
    if changes != [] {
      assert forall c <- changes[..|changes| - 1] :: c in changes;
      AllKeepAppliesNothing(store, changes[..|changes| - 1], resources, providers, slug);
    }
  }

  /**
   * What `applyChanges` returns and leaves in the store: re-plan against
   * the current store with the plan's wish URI, reject a stale plan before
   * any write, then walk the given plan's changes.
   */
  function ApplyChangesOutcome(store: Store, plan: Plan, resources: seq<Resource>, providers: seq<Provider>,
                               slug: Resource -> string, hash: seq<Change> -> string, now: string)
    : (o: (Result<seq<Change>, ApplyError>, Store))
    ensures o.0.Success? ==> o.0.value == NonKeep(plan.changes)
    ensures PlanChanges(resources, providers, plan.wishUri, store, slug, hash, now).Failure? ==>
      o == (Failure(Unroutable(PlanChanges(resources, providers, plan.wishUri, store, slug, hash, now).error)), store)
    ensures PlanChanges(resources, providers, plan.wishUri, store, slug, hash, now).Success? &&
            PlanChanges(resources, providers, plan.wishUri, store, slug, hash, now).value.hash != plan.hash ==>
      o == (Failure(Stale(StalePlan(plan.hash, PlanChanges(resources, providers, plan.wishUri, store, slug, hash, now).value.hash))), store)
  {
    match PlanChanges(resources, providers, plan.wishUri, store, slug, hash, now)
    case Failure(e) => (Failure(Unroutable(e)), store)
    case Success(current) =>
      match AssertPlanStillValid(plan, current)
      case Failure(e) => (Failure(Stale(e)), store)
      case Success(_) =>
        var o := Walk(store, plan.changes, resources, providers, slug);
        if o.0.Success? then
          WalkAppliesNonKeep(store, plan.changes, resources, providers, slug);
          o
        else o
  }

  /** `applyChanges`, writing through the remote store. */
  method ApplyChanges(remote: RemoteStore, plan: Plan, resources: seq<Resource>, providers: seq<Provider>,
                      slug: Resource -> string, hash: seq<Change> -> string, now: string)
    returns (r: Result<seq<Change>, ApplyError>)
    modifies remote
    ensures (r, remote.entries) == ApplyChangesOutcome(old(remote.entries), plan, resources, providers, slug, hash, now)
  {
    var current := PlanChanges(resources, providers, plan.wishUri, remote.entries, slug, hash, now);
    if current.Failure? {
      return Failure(Unroutable(current.error));
    }
    var valid := AssertPlanStillValid(plan, current.value);
    if valid.Failure? {
      return Failure(Stale(valid.error));
    }
    r := WalkChanges(remote, plan.changes, resources, providers, slug);
  }

  /** The loop of `applyChanges` over the plan's changes, writing through the remote store. */
  method WalkChanges(remote: RemoteStore, changes: seq<Change>, resources: seq<Resource>, providers: seq<Provider>,
                     slug: Resource -> string)
    returns (r: Result<seq<Change>, ApplyError>)
    modifies remote
    ensures (r, remote.entries) == Walk(old(remote.entries), changes, resources, providers, slug)
  {
    var appliedChanges: seq<Change> := [];
    var i := 0;
    while i < |changes|
      invariant 0 <= i <= |changes|
      invariant (Success(appliedChanges), remote.entries) == Walk(old(remote.entries), changes[..i], resources, providers, slug)
    {
      var change := changes[i];
      assert changes[..i + 1][..i] == changes[..i];
      if change.action == Keep {
        i := i + 1;
        continue;
      }
      var found := FindResource(resources, change.forResource, slug);
      if found.None? {
        WalkStopsAtFailure(old(remote.entries), changes, i + 1, resources, providers, slug);
        return Failure(NotInWish(change.forResource));
      }
      var applied := ApplyChange(remote, found.value, change, providers);
      if applied.Failure? {
        WalkStopsAtFailure(old(remote.entries), changes, i + 1, resources, providers, slug);
        return Failure(applied.error);
      }
      appliedChanges := appliedChanges + [applied.value];
      i := i + 1;
    }
    assert changes[..i] == changes;
    return Success(appliedChanges);
  }

  /** Every resource routes to exactly one provider. */
  predicate Routable(resources: seq<Resource>, providers: seq<Provider>) {
    forall i :: 0 <= i < |resources| ==> GetDaoByResource(resources[i], providers).Success?
  }

  /** Where the routed DAO stores the resource. */
  function StoredAt(resource: Resource, providers: seq<Provider>): Identity
    requires GetDaoByResource(resource, providers).Success?
  {
    IdentityOf(GetDaoByResource(resource, providers).value.dao.dobj, resource.attrs)
  }

  /** No two resources are stored at the same place. */
  predicate DistinctIdentities(resources: seq<Resource>, providers: seq<Provider>) {
    Routable(resources, providers) &&
    forall i, j :: 0 <= i < j < |resources| ==> StoredAt(resources[i], providers) != StoredAt(resources[j], providers)
  }

  /** No two resources share a class name and slug. */
  predicate DistinctTags(resources: seq<Resource>, slug: Resource -> string) {
    forall i, j :: 0 <= i < j < |resources| ==> TagOf(resources[i], slug) != TagOf(resources[j], slug)
  }

  /** Change `i` is resource `i`'s change, planned against `store`. */
  predicate PlannedFrom(changes: seq<Change>, resources: seq<Resource>, providers: seq<Provider>, store: Store,
                        slug: Resource -> string) {
    |changes| == |resources| &&
    forall i :: 0 <= i < |resources| ==>
      PlanResource(resources[i], providers, store, slug).Success? &&
      changes[i] == PlanResource(resources[i], providers, store, slug).value
  }

  /** Every UPDATE in the plan goes to a DAO with `upsert`. */
  predicate UpdatesSupported(changes: seq<Change>, resources: seq<Resource>, providers: seq<Provider>)
    requires Routable(resources, providers) && |changes| == |resources|
  {
    forall i :: 0 <= i < |resources| && changes[i].action == Update ==>
      GetDaoByResource(resources[i], providers).value.dao.upsert
  }

  /**
   * After walking the first `k` planned changes from `store` to `now`: each
   * resource written so far is stored as desired, and every other resource's
   * place is as it was.
   */
  predicate WalkedUpTo(store: Store, now: Store, changes: seq<Change>, resources: seq<Resource>,
                       providers: seq<Provider>, k: int)
    requires Routable(resources, providers) && |changes| == |resources|
  {
    forall j :: 0 <= j < |resources| ==>
      var id := StoredAt(resources[j], providers);
      if j < k && changes[j].action != Keep then id in now && now[id] == resources[j]
      else (id in now <==> id in store) && (id in now ==> now[id] == store[id])
  }

  /** With distinct tags, a resource's own tag finds that resource. */
  lemma FindsOwnResource(resources: seq<Resource>, slug: Resource -> string, k: int)
    requires DistinctTags(resources, slug) && 0 <= k < |resources|
    ensures FindResource(resources, TagOf(resources[k], slug), slug) == Some(resources[k])
  {
    var tag := TagOf(resources[k], slug);
    var found := FindResource(resources, tag, slug);
    var i :| FirstTagged(resources, tag, slug, i) && found.value == resources[i];
    assert i == k;
  }

  /**
   * A change planned for `res` against `store`, applied to a store that
   * agrees with `store` on whether `res` is stored, succeeds and leaves
   * `res` stored at its place.
   */
  lemma ApplyPlannedChange(store: Store, now: Store, res: Resource, providers: seq<Provider>, slug: Resource -> string)
    requires PlanResource(res, providers, store, slug).Success?
    requires PlanResource(res, providers, store, slug).value.action != Keep
    requires GetDaoByResource(res, providers).Success?
    requires PlanResource(res, providers, store, slug).value.action == Update ==>
      GetDaoByResource(res, providers).value.dao.upsert
    requires StoredAt(res, providers) in now <==> StoredAt(res, providers) in store
    ensures var c := PlanResource(res, providers, store, slug).value;
      ApplyChangeOutcome(now, res, c, providers) == (Success(c), now[StoredAt(res, providers) := res])
  {
    var c := PlanResource(res, providers, store, slug).value;
    var dao := GetDaoByResource(res, providers).value.dao;
    if c.action == Create {
      assert Findsert(dao, now, res) == now[StoredAt(res, providers) := res];
    } else {
      assert c.action == Update;
    }
  }

  /** No resource other than resource `k` is stored where resource `k` is. */
  lemma StoredApart(resources: seq<Resource>, providers: seq<Provider>, k: nat)
    requires DistinctIdentities(resources, providers) && k < |resources|
    ensures forall j :: 0 <= j < |resources| && j != k ==>
      StoredAt(resources[j], providers) != StoredAt(resources[k], providers)
  {
    forall j | 0 <= j < |resources| && j != k
      ensures StoredAt(resources[j], providers) != StoredAt(resources[k], providers)
    {
      if j < k {
        assert StoredAt(resources[j], providers) != StoredAt(resources[k], providers);
      } else {
        assert StoredAt(resources[k], providers) != StoredAt(resources[j], providers);
      }
    }
  }

  /** Stepping over a KEEP change keeps the walk's invariant. */
  lemma WalkedKeep(store: Store, now: Store, changes: seq<Change>, resources: seq<Resource>,
                   providers: seq<Provider>, k: nat)
    requires Routable(resources, providers) && |changes| == |resources|
    requires k < |changes| && changes[k].action == Keep
    requires WalkedUpTo(store, now, changes, resources, providers, k)
    ensures WalkedUpTo(store, now, changes, resources, providers, k + 1)
  {
  }

  /** Storing resource `k` at its place after its write keeps the walk's invariant. */
  lemma WalkedWrite(store: Store, now: Store, changes: seq<Change>, resources: seq<Resource>,
                    providers: seq<Provider>, k: nat)
    requires DistinctIdentities(resources, providers) && |changes| == |resources|
    requires k < |changes| && changes[k].action != Keep
    requires WalkedUpTo(store, now, changes, resources, providers, k)
    ensures WalkedUpTo(store, now[StoredAt(resources[k], providers) := resources[k]], changes, resources, providers, k + 1)
  {
    StoredApart(resources, providers, k);
  }

  /** One step of the walk over a plan made against `store` applies its change and keeps the walk's invariant. */
  lemma WalkStep(store: Store, now: Store, applied: seq<Change>, changes: seq<Change>, resources: seq<Resource>,
                 providers: seq<Provider>, slug: Resource -> string, k: nat)
    requires PlannedFrom(changes, resources, providers, store, slug)
    requires DistinctIdentities(resources, providers) && DistinctTags(resources, slug)
    requires UpdatesSupported(changes, resources, providers)
    requires k < |changes| && WalkedUpTo(store, now, changes, resources, providers, k)
    ensures var (r, next) := Step(applied, now, changes[k], resources, providers, slug);
      r == Success(if changes[k].action == Keep then applied else applied + [changes[k]]) &&
      WalkedUpTo(store, next, changes, resources, providers, k + 1)
  {
    var c := changes[k];
    var res := resources[k];
    if c.action == Keep {
      WalkedKeep(store, now, changes, resources, providers, k);
    } else {
      FindsOwnResource(resources, slug, k);
      ApplyPlannedChange(store, now, res, providers, slug);
      WalkedWrite(store, now, changes, resources, providers, k);
    }
  }

  /** The walk over the first `k` changes is the walk over the first `k - 1` followed by one step. */
  lemma WalkSnoc(store: Store, changes: seq<Change>, resources: seq<Resource>, providers: seq<Provider>,
                 slug: Resource -> string, k: nat)
    requires 0 < k <= |changes|
    ensures var (prev, s) := Walk(store, changes[..k - 1], resources, providers, slug);
      Walk(store, changes[..k], resources, providers, slug) ==
        if prev.Failure? then (prev, s) else Step(prev.value, s, changes[k - 1], resources, providers, slug)
    ensures NonKeep(changes[..k]) ==
      if changes[k - 1].action == Keep then NonKeep(changes[..k - 1]) else NonKeep(changes[..k - 1]) + [changes[k - 1]]
  {
    assert changes[..k][..k - 1] == changes[..k - 1];
  }

  /** Walking a plan made against `store`, with no two resources sharing a place or a tag, applies every change. */
  lemma {:induction false} WalkPlanned(store: Store, changes: seq<Change>, resources: seq<Resource>,
                                       providers: seq<Provider>, slug: Resource -> string, k: nat)
    requires PlannedFrom(changes, resources, providers, store, slug)
    requires DistinctIdentities(resources, providers) && DistinctTags(resources, slug)
    requires UpdatesSupported(changes, resources, providers)
    requires k <= |changes|
    ensures var (r, next) := Walk(store, changes[..k], resources, providers, slug);
      r == Success(NonKeep(changes[..k])) && WalkedUpTo(store, next, changes, resources, providers, k)
  {
    if k == 0 {
      assert changes[..0] == [];
    } else {
      WalkPlanned(store, changes, resources, providers, slug, k - 1);
      var prev := Walk(store, changes[..k - 1], resources, providers, slug);
      WalkSnoc(store, changes, resources, providers, slug, k);
      WalkStep(store, prev.1, prev.0.value, changes, resources, providers, slug, k - 1);
    }
  }

  /**
   * Applying converges: a plan made against the store applies every change
   * that is not KEEP; re-planning against the resulting store yields KEEP
   * for every resource; and applying that plan changes nothing. This holds
   * when no two resources share a stored place or a class name and slug,
   * and every UPDATE goes to a DAO with `upsert`.
   */
  lemma ApplyThenReplanKeepsAll(store: Store, resources: seq<Resource>, providers: seq<Provider>, uri: string,
                                slug: Resource -> string, hash: seq<Change> -> string, now: string)
    requires PlanChanges(resources, providers, uri, store, slug, hash, now).Success?
    requires DistinctIdentities(resources, providers) && DistinctTags(resources, slug)
    requires UpdatesSupported(PlanChanges(resources, providers, uri, store, slug, hash, now).value.changes, resources, providers)
    ensures var plan := PlanChanges(resources, providers, uri, store, slug, hash, now).value;
      var (applied, after) := ApplyChangesOutcome(store, plan, resources, providers, slug, hash, now);
      var replan := PlanChanges(resources, providers, uri, after, slug, hash, now);
      applied == Success(NonKeep(plan.changes)) &&
      replan.Success? && (forall c <- replan.value.changes :: c.action == Keep) &&
      ApplyChangesOutcome(after, replan.value, resources, providers, slug, hash, now) == (Success([]), after)
  {
    var plan := PlanChanges(resources, providers, uri, store, slug, hash, now).value;
    var changes := plan.changes;
    WalkPlanned(store, changes, resources, providers, slug, |changes|);
    assert changes[..|changes|] == changes;
    var (applied, after) := Walk(store, changes, resources, providers, slug);
    assert ApplyChangesOutcome(store, plan, resources, providers, slug, hash, now) == (applied, after);
    ReplanKeepsAll(store, after, changes, resources, providers, uri, slug, hash, now);
    var replan := PlanChanges(resources, providers, uri, after, slug, hash, now).value;
    AllKeepAppliesNothing(after, replan.changes, resources, providers, slug);
  }

  /** After the walk, resource `i` re-plans as KEEP. */
  lemma ReplanOneKeeps(store: Store, after: Store, changes: seq<Change>, resources: seq<Resource>,
                       providers: seq<Provider>, slug: Resource -> string, i: nat)
    requires PlannedFrom(changes, resources, providers, store, slug)
    requires DistinctIdentities(resources, providers)
    requires WalkedUpTo(store, after, changes, resources, providers, |changes|)
    requires i < |resources|
    ensures PlanResource(resources[i], providers, after, slug).Success?
    ensures PlanResource(resources[i], providers, after, slug).value.action == Keep
  {
    var dao := GetDaoByResource(resources[i], providers).value.dao;
    if changes[i].action != Keep {
      assert ByUnique(dao, after, resources[i].attrs) == Some(resources[i]);
    } else {
      assert ByUnique(dao, after, resources[i].attrs) == ByUnique(dao, store, resources[i].attrs);
    }
  }

  /** After the walk, re-planning succeeds and every change is KEEP. */
  lemma ReplanKeepsAll(store: Store, after: Store, changes: seq<Change>, resources: seq<Resource>,
                       providers: seq<Provider>, uri: string, slug: Resource -> string,
                       hash: seq<Change> -> string, now: string)
    requires PlannedFrom(changes, resources, providers, store, slug)
    requires DistinctIdentities(resources, providers)
    requires WalkedUpTo(store, after, changes, resources, providers, |changes|)
    ensures PlanChanges(resources, providers, uri, after, slug, hash, now).Success?
    ensures forall c <- PlanChanges(resources, providers, uri, after, slug, hash, now).value.changes :: c.action == Keep
  {
    forall i | 0 <= i < |resources|
      ensures PlanResource(resources[i], providers, after, slug).Success?
      ensures PlanResource(resources[i], providers, after, slug).value.action == Keep
    {
      ReplanOneKeeps(store, after, changes, resources, providers, slug, i);
    }
    var replan := PlanChanges(resources, providers, uri, after, slug, hash, now).value;
    forall c <- replan.changes
      ensures c.action == Keep
    {
      var i :| 0 <= i < |replan.changes| && replan.changes[i] == c;
    }
  }
}
