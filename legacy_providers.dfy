/**
 * Legacy provider routing: the first provider, in list order, whose
 * `interfaces` names a resource class serves it; later claimants are
 * ignored. A provider only ever sees the declared resources of the classes
 * it serves.
 */
module LegacyProviders {
  import opened Wrappers
  import opened Values
  import opened LegacyReferences

  /** A declared resource: an instance of a domain-object class. */
  type Declared = v: Value | v.Dobj? witness Dobj(DomainClass("", false, Undefined, Undefined), [])

  /** The log methods, handed through untouched. */
  type Log = string

  /** A remote-state interface: the class it manages and whether it defines `update`. */
  datatype RemoteInterface = RemoteInterface(forClass: string, hasUpdate: bool)

  /** A provider: its name and its interfaces, keyed by resource class name. */
  datatype LegacyProvider = LegacyProvider(name: string, interfaces: map<string, RemoteInterface>)

  /** The global context: every provider and every declared resource. */
  datatype GlobalContext = GlobalContext(providers: seq<LegacyProvider>, resources: seq<Declared>, log: Log)

  /** What one provider is shown: itself, its own resources, and the log. */
  datatype ProviderContext = ProviderContext(provider: LegacyProvider, resources: Option<seq<Declared>>, log: Log)

  /** Provider `i` is the first that serves the class. */
  predicate FirstClaiming(providers: seq<LegacyProvider>, cls: string, i: int) {
    0 <= i < |providers| && cls in providers[i].interfaces &&
    forall j :: 0 <= j < i ==> cls !in providers[j].interfaces
  }

  /** `providers.find(...)`: the index of the first provider serving the class. */
  function FirstClaimant(providers: seq<LegacyProvider>, cls: string): (r: Option<nat>)
    ensures r.None? <==> forall i :: 0 <= i < |providers| ==> cls !in providers[i].interfaces
    ensures r.Some? ==> FirstClaiming(providers, cls, r.value)
  {
    if providers == [] then None
    else if cls in providers[0].interfaces then Some(0)
    else
      var rest := FirstClaimant(providers[1..], cls);
      assert forall i :: 0 < i < |providers| ==> providers[i] == providers[1..][i - 1];
      if rest.Some? then Some(rest.value + 1) else None
  }

  /**
   * `getProviderResourceRemoteStateInterfaceFromContextForResourceClass`:
   * the first serving provider's interface for the class, or "could not
   * find provider for resource".
   */
  function GetInterfaceForClass(resourceClassName: string, context: GlobalContext): (r: Result<RemoteInterface, LegacyError>)
    ensures r.Failure? <==> forall i :: 0 <= i < |context.providers| ==> resourceClassName !in context.providers[i].interfaces
    ensures r.Failure? ==> r.error == NoProviderFor(resourceClassName)
    ensures r.Success? ==>
      exists i :: FirstClaiming(context.providers, resourceClassName, i) &&
        r.value == context.providers[i].interfaces[resourceClassName]
  {
    match FirstClaimant(context.providers, resourceClassName)
    case None => Failure(NoProviderFor(resourceClassName))
    case Some(i) => Success(context.providers[i].interfaces[resourceClassName])
  }

  /** The declared resources whose class the provider serves, in declaration order. */
  function ClaimedBy(resources: seq<Declared>, provider: LegacyProvider): (rs: seq<Declared>)
    ensures |rs| <= |resources|
  {
    if resources == [] then []
    else
      var rest := ClaimedBy(resources[1..], provider);
      if resources[0].cls.name in provider.interfaces then [resources[0]] + rest else rest
  }

  /** Exactly the declared resources of the classes the provider serves pass the filter. */
  lemma {:induction false} ClaimedByMembers(resources: seq<Declared>, provider: LegacyProvider, r: Declared)
    ensures r in ClaimedBy(resources, provider) <==> r in resources && r.cls.name in provider.interfaces
  {
    if resources != [] {
      ClaimedByMembers(resources[1..], provider, r);
      assert r in resources <==> r == resources[0] || r in resources[1..];
    }
  }

  /** One resource passes the filter exactly when the provider serves its class. */
  lemma ClaimedByOne(r: Declared, provider: LegacyProvider)
    ensures r.cls.name in provider.interfaces ==> ClaimedBy([r], provider) == [r]
    ensures r.cls.name !in provider.interfaces ==> ClaimedBy([r], provider) == []
  {
    assert [r][1..] == [];
  }

  /** Every resource passing the filter is of a class the provider serves. */
  lemma ClaimedByServed(resources: seq<Declared>, provider: LegacyProvider)
    ensures forall d <- ClaimedBy(resources, provider) :: d.cls.name in provider.interfaces
  {
    forall d <- ClaimedBy(resources, provider) ensures d.cls.name in provider.interfaces {
      ClaimedByMembers(resources, provider, d);
    }
  }

  /** The filter goes resource by resource, so it keeps declaration order and every repetition. */
  lemma {:induction false} ClaimedByAppend(a: seq<Declared>, b: seq<Declared>, provider: LegacyProvider)
    ensures ClaimedBy(a + b, provider) == ClaimedBy(a, provider) + ClaimedBy(b, provider)
  {
    if a == [] {
      assert a + b == b;
    } else {
      var ab := a + b;
      assert ab[0] == a[0] && ab[1..] == a[1..] + b;
      ClaimedByAppend(a[1..], b, provider);
      var head := if a[0].cls.name in provider.interfaces then [a[0]] else [];
      calc {
        ClaimedBy(ab, provider);
        head + ClaimedBy(a[1..] + b, provider);
        head + (ClaimedBy(a[1..], provider) + ClaimedBy(b, provider));
        (head + ClaimedBy(a[1..], provider)) + ClaimedBy(b, provider);
        ClaimedBy(a, provider) + ClaimedBy(b, provider);
      }
    }
  }

  /** A list of resources all served by the provider passes the filter whole. */
  lemma {:induction false} ClaimedByAll(resources: seq<Declared>, provider: LegacyProvider)
    requires forall i :: 0 <= i < |resources| ==> resources[i].cls.name in provider.interfaces
    ensures ClaimedBy(resources, provider) == resources
  {
    if resources != [] {
      ClaimedByAll(resources[1..], provider);
    }
  }

  /**
   * `getProviderContextFromGlobalContextForResourceClass`: the same first
   * serving provider, the declared resources of the classes it serves, and
   * the log; "could not find provider for resource" when none serves the class.
   */
  function GetProviderContextForClass(resourceClassName: string, context: GlobalContext)
    : (r: Result<ProviderContext, LegacyError>)
    ensures r.Failure? <==> GetInterfaceForClass(resourceClassName, context).Failure?
    ensures r.Failure? ==> r.error == NoProviderFor(resourceClassName)
    ensures r.Success? ==>
      exists i :: FirstClaiming(context.providers, resourceClassName, i) &&
        r.value.provider == context.providers[i] &&
        r.value.resources == Some(ClaimedBy(context.resources, context.providers[i]))
    ensures r.Success? ==> r.value.log == context.log
    ensures r.Success? ==> forall d <- r.value.resources.value :: d.cls.name in r.value.provider.interfaces
  {
    match FirstClaimant(context.providers, resourceClassName)
    case None => Failure(NoProviderFor(resourceClassName))
    case Some(i) =>
      var provider := context.providers[i];
      ClaimedByServed(context.resources, provider);
      Success(ProviderContext(provider, Some(ClaimedBy(context.resources, provider)), context.log))
  }

  /** The interface and the provider context are taken from the same provider. */
  lemma InterfaceAndContextAgree(resourceClassName: string, context: GlobalContext)
    requires GetInterfaceForClass(resourceClassName, context).Success?
    ensures GetProviderContextForClass(resourceClassName, context).Success?
    ensures GetInterfaceForClass(resourceClassName, context).value ==
      GetProviderContextForClass(resourceClassName, context).value.provider.interfaces[resourceClassName]
  {
    var i :| FirstClaiming(context.providers, resourceClassName, i) &&
      GetInterfaceForClass(resourceClassName, context).value == context.providers[i].interfaces[resourceClassName];
    var j :| FirstClaiming(context.providers, resourceClassName, j) &&
      GetProviderContextForClass(resourceClassName, context).value.provider == context.providers[j];
    assert i == j;
  }

  /** `castProviderContextToGlobalContext`: the provider alone, its resources or none, and the log. */
  function CastProviderContextToGlobalContext(from: ProviderContext): (g: GlobalContext)
    ensures g.providers == [from.provider]
    ensures from.resources.Some? ==> g.resources == from.resources.value
    ensures from.resources.None? ==> g.resources == []
    ensures g.log == from.log
  {
    GlobalContext([from.provider], from.resources.GetOr([]), from.log)
  }

  /**
   * Casting a provider context to a global context and asking it for the
   * provider context of one of the provider's classes gives the provider
   * context back, when its resources are all the provider's own.
   */
  lemma CastRoundTrip(from: ProviderContext, resourceClassName: string)
    requires resourceClassName in from.provider.interfaces
    requires forall d <- from.resources.GetOr([]) :: d.cls.name in from.provider.interfaces
    ensures GetProviderContextForClass(resourceClassName, CastProviderContextToGlobalContext(from)) ==
      Success(ProviderContext(from.provider, Some(from.resources.GetOr([])), from.log))
  {
    var resources := from.resources.GetOr([]);
    assert forall i :: 0 <= i < |resources| ==> resources[i] in resources;
    ClaimedByAll(resources, from.provider);
  }

  /**
   * `getProviderResourceRemoteStateInterfaceExecutionDependenciesForResource`:
   * a resource that is not a DomainEntity is refused before any lookup;
   * otherwise both lookups use the resource's class name.
   */
  function ExecutionDependencies(resource: Value, context: GlobalContext)
    : (r: Result<(RemoteInterface, ProviderContext), LegacyError>)
    ensures !(resource.Dobj? && resource.cls.isEntity) ==> r == Failure(NotAnEntityResource)
    ensures resource.Dobj? && resource.cls.isEntity ==>
      var name := resource.cls.name;
      (r.Success? <==> GetInterfaceForClass(name, context).Success?) &&
      (r.Failure? ==> r.error == NoProviderFor(name)) &&
      (r.Success? ==> r.value == (GetInterfaceForClass(name, context).value, GetProviderContextForClass(name, context).value))
  {
    if !(resource.Dobj? && resource.cls.isEntity) then Failure(NotAnEntityResource)
    else
      var name := resource.cls.name;
      match GetInterfaceForClass(name, context)
      case Failure(e) => Failure(e)
      case Success(remoteStateInterface) =>
        match GetProviderContextForClass(name, context)
        case Failure(e) => Failure(e)
        case Success(providerContext) => Success((remoteStateInterface, providerContext))
  }

  /** `canUpdateResource`: whether the routed interface defines `update`. */
  function CanUpdateResource(resource: Value, context: GlobalContext): (r: Result<bool, LegacyError>)
    ensures r.Success? <==> ExecutionDependencies(resource, context).Success?
    ensures r.Failure? ==> r.error == ExecutionDependencies(resource, context).error
    ensures r.Success? ==> r.value == ExecutionDependencies(resource, context).value.0.hasUpdate
  {
    match ExecutionDependencies(resource, context)
    case Failure(e) => Failure(e)
    case Success(deps) => Success(deps.0.hasUpdate)
  }

  /** Whether a resource can be updated depends on its class alone, never on its attributes. */
  lemma CanUpdateDependsOnClassOnly(a: Value, b: Value, context: GlobalContext)
    requires a.Dobj? && b.Dobj? && a.cls == b.cls
    ensures CanUpdateResource(a, context) == CanUpdateResource(b, context)
  {
  }
}
