/**
 * Legacy lookups by reference: find a resource through the interface of
 * the first provider serving the referenced class, and turn a reference
 * into the primary or unique key of the resource it points to.
 */
module LegacyLookups {
  import opened Wrappers
  import opened Values
  import opened LegacyReferences
  import opened LegacyProviders

  /** The remote state the interfaces read: every stored resource, in order. */
  type LegacyStore = seq<Declared>

  /** The stored resource is of the class and carries every attribute value the key names. */
  predicate MatchesKey(row: Declared, cls: string, key: seq<Field>) {
    row.cls.name == cls && forall i :: 0 <= i < |key| ==> Get(row.fields, key[i].name) == Get(key, key[i].name)
  }

  /**
   * An interface's `findByPrimary` / `findByUnique` over the remote state:
   * the first stored resource of the interface's class that matches the
   * key, or null.
   */
  function Find(iface: RemoteInterface, store: LegacyStore, key: seq<Field>): (found: Option<Declared>)
    ensures found.None? <==> forall i :: 0 <= i < |store| ==> !MatchesKey(store[i], iface.forClass, key)
    ensures found.Some? ==>
      exists i :: 0 <= i < |store| && store[i] == found.value && MatchesKey(store[i], iface.forClass, key) &&
        forall j :: 0 <= j < i ==> !MatchesKey(store[j], iface.forClass, key)
  {
    if store == [] then None
    else if MatchesKey(store[0], iface.forClass, key) then Some(store[0])
    else
      var rest := Find(iface, store[1..], key);
      assert forall i :: 0 < i < |store| ==> store[i] == store[1..][i - 1];
      if rest.Some? then
        var i :| 0 <= i < |store[1..]| && store[1..][i] == rest.value && MatchesKey(store[1..][i], iface.forClass, key) &&
          forall j :: 0 <= j < i ==> !MatchesKey(store[1..][j], iface.forClass, key);
        assert store[i + 1] == rest.value;
        rest
      else rest
  }

  /** A resource matching the key that no other stored resource matches is what the lookup finds. */
  lemma FindsSoleMatch(iface: RemoteInterface, store: LegacyStore, key: seq<Field>, row: Declared)
    requires row in store && MatchesKey(row, iface.forClass, key)
    requires forall i :: 0 <= i < |store| && MatchesKey(store[i], iface.forClass, key) ==> store[i] == row
    ensures Find(iface, store, key) == Some(row)
  {
    var i :| 0 <= i < |store| && store[i] == row;
  }

  /**
   * The shared body of `getByReferencedPrimaryKey` and
   * `getByReferencedUniqueKey`: route to the first serving provider's
   * interface, build that provider's context, and return what the
   * interface finds (null included).
   */
  function GetByReferencedKey(referenceOf: string, key: seq<Field>, context: GlobalContext, store: LegacyStore)
    : (r: Result<Option<Declared>, LegacyError>)
    ensures r.Failure? <==> GetInterfaceForClass(referenceOf, context).Failure?
    ensures r.Failure? ==> r.error == NoProviderFor(referenceOf)
    ensures r.Success? ==> r.value == Find(GetInterfaceForClass(referenceOf, context).value, store, key)
  {
    match GetInterfaceForClass(referenceOf, context)
    case Failure(e) => Failure(e)
    case Success(iface) =>
      match GetProviderContextForClass(referenceOf, context)
      case Failure(e) => Failure(e)
      case Success(_) => Success(Find(iface, store, key))
  }

  /** `getByReferencedPrimaryKey`: `findByPrimary` of the first serving provider's interface. */
  function GetByReferencedPrimaryKey(referenceOf: string, primaryKey: seq<Field>, context: GlobalContext, store: LegacyStore)
    : (r: Result<Option<Declared>, LegacyError>)
    ensures r.Failure? <==> GetInterfaceForClass(referenceOf, context).Failure?
    ensures r.Failure? ==> r.error == NoProviderFor(referenceOf)
    ensures r.Success? ==> r.value == Find(GetInterfaceForClass(referenceOf, context).value, store, primaryKey)
  {
    GetByReferencedKey(referenceOf, primaryKey, context, store)
  }

  /** `getByReferencedUniqueKey`: `findByUnique` of the first serving provider's interface. */
  function GetByReferencedUniqueKey(referenceOf: string, uniqueKey: seq<Field>, context: GlobalContext, store: LegacyStore)
    : (r: Result<Option<Declared>, LegacyError>)
    ensures r.Failure? <==> GetInterfaceForClass(referenceOf, context).Failure?
    ensures r.Failure? ==> r.error == NoProviderFor(referenceOf)
    ensures r.Success? ==> r.value == Find(GetInterfaceForClass(referenceOf, context).value, store, uniqueKey)
  {
    GetByReferencedKey(referenceOf, uniqueKey, context, store)
  }

  /**
   * `getByReference` (without its cache): a primary-key reference goes to
   * the primary-key lookup, a unique-key reference to the unique-key
   * lookup, with `referenceOf` and the reference's value; any other key
   * type is an invalid declaration.
   */
  function GetByReference(reference: Value, context: GlobalContext, store: LegacyStore)
    : (r: Result<Option<Declared>, LegacyError>)
    requires reference.Ref?
    ensures reference.key == PrimaryKey ==>
      r == GetByReferencedPrimaryKey(reference.referenceOf, reference.value, context, store)
    ensures reference.key == UniqueKey ==>
      r == GetByReferencedUniqueKey(reference.referenceOf, reference.value, context, store)
    ensures reference.key.OtherKey? ==> r == Failure(InvalidReferenceDeclaration)
  {
    match reference.key
    case PrimaryKey => GetByReferencedPrimaryKey(reference.referenceOf, reference.value, context, store)
    case UniqueKey => GetByReferencedUniqueKey(reference.referenceOf, reference.value, context, store)
    case OtherKey(_) => Failure(InvalidReferenceDeclaration)
  }

  /**
   * `getPrimaryKeyByReference`: a primary-key reference gives its value
   * with no lookup; a unique-key reference is looked up, a miss being a
   * BadRequestError and a hit giving the found resource's primary key; any
   * other key type is an invalid declaration.
   */
  function GetPrimaryKeyByReference(reference: Value, context: GlobalContext, store: LegacyStore)
    : (r: Result<seq<Field>, LegacyError>)
    requires reference.Ref?
    ensures reference.key == PrimaryKey ==> r == Success(reference.value)
    ensures reference.key.OtherKey? ==> r == Failure(InvalidReferenceDeclaration)
    ensures reference.key == UniqueKey ==>
      match GetByReference(reference, context, store)
      case Failure(e) => r == Failure(e)
      case Success(None) => r == Failure(NotFoundByReference(reference))
      case Success(Some(found)) => r == BuildPrimaryKeyTo(found.cls, found.fields)
  {
    match reference.key
    case PrimaryKey => Success(reference.value)
    case UniqueKey =>
      (match GetByReference(reference, context, store)
       case Failure(e) => Failure(e)
       case Success(None) => Failure(NotFoundByReference(reference))
       case Success(Some(found)) => BuildPrimaryKeyTo(found.cls, found.fields))
    case OtherKey(_) => Failure(InvalidReferenceDeclaration)
  }

  /**
   * `getUniqueKeyByReference`: the mirror image; a miss is an error here
   * too, never null.
   */
  function GetUniqueKeyByReference(reference: Value, context: GlobalContext, store: LegacyStore)
    : (r: Result<seq<Field>, LegacyError>)
    requires reference.Ref?
    ensures reference.key == UniqueKey ==> r == Success(reference.value)
    ensures reference.key.OtherKey? ==> r == Failure(InvalidReferenceDeclaration)
    ensures reference.key == PrimaryKey ==>
      match GetByReference(reference, context, store)
      case Failure(e) => r == Failure(e)
      case Success(None) => r == Failure(NotFoundByReference(reference))
      case Success(Some(found)) => r == BuildUniqueKeyTo(found.cls, found.fields)
  {
    match reference.key
    case UniqueKey => Success(reference.value)
    case PrimaryKey =>
      (match GetByReference(reference, context, store)
       case Failure(e) => Failure(e)
       case Success(None) => Failure(NotFoundByReference(reference))
       case Success(Some(found)) => BuildUniqueKeyTo(found.cls, found.fields))
    case OtherKey(_) => Failure(InvalidReferenceDeclaration)
  }

  /** A stored resource matches its own projection onto any keys. */
  lemma MatchesOwnKey(row: Declared, keys: seq<string>)
    ensures MatchesKey(row, row.cls.name, Pick(row.fields, keys))
  {
    var key := Pick(row.fields, keys);
    Projection(row.fields, keys);
    forall i | 0 <= i < |key|
      ensures Get(row.fields, key[i].name) == Get(key, key[i].name)
    {
      assert HasKey(key, key[i].name);
    }
  }

  /**
   * Round trip through the remote state: the unique key looked up by a
   * stored resource's primary-key reference, looked up again by unique
   * key, gives back that primary key. It needs the class's interface to
   * manage that class, valid key declarations, the resource to carry both
   * keys, and no other stored resource of its class to share either key.
   */
  lemma KeyByReferenceRoundTrip(row: Declared, context: GlobalContext, store: LegacyStore)
    requires GetInterfaceForClass(row.cls.name, context).Success?
    requires GetInterfaceForClass(row.cls.name, context).value.forClass == row.cls.name
    requires DefineReferenceKeyConstituentsOf(row.cls).Success?
    requires var keys := DefineReferenceKeyConstituentsOf(row.cls).value;
      HasAll(row.fields, keys.primary) && HasAll(row.fields, keys.unique)
    requires row in store
    requires var keys := DefineReferenceKeyConstituentsOf(row.cls).value;
      forall i :: 0 <= i < |store| ==>
        (MatchesKey(store[i], row.cls.name, Pick(row.fields, keys.primary)) ==> store[i] == row) &&
        (MatchesKey(store[i], row.cls.name, Pick(row.fields, keys.unique)) ==> store[i] == row)
    ensures var keys := DefineReferenceKeyConstituentsOf(row.cls).value;
      var byPrimary := Ref(row.cls.name, PrimaryKey, Pick(row.fields, keys.primary));
      var unique := GetUniqueKeyByReference(byPrimary, context, store);
      unique == Success(Pick(row.fields, keys.unique)) &&
      GetPrimaryKeyByReference(Ref(row.cls.name, UniqueKey, unique.value), context, store) ==
        Success(Pick(row.fields, keys.primary))
  {
    var keys := DefineReferenceKeyConstituentsOf(row.cls).value;
    var iface := GetInterfaceForClass(row.cls.name, context).value;
    MatchesOwnKey(row, keys.primary);
    MatchesOwnKey(row, keys.unique);
    FindsSoleMatch(iface, store, Pick(row.fields, keys.primary), row);
    FindsSoleMatch(iface, store, Pick(row.fields, keys.unique), row);
  }
}
