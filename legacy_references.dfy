/**
 * The legacy reference tools: validating a class's key declarations,
 * projecting a resource onto its primary or unique key, and building a
 * reference `{ referenceOf, identifiedBy: { key, value } }` to it.
 */
module LegacyReferences {
  import opened Wrappers
  import opened Values

  /** Which key a reference could not be built from. */
  datatype BuildFailure = UniqueKeyMissing | PrimaryKeyMissing | NeitherKeyPresent

  /** Why a resource can not be referenced. */
  datatype ReferenceFailure = NotADomainObject | NotADomainEntity | NoKeyPresent

  /** The errors the legacy subsystem throws. */
  datatype LegacyError =
      /** CanNotReferenceDeclaredResourceClassError: a `primary` or `unique` static is not an array of strings. */
    | CanNotReferenceClass(className: string, property: string)
      /** CanNotBuildReferenceError. */
    | CanNotBuildReference(referenceOf: string, failure: BuildFailure)
      /** CanNotReferenceDeclaredResourceError. */
    | CanNotReferenceResource(reason: ReferenceFailure)
      /** "could not find provider for resource". */
    | NoProviderFor(resourceClassName: string)
      /** "can not createResource on a non DomainEntity object". */
    | NotAnEntityResource
      /** "invalid resource reference declaration": a key type that is neither primary nor unique. */
    | InvalidReferenceDeclaration
      /** A BadRequestError: no resource found by the reference. */
    | NotFoundByReference(reference: Value)
      /** "should have resolved a reference by unique key from resolved resource". */
    | ResolvedToNonUniqueReference
      /** The resolver's lookup chain is deeper than its fuel. */
    | ResolutionTooDeep
      /** executeProposal: the resource to keep is missing from the remote state. */
    | MissingForDoNothing
      /** executeProposal: the created resource can not be found afterwards. */
    | MissingAfterCreate
      /** executeProposal: UPDATE against an interface with no `update`. */
    | UpdateNotSupported
      /** executeProposal: "unsupported proposal action". */
    | UnsupportedProposalAction
      /** executeProposal: a proposal with no desired state reached an interface method that reads it. */
    | NoDesiredState

  /** The key attribute names a class declares. */
  datatype KeyConstituents = KeyConstituents(primary: seq<string>, unique: seq<string>)

  /** JavaScript's falsy values among the ones a static can hold. */
  predicate Falsy(v: Value) {
    v == Undefined || v == Null || v == Bool(false) || v == Num(0) || v == Str("")
  }

  /**
   * `isArrayOfStrings`: a falsy value is rejected, then anything that is not
   * an array, then an array with a non-string element. The empty array passes.
   */
  function IsArrayOfStrings(v: Value): (ok: bool)
    ensures ok <==> v.Arr? && forall i :: 0 <= i < |v.items| ==> v.items[i].Str?
  {
    if Falsy(v) then false
    else if !v.Arr? then false
    else forall i :: 0 <= i < |v.items| ==> v.items[i].Str?
  }

  /** The strings held by an array of strings. */
  function Strings(items: seq<Value>): (ss: seq<string>)
    requires forall i :: 0 <= i < |items| ==> items[i].Str?
    ensures |ss| == |items| && forall i :: 0 <= i < |items| ==> items[i] == Str(ss[i])
  {
    seq(|items|, i requires 0 <= i < |items| => items[i].s)
  }

  /**
   * `defineReferenceKeyConstituentsOf`: `primary` is checked first, then
   * `unique`; an error names the offending static; on success both arrays
   * come back unchanged.
   */
  function DefineReferenceKeyConstituentsOf(cls: DomainClass): (r: Result<KeyConstituents, LegacyError>)
    ensures r.Success? <==> IsArrayOfStrings(cls.primary) && IsArrayOfStrings(cls.unique)
    ensures !IsArrayOfStrings(cls.primary) ==> r == Failure(CanNotReferenceClass(cls.name, "primary"))
    ensures IsArrayOfStrings(cls.primary) && !IsArrayOfStrings(cls.unique) ==>
      r == Failure(CanNotReferenceClass(cls.name, "unique"))
    ensures r.Success? ==>
      |r.value.primary| == |cls.primary.items| && |r.value.unique| == |cls.unique.items| &&
      (forall i :: 0 <= i < |r.value.primary| ==> cls.primary.items[i] == Str(r.value.primary[i])) &&
      (forall i :: 0 <= i < |r.value.unique| ==> cls.unique.items[i] == Str(r.value.unique[i]))
  {
    if !IsArrayOfStrings(cls.primary) then Failure(CanNotReferenceClass(cls.name, "primary"))
    else if !IsArrayOfStrings(cls.unique) then Failure(CanNotReferenceClass(cls.name, "unique"))
    else Success(KeyConstituents(Strings(cls.primary.items), Strings(cls.unique.items)))
  }

  /** The projection onto `keys` holds exactly those keys, each with the input's value. */
  lemma Projection(fs: seq<Field>, keys: seq<string>)
    ensures forall k :: (HasKey(Pick(fs, keys), k) <==> k in keys) && (k in keys ==> Get(Pick(fs, keys), k) == Get(fs, k))
  {
    forall k
      ensures (HasKey(Pick(fs, keys), k) <==> k in keys) && (k in keys ==> Get(Pick(fs, keys), k) == Get(fs, k))
    {
      PickSpec(fs, keys, k);
    }
  }

  /**
   * The shared body of `buildUniqueKeyTo` and `buildPrimaryKeyTo`: every
   * key must be present (membership, whatever its value), and the result
   * is the projection onto the keys.
   */
  function BuildKey(to: DomainClass, using: seq<Field>, keys: seq<string>, missing: BuildFailure)
    : (r: Result<seq<Field>, LegacyError>)
    ensures r.Success? <==> HasAll(using, keys)
    ensures !HasAll(using, keys) ==> r == Failure(CanNotBuildReference(to.name, missing))
    ensures r.Success? ==>
      r.value == Pick(using, keys) &&
      forall k :: (HasKey(r.value, k) <==> k in keys) && (k in keys ==> Get(r.value, k) == Get(using, k))
  {
    Projection(using, keys);
    if !HasAll(using, keys) then Failure(CanNotBuildReference(to.name, missing))
    else Success(Pick(using, keys))
  }

  /**
   * `buildUniqueKeyTo`: a key-declaration error propagates (the `primary`
   * check included); a missing unique-key attribute is a
   * CanNotBuildReferenceError; otherwise the result holds exactly the unique
   * keys, with the values copied from the input.
   */
  function BuildUniqueKeyTo(to: DomainClass, using: seq<Field>): (r: Result<seq<Field>, LegacyError>)
    ensures DefineReferenceKeyConstituentsOf(to).Failure? ==> r == Failure(DefineReferenceKeyConstituentsOf(to).error)
    ensures DefineReferenceKeyConstituentsOf(to).Success? ==>
      var unique := DefineReferenceKeyConstituentsOf(to).value.unique;
      (r.Success? <==> HasAll(using, unique)) &&
      (!HasAll(using, unique) ==> r == Failure(CanNotBuildReference(to.name, UniqueKeyMissing))) &&
      (r.Success? ==> forall k :: (HasKey(r.value, k) <==> k in unique) && (k in unique ==> Get(r.value, k) == Get(using, k)))
  {
    match DefineReferenceKeyConstituentsOf(to)
    case Failure(e) => Failure(e)
    case Success(keys) => BuildKey(to, using, keys.unique, UniqueKeyMissing)
  }

  /** `buildPrimaryKeyTo`: the same, over the primary key. */
  function BuildPrimaryKeyTo(to: DomainClass, using: seq<Field>): (r: Result<seq<Field>, LegacyError>)
    ensures DefineReferenceKeyConstituentsOf(to).Failure? ==> r == Failure(DefineReferenceKeyConstituentsOf(to).error)
    ensures DefineReferenceKeyConstituentsOf(to).Success? ==>
      var primary := DefineReferenceKeyConstituentsOf(to).value.primary;
      (r.Success? <==> HasAll(using, primary)) &&
      (!HasAll(using, primary) ==> r == Failure(CanNotBuildReference(to.name, PrimaryKeyMissing))) &&
      (r.Success? ==> forall k :: (HasKey(r.value, k) <==> k in primary) && (k in primary ==> Get(r.value, k) == Get(using, k)))
  {
    match DefineReferenceKeyConstituentsOf(to)
    case Failure(e) => Failure(e)
    case Success(keys) => BuildKey(to, using, keys.primary, PrimaryKeyMissing)
  }

  /**
   * `buildReferenceTo`: by unique key when every unique-key attribute is
   * present (even if the primary key is too), else by primary key when every
   * primary-key attribute is present, else a CanNotBuildReferenceError.
   */
  function BuildReferenceTo(to: DomainClass, using: seq<Field>): (r: Result<Value, LegacyError>)
    ensures DefineReferenceKeyConstituentsOf(to).Failure? ==> r == Failure(DefineReferenceKeyConstituentsOf(to).error)
    ensures DefineReferenceKeyConstituentsOf(to).Success? ==>
      var keys := DefineReferenceKeyConstituentsOf(to).value;
      (HasAll(using, keys.unique) ==> r == Success(Ref(to.name, UniqueKey, Pick(using, keys.unique)))) &&
      (!HasAll(using, keys.unique) && HasAll(using, keys.primary) ==>
        r == Success(Ref(to.name, PrimaryKey, Pick(using, keys.primary)))) &&
      (!HasAll(using, keys.unique) && !HasAll(using, keys.primary) ==>
        r == Failure(CanNotBuildReference(to.name, NeitherKeyPresent)))
    ensures r.Success? ==> r.value.Ref? && r.value.referenceOf == to.name
  {
    match DefineReferenceKeyConstituentsOf(to)
    case Failure(e) => Failure(e)
    case Success(keys) =>
      if HasAll(using, keys.unique) then
        Success(Ref(to.name, UniqueKey, BuildUniqueKeyTo(to, using).value))
      else if HasAll(using, keys.primary) then
        Success(Ref(to.name, PrimaryKey, BuildPrimaryKeyTo(to, using).value))
      else Failure(CanNotBuildReference(to.name, NeitherKeyPresent))
  }

  /**
   * `isUniqueKeyReference`: only the key type counts. A primary-key
   * reference, or one of any other key type, is not by unique key.
   */
  predicate IsUniqueKeyReference(ref: Value): (b: bool)
    requires ref.Ref?
    ensures b <==> !(ref.key == PrimaryKey || ref.key.OtherKey?)
  {
    ref.key == UniqueKey
  }

  /** The answer depends on the key type alone: not on the class referenced, nor on the key's values. */
  lemma UniqueKeyByKeyTypeOnly(a: Value, b: Value)
    requires a.Ref? && b.Ref? && a.key == b.key
    ensures IsUniqueKeyReference(a) == IsUniqueKeyReference(b)
  {
  }

  /** A built reference is by unique key exactly when the input carries the whole unique key. */
  lemma ReferencePrefersUnique(to: DomainClass, using: seq<Field>)
    requires BuildReferenceTo(to, using).Success?
    ensures IsUniqueKeyReference(BuildReferenceTo(to, using).value) <==>
      HasAll(using, DefineReferenceKeyConstituentsOf(to).value.unique)
  {
  }

  /** Building a reference from a reference's own key gives that reference back. */
  lemma ReferenceRebuildsFromOwnKey(to: DomainClass, using: seq<Field>)
    requires BuildReferenceTo(to, using).Success?
    ensures BuildReferenceTo(to, BuildReferenceTo(to, using).value.value) == BuildReferenceTo(to, using)
  {
    var keys := DefineReferenceKeyConstituentsOf(to).value;
    if HasAll(using, keys.unique) {
      PickHasAll(using, keys.unique);
      PickIdempotent(using, keys.unique);
    } else {
      var key := Pick(using, keys.primary);
      PickHasAll(using, keys.primary);
      PickIdempotent(using, keys.primary);
      Projection(using, keys.primary);
    }
  }

  /**
   * `getReferenceTo`: anything but a DomainObject, and a DomainObject that is
   * not a DomainEntity, can not be referenced; otherwise the reference is
   * built against the resource's own class, a CanNotBuildReferenceError being
   * rewrapped and any other error passed on unchanged.
   */
  function GetReferenceTo(resource: Value): (r: Result<Value, LegacyError>)
    ensures !resource.Dobj? ==> r == Failure(CanNotReferenceResource(NotADomainObject))
    ensures resource.Dobj? && !resource.cls.isEntity ==> r == Failure(CanNotReferenceResource(NotADomainEntity))
    ensures resource.Dobj? && resource.cls.isEntity ==>
      var built := BuildReferenceTo(resource.cls, resource.fields);
      (built.Success? ==> r == built) &&
      (built.Failure? && built.error.CanNotBuildReference? ==> r == Failure(CanNotReferenceResource(NoKeyPresent))) &&
      (built.Failure? && !built.error.CanNotBuildReference? ==> r == built)
  {
    if !resource.Dobj? then Failure(CanNotReferenceResource(NotADomainObject))
    else if !resource.cls.isEntity then Failure(CanNotReferenceResource(NotADomainEntity))
    else
      match BuildReferenceTo(resource.cls, resource.fields)
      case Success(ref) => Success(ref)
      case Failure(e) =>
        if e.CanNotBuildReference? then Failure(CanNotReferenceResource(NoKeyPresent)) else Failure(e)
  }
}
