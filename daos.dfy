/**
 * `genDeclastructDao` and the ref conversions it wires in:
 * `getRefByPrimary` and `getRefByUnique`.
 */
module Daos {
  import opened Wrappers
  import opened Values
  import opened Resources

  /**
   * What a provider hands to `genDeclastructDao`: the class, and whether
   * `get.one.byPrimary`, `set.upsert` and `set.delete` are supplied (not null).
   */
  datatype DaoInput = DaoInput(dobj: EntityClass, byPrimary: bool, upsert: bool, delete: bool)

  datatype DaoError =
    | InvalidRefType                 // neither primary- nor unique-shaped, in the ref conversions
    | NeitherRefShape                // the BadRequestError of `get.one.byRef`
    | ByPrimaryUnsupported           // "dao does not support byPrimary lookup"
    | NoPrimaryDeclared              // `refByPrimary` of a resource whose class declares no primary key
    | NotAFunction(member: string)   // a call to a member the DAO leaves undefined

  /**
   * `genDeclastructDao`: `hasPrimary` is whether `byPrimary` was supplied;
   * only then are `get.one.byPrimary` and both `get.ref` members defined.
   * `upsert` and `delete` pass through (null becomes undefined).
   */
  function GenDeclastructDao(input: DaoInput): (dao: Dao)
    ensures dao.dobj == input.dobj
    ensures dao.byPrimary == input.byPrimary
    ensures dao.refByPrimary == input.byPrimary && dao.refByUnique == input.byPrimary
    ensures dao.upsert == input.upsert && dao.delete == input.delete
  {
    var hasPrimary := input.byPrimary;
    if hasPrimary then Dao(input.dobj, true, true, true, input.upsert, input.delete)
    else Dao(input.dobj, false, false, false, input.upsert, input.delete)
  }

  /**
   * `get.one.byRef`: a primary-shaped ref goes to `byPrimary` when the DAO
   * has it (checked first), a unique-shaped ref to `byUnique`, anything else
   * is a BadRequestError.
   */
  ghost function ByRef(dao: Dao, store: Store, ref: seq<Field>): (r: Result<Option<Resource>, DaoError>)
    requires dao.byPrimary ==> dao.dobj.primary.Some?
    ensures r.Failure? <==> !(dao.byPrimary && IsRefByPrimary(dao.dobj, ref)) && !IsRefByUnique(dao.dobj, ref)
    ensures r.Failure? ==> r.error == NeitherRefShape
    ensures dao.byPrimary && IsRefByPrimary(dao.dobj, ref) ==> r == Success(ByPrimary(dao, store, ref))
    ensures !(dao.byPrimary && IsRefByPrimary(dao.dobj, ref)) && IsRefByUnique(dao.dobj, ref) ==>
      r == Success(ByUnique(dao, store, ref))
  {
    if dao.byPrimary && IsRefByPrimary(dao.dobj, ref) then Success(ByPrimary(dao, store, ref))
    else if IsRefByUnique(dao.dobj, ref) then Success(ByUnique(dao, store, ref))
    else Failure(NeitherRefShape)
  }

  /** `refByPrimary(resource)`, failing when the resource's class declares no primary key. */
  function PrimaryRefOf(r: Resource): (ref: Result<seq<Field>, DaoError>)
    ensures ref.Success? <==> r.cls.primary.Some?
    ensures ref.Success? ==> ref.value == RefByPrimary(r)
  {
    if r.cls.primary.Some? then Success(RefByPrimary(r)) else Failure(NoPrimaryDeclared)
  }

  /**
   * `getRefByPrimary`: a primary-shaped ref comes back as it is without a
   * read; a unique-shaped one is fetched by unique key, a miss giving null
   * and a hit the fetched resource's primary-key projection; any other ref
   * is an "invalid ref type" error.
   */
  function GetRefByPrimary(dao: Dao, store: Store, ref: seq<Field>): (r: Result<Option<seq<Field>>, DaoError>)
    ensures IsRefByPrimary(dao.dobj, ref) ==> r == Success(Some(ref))
    ensures !IsRefByPrimary(dao.dobj, ref) && !IsRefByUnique(dao.dobj, ref) ==> r == Failure(InvalidRefType)
    ensures !IsRefByPrimary(dao.dobj, ref) && IsRefByUnique(dao.dobj, ref) ==>
      match ByUnique(dao, store, ref)
      case None => r == Success(None)
      case Some(found) =>
        (found.cls.primary.Some? ==> r == Success(Some(RefByPrimary(found)))) &&
        (found.cls.primary.None? ==> r == Failure(NoPrimaryDeclared))
    ensures r.Success? && r.value.Some? && !IsRefByPrimary(dao.dobj, ref) ==>
      exists found :: ByUnique(dao, store, ref) == Some(found) && IsRefByPrimary(found.cls, r.value.value)
  {
    if IsRefByPrimary(dao.dobj, ref) then Success(Some(ref))
    else if IsRefByUnique(dao.dobj, ref) then
      match ByUnique(dao, store, ref)
      case None => Success(None)
      case Some(found) =>
        match PrimaryRefOf(found)
        case Failure(e) => Failure(e)
        case Success(p) => Success(Some(p))
    else Failure(InvalidRefType)
  }

  /**
   * `getRefByUnique`: a unique-shaped ref comes back as it is without a
   * read; a primary-shaped one needs the DAO's `byPrimary` (else an error),
   * a miss giving null and a hit the fetched resource's unique-key
   * projection; any other ref is an "invalid ref type" error.
   */
  ghost function GetRefByUnique(dao: Dao, store: Store, ref: seq<Field>): (r: Result<Option<seq<Field>>, DaoError>)
    ensures IsRefByUnique(dao.dobj, ref) ==> r == Success(Some(ref))
    ensures !IsRefByUnique(dao.dobj, ref) && !IsRefByPrimary(dao.dobj, ref) ==> r == Failure(InvalidRefType)
    ensures !IsRefByUnique(dao.dobj, ref) && IsRefByPrimary(dao.dobj, ref) && !dao.byPrimary ==>
      r == Failure(ByPrimaryUnsupported)
    ensures !IsRefByUnique(dao.dobj, ref) && IsRefByPrimary(dao.dobj, ref) && dao.byPrimary ==>
      match ByPrimary(dao, store, ref)
      case None => r == Success(None)
      case Some(found) => r == Success(Some(RefByUnique(found)))
    ensures r.Success? && r.value.Some? && !IsRefByUnique(dao.dobj, ref) ==>
      exists found :: ByPrimary(dao, store, ref) == Some(found) && IsRefByUnique(found.cls, r.value.value)
  {
    if IsRefByUnique(dao.dobj, ref) then Success(Some(ref))
    else if IsRefByPrimary(dao.dobj, ref) then
      if !dao.byPrimary then Failure(ByPrimaryUnsupported)
      else
        match ByPrimary(dao, store, ref)
        case None => Success(None)
        case Some(found) => Success(Some(RefByUnique(found)))
    else Failure(InvalidRefType)
  }

  /** `dao.get.ref.byPrimary(ref)`: defined only when the DAO was built with `byPrimary`. */
  function CallRefByPrimary(dao: Dao, store: Store, ref: seq<Field>): (r: Result<Option<seq<Field>>, DaoError>)
    ensures !dao.refByPrimary ==> r == Failure(NotAFunction("get.ref.byPrimary"))
    ensures dao.refByPrimary ==> r == GetRefByPrimary(dao, store, ref)
  {
    if dao.refByPrimary then GetRefByPrimary(dao, store, ref) else Failure(NotAFunction("get.ref.byPrimary"))
  }

  /** `dao.get.ref.byUnique(ref)`: defined only when the DAO was built with `byPrimary`. */
  ghost function CallRefByUnique(dao: Dao, store: Store, ref: seq<Field>): (r: Result<Option<seq<Field>>, DaoError>)
    ensures !dao.refByUnique ==> r == Failure(NotAFunction("get.ref.byUnique"))
    ensures dao.refByUnique ==> r == GetRefByUnique(dao, store, ref)
  {
    if dao.refByUnique then GetRefByUnique(dao, store, ref) else Failure(NotAFunction("get.ref.byUnique"))
  }

  /**
   * For a DAO built by `genDeclastructDao`, `get.ref.byUnique` never reports
   * a missing `byPrimary`: the two are defined together.
   */
  lemma GeneratedRefByUniqueHasByPrimary(input: DaoInput, store: Store, ref: seq<Field>)
    ensures CallRefByUnique(GenDeclastructDao(input), store, ref) != Failure(ByPrimaryUnsupported)
  {
  }

  /**
   * Round trip: for a stored resource whose primary key no other stored
   * resource of its kind shares, converting its primary ref to a unique ref
   * and back gives the primary ref again. The class must have a primary-key
   * attribute that is not part of its unique key (otherwise the unique
   * projection is itself primary-shaped and comes back unchanged).
   */
  lemma RefRoundTrip(input: DaoInput, store: Store, r: Resource)
    requires input.byPrimary && input.dobj.primary.Some? && r.cls == input.dobj
    requires IdentityOf(r.cls, r.attrs) in store && store[IdentityOf(r.cls, r.attrs)] == r
    requires forall id :: id in store && id.kind == r.cls.name && PrimaryMatches(r.cls, store[id], RefByPrimary(r)) ==>
      id == IdentityOf(r.cls, r.attrs)
    requires exists k :: k in r.cls.primary.value && k !in r.cls.unique
    ensures var dao := GenDeclastructDao(input);
      var u := CallRefByUnique(dao, store, RefByPrimary(r));
      u.Success? && u.value.Some? && CallRefByPrimary(dao, store, u.value.value) == Success(Some(RefByPrimary(r)))
  {
    var dao := GenDeclastructDao(input);
    var cls := r.cls;
    var p := RefByPrimary(r);
    var k0 :| k0 in cls.primary.value && k0 !in cls.unique;
    forall k <- cls.primary.value
      ensures Get(r.attrs, k) == Get(p, k)
    {
      PickSpec(r.attrs, cls.primary.value, k);
    }
    assert PrimaryMatches(cls, r, p);
    if IsRefByUnique(cls, p) {
      // the primary ref already carries the unique key: both conversions return it unchanged
    } else {
      var found := ByPrimary(dao, store, p);
      assert found == Some(r);
      var u := RefByUnique(r);
      PickSpec(r.attrs, cls.unique, k0);
      assert !IsRefByPrimary(cls, u);
      forall k <- cls.unique
        ensures Get(u, k) == Get(r.attrs, k)
      {
        PickSpec(r.attrs, cls.unique, k);
      }
      SameIdentity(cls, u, r.attrs);
      assert ByUnique(dao, store, u) == Some(r);
    }
  }
}
