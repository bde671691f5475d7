/**
 * Resources of the current engine, the remote store its DAOs read and
 * write, and the DAO records themselves.
 */
module Resources {
  import opened Wrappers
  import opened Values

  /**
   * What a resource class declares about its attributes: the primary key
   * (when the class declares one), the unique key, and the names of its
   * metadata and readonly attributes.
   */
  datatype EntityClass = EntityClass(
    name: string,
    primary: Option<seq<string>>,
    unique: seq<string>,
    metadata: set<string>,
    readonly: set<string>)

  /** An instance of a resource class; its attributes in declaration order. */
  datatype Resource = Resource(cls: EntityClass, attrs: seq<Field>)

  /** `isRefByPrimary({ of: cls })(ref)`: the class declares a primary key and the ref carries all of it. */
  predicate IsRefByPrimary(cls: EntityClass, ref: seq<Field>) {
    cls.primary.Some? && HasAll(ref, cls.primary.value)
  }

  /** `isRefByUnique({ of: cls })(ref)`: the ref carries every unique-key attribute. */
  predicate IsRefByUnique(cls: EntityClass, ref: seq<Field>) {
    HasAll(ref, cls.unique)
  }

  /** `refByUnique(resource)`: the resource's unique-key projection. */
  function RefByUnique(r: Resource): (ref: seq<Field>)
    ensures IsRefByUnique(r.cls, ref)
  {
    PickHasAll(r.attrs, r.cls.unique);
    Pick(r.attrs, r.cls.unique)
  }

  /** `refByPrimary(resource)`: the resource's primary-key projection, for a class that declares one. */
  function RefByPrimary(r: Resource): (ref: seq<Field>)
    requires r.cls.primary.Some?
    ensures IsRefByPrimary(r.cls, ref)
  {
    PickHasAll(r.attrs, r.cls.primary.value);
    Pick(r.attrs, r.cls.primary.value)
  }

  /**
   * Where a resource lives in the remote store: its kind and the values of
   * its unique-key attributes, in the order the class declares them.
   */
  datatype Identity = Identity(kind: string, key: seq<Value>)

  function IdentityOf(cls: EntityClass, ref: seq<Field>): (id: Identity)
    ensures id.kind == cls.name && |id.key| == |cls.unique|
  {
    Identity(cls.name, seq(|cls.unique|, i requires 0 <= i < |cls.unique| => Get(ref, cls.unique[i])))
  }

  /** Two refs agreeing on every unique-key attribute address the same stored resource. */
  lemma SameIdentity(cls: EntityClass, a: seq<Field>, b: seq<Field>)
    requires forall k <- cls.unique :: Get(a, k) == Get(b, k)
    ensures IdentityOf(cls, a) == IdentityOf(cls, b)
  {
  }

  /** The remote state every DAO reads and writes, addressed by identity. */
  type Store = map<Identity, Resource>

  /**
   * A DAO after `genDeclastructDao`: the class it serves and which of the
   * optional members are defined (`get.one.byPrimary`, `get.ref.byPrimary`,
   * `get.ref.byUnique`, `set.upsert`, `set.delete`). `get.one.byUnique`,
   * `get.one.byRef` and `set.findsert` are always present.
   */
  datatype Dao = Dao(
    dobj: EntityClass,
    byPrimary: bool,
    refByPrimary: bool,
    refByUnique: bool,
    upsert: bool,
    delete: bool)

  /** `dao.get.one.byUnique(ref)`: the stored resource with the ref's unique key, if any. */
  function ByUnique(dao: Dao, store: Store, ref: seq<Field>): (found: Option<Resource>)
    ensures found.Some? <==> IdentityOf(dao.dobj, ref) in store
    ensures found.Some? ==> found.value == store[IdentityOf(dao.dobj, ref)]
  {
    var id := IdentityOf(dao.dobj, ref);
    if id in store then Some(store[id]) else None
  }

  /** The stored resource `r` carries the ref's primary-key values. */
  predicate PrimaryMatches(cls: EntityClass, r: Resource, ref: seq<Field>)
    requires cls.primary.Some?
  {
    forall k <- cls.primary.value :: Get(r.attrs, k) == Get(ref, k)
  }

  /**
   * `dao.get.one.byPrimary(ref)`: some stored resource of the DAO's kind
   * whose primary-key values match the ref; none when no such resource exists.
   */
  ghost function ByPrimary(dao: Dao, store: Store, ref: seq<Field>): (found: Option<Resource>)
    requires dao.dobj.primary.Some?
    ensures found.Some? <==>
      exists id :: id in store && id.kind == dao.dobj.name && PrimaryMatches(dao.dobj, store[id], ref)
    ensures found.Some? ==>
      exists id :: id in store && id.kind == dao.dobj.name && store[id] == found.value &&
        PrimaryMatches(dao.dobj, found.value, ref)
  {
    if exists id :: id in store && id.kind == dao.dobj.name && PrimaryMatches(dao.dobj, store[id], ref) then
      var id :| id in store && id.kind == dao.dobj.name && PrimaryMatches(dao.dobj, store[id], ref);
      Some(store[id])
    else
      None
  }

  /** `dao.set.findsert(r)`: keep what is stored under the resource's unique key, else insert `r`. */
  function Findsert(dao: Dao, store: Store, r: Resource): (next: Store)
    ensures IdentityOf(dao.dobj, r.attrs) in next
    ensures IdentityOf(dao.dobj, r.attrs) in store ==> next == store
    ensures IdentityOf(dao.dobj, r.attrs) !in store ==> next == store[IdentityOf(dao.dobj, r.attrs) := r]
  {
    var id := IdentityOf(dao.dobj, r.attrs);
    if id in store then store else store[id := r]
  }

  /** `dao.set.upsert(r)`: store `r` under its unique key, replacing what was there. */
  function Upsert(dao: Dao, store: Store, r: Resource): (next: Store)
    ensures next.Keys == store.Keys + {IdentityOf(dao.dobj, r.attrs)}
    ensures next[IdentityOf(dao.dobj, r.attrs)] == r
    ensures forall id :: id in store && id != IdentityOf(dao.dobj, r.attrs) ==> next[id] == store[id]
  {
    store[IdentityOf(dao.dobj, r.attrs) := r]
  }

  /** `dao.set.delete(ref)`: remove whatever is stored under the ref's unique key. */
  function Delete(dao: Dao, store: Store, ref: seq<Field>): (next: Store)
    ensures next.Keys == store.Keys - {IdentityOf(dao.dobj, ref)}
    ensures forall id :: id in next ==> next[id] == store[id]
  {
    store - {IdentityOf(dao.dobj, ref)}
  }
}
