/**
 * A change: the action that brings one resource's remote state to its
 * desired state, and `computeChange`, which chooses it.
 */
module Changes {
  import opened Wrappers
  import opened Values
  import opened Resources

  datatype Action = Keep | Create | Update | Destroy | Replace | Omit

  /** `forResource`: the class name and unique-identifier slug of the resource a change is for. */
  datatype ResourceTag = ResourceTag(cls: string, slug: string)

  /**
   * The displayable difference: the two metadata-stripped sides that the
   * diff renderer compares (remote first, desired second), an absent side
   * shown as the empty object.
   */
  datatype Difference = Difference(remote: seq<Field>, desired: seq<Field>)

  datatype Change = Change(
    forResource: ResourceTag,
    action: Action,
    desired: Option<Resource>,
    remote: Option<Resource>,
    difference: Option<Difference>)

  /** `omitMetadataValues(r)`: the attributes that are not metadata, in order. */
  function WithoutMetadata(r: Resource): seq<Field> {
    Without(r.attrs, r.cls.metadata)
  }

  /**
   * `resourcesAreEquivalent`: the metadata-stripped sides serialize to the
   * same JSON text, i.e. the same defined fields in the same order (the
   * class itself is not serialized).
   */
  predicate Equivalent(remote: Resource, desired: Resource) {
    Defined(WithoutMetadata(remote)) == Defined(WithoutMetadata(desired))
  }

  /** `computeDiff`: nothing when both sides are null, else both stripped sides. */
  function ComputeDiff(remote: Option<Resource>, desired: Option<Resource>): (d: Option<Difference>)
    ensures d.None? <==> remote.None? && desired.None?
    ensures d.Some? && remote.None? ==> d.value.remote == []
    ensures d.Some? && desired.None? ==> d.value.desired == []
  {
    if remote.None? && desired.None? then None
    else
      Some(Difference(
        if remote.Some? then WithoutMetadata(remote.value) else [],
        if desired.Some? then WithoutMetadata(desired.value) else []))
  }

  /**
   * `computeChange`: CREATE when nothing is stored, DESTROY when nothing is
   * desired, KEEP when both sides are equivalent, UPDATE otherwise. The code
   * dereferences null when both sides are missing, hence the precondition.
   * `slug` stands for the foreign `getUniqueIdentifierSlug`.
   */
  function ComputeChange(desired: Option<Resource>, remote: Option<Resource>, slug: Resource -> string): (c: Change)
    requires desired.Some? || remote.Some?
    ensures c.action == Create <==> remote.None?
    ensures c.action == Destroy <==> remote.Some? && desired.None?
    ensures c.action == Keep <==> remote.Some? && desired.Some? && Equivalent(remote.value, desired.value)
    ensures c.action == Update <==> remote.Some? && desired.Some? && !Equivalent(remote.value, desired.value)
    ensures c.difference.None? <==> c.action == Keep
    ensures c.difference.Some? ==> c.difference == ComputeDiff(remote, desired)
    ensures c.desired == desired && c.remote == remote
    ensures desired.Some? ==> c.forResource == ResourceTag(desired.value.cls.name, slug(desired.value))
    ensures desired.None? ==> c.forResource == ResourceTag(remote.value.cls.name, slug(remote.value))
  {
    var action :=
      if remote.None? then Create
      else if desired.None? then Destroy
      else if Equivalent(remote.value, desired.value) then Keep
      else Update;
    var difference := if action == Keep then None else ComputeDiff(remote, desired);
    var subject := if desired.Some? then desired.value else remote.value;
    Change(ResourceTag(subject.cls.name, slug(subject)), action, desired, remote, difference)
  }

  /**
   * Differences confined to metadata never produce UPDATE: a desired state
   * that differs from the stored one only in the value of a metadata
   * attribute yields KEEP.
   */
  lemma MetadataOnlyDifferenceKeeps(remote: Resource, k: string, v: Value, slug: Resource -> string)
    requires k in remote.cls.metadata
    ensures ComputeChange(Some(Resource(remote.cls, Assign(remote.attrs, k, v))), Some(remote), slug).action == Keep
  {
    WithoutAssignDropped(remote.attrs, remote.cls.metadata, k, v);
  }
}
