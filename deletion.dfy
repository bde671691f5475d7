/**
 * `del` and `isMarkedForDeletion`: a declared resource carries an optional
 * symbol-keyed deletion flag, which `del` sets on the object itself.
 */
module Deletion {
  import opened Wrappers
  import opened Values
  import opened Resources

  /** A declared resource object: its attributes, and the value under the deletion symbol if one is set. */
  class DeclaredInstance {
    var resource: Resource
    var deleteMark: Option<Value>

    constructor (resource: Resource)
      ensures this.resource == resource && deleteMark == None
    {
      this.resource := resource;
      deleteMark := None;
    }

    /**
     * `isMarkedForDeletion`: strict equality with `true`. No flag, `false`,
     * or a flag of another type (even a truthy string or number) is unmarked.
     */
    predicate IsMarkedForDeletion(): (b: bool)
      reads this
      ensures b <==> deleteMark.Some? && deleteMark.value.Bool? && deleteMark.value.b
      ensures deleteMark.None? || deleteMark == Some(Str("true")) || deleteMark == Some(Num(1)) ==> !b
    {
      deleteMark == Some(Bool(true))
    }
  }

  /** `del`: sets the flag to `true` on the given object and returns that same object. */
  method Del(instance: DeclaredInstance) returns (marked: DeclaredInstance)
    modifies instance
    ensures marked == instance
    ensures instance.IsMarkedForDeletion()
    ensures instance.resource == old(instance.resource)
    ensures old(instance.IsMarkedForDeletion()) ==> instance.deleteMark == old(instance.deleteMark)
  {
    instance.deleteMark := Some(Bool(true));
    return instance;
  }

  /** `del(del(r))` is still marked and keeps every attribute. */
  method DelTwice(instance: DeclaredInstance) returns (marked: DeclaredInstance)
    modifies instance
    ensures marked == instance && marked.IsMarkedForDeletion()
    ensures instance.resource == old(instance.resource)
  {
    var once := Del(instance);
    marked := Del(once);
  }
}
