/**
 * The common comparable form of the legacy subsystem: every reference in a
 * value is rewritten into its fully expanded unique-key form, so that two
 * references to the same resource compare equal whichever key they were
 * declared by. A primary-key reference is turned into a unique-key one by
 * looking the resource up in the remote state, which is why the recursion
 * carries `fuel`: the number of such look-ups it may still make.
 */
module LegacyComparable {
  import opened Wrappers
  import opened Values
  import opened LegacyReferences
  import opened LegacyProviders
  import opened LegacyLookups

  /** `getByReference` as the resolver uses it: a reference to the resource it finds, or null. */
  type Lookup = Value -> Result<Option<Declared>, LegacyError>

  /** The look-up through the providers of a context, over the remote state. */
  function ByReference(context: GlobalContext, store: LegacyStore): (lookup: Lookup)
    ensures forall reference: Value | reference.Ref? :: lookup(reference) == GetByReference(reference, context, store)
  {
    (reference: Value) => if reference.Ref? then GetByReference(reference, context, store) else Failure(InvalidReferenceDeclaration)
  }

  /** The number of nodes of a value; only used to order the recursive calls. */
  function Size(v: Value): nat {
    match v
    case Arr(items) => 1 + ItemsSize(items)
    case Obj(fields) => 1 + FieldsSize(fields)
    case Dobj(_, fields) => 1 + FieldsSize(fields)
    case Ref(_, _, value) => 1 + FieldsSize(value)
    case _ => 1
  }

  function ItemsSize(items: seq<Value>): nat {
    if items == [] then 0 else Size(items[0]) + ItemsSize(items[1..])
  }

  function FieldsSize(fs: seq<Field>): nat {
    if fs == [] then 0 else Size(fs[0].value) + FieldsSize(fs[1..])
  }

  /**
   * A value in common comparable form: every reference in it, however
   * deeply nested, is by unique key.
   */
  predicate CommonForm(v: Value) {
    match v
    case Arr(items) => forall i :: 0 <= i < |items| ==> CommonForm(items[i])
    case Obj(fields) => forall i :: 0 <= i < |fields| ==> CommonForm(fields[i].value)
    case Dobj(_, fields) => forall i :: 0 <= i < |fields| ==> CommonForm(fields[i].value)
    case Ref(_, key, value) => key == UniqueKey && forall i :: 0 <= i < |value| ==> CommonForm(value[i].value)
    case _ => true
  }

  /** Every field value is in common form. */
  predicate FieldsInCommonForm(fs: seq<Field>) {
    forall i :: 0 <= i < |fs| ==> CommonForm(fs[i].value)
  }

  /** Every array element is in common form. */
  predicate ItemsInCommonForm(items: seq<Value>) {
    forall i :: 0 <= i < |items| ==> CommonForm(items[i])
  }

  /**
   * The look-up half of `resolveReferenceToCommonComparableForm` for a
   * reference that is not by unique key: find the resource (a miss is a
   * BadRequestError), reference it again from what was found, and insist
   * that this gives a unique-key reference.
   */
  function LookUpUniqueReference(reference: Value, lookup: Lookup)
    : (r: Result<Value, LegacyError>)
    requires reference.Ref?
    ensures r.Success? ==> r.value.Ref? && r.value.key == UniqueKey
  {
    match lookup(reference)
    case Failure(e) => Failure(e)
    case Success(None) => Failure(NotFoundByReference(reference))
    case Success(Some(resource)) =>
      match GetReferenceTo(resource)
      case Failure(e) => Failure(e)
      case Success(shallow) =>
        if !shallow.Ref? || shallow.key != UniqueKey then Failure(ResolvedToNonUniqueReference)
        else Success(shallow)
  }

  /**
   * The look-up's outcomes: a failed look-up propagates, a miss is a
   * BadRequestError naming the reference, a resource that can not be
   * referenced propagates that error, a resource referenced by anything
   * but its unique key is an unexpected code path, and otherwise the
   * unique-key reference built from the resource found is the answer.
   */
  lemma LookUpOutcomes(reference: Value, lookup: Lookup)
    requires reference.Ref?
    ensures var r := LookUpUniqueReference(reference, lookup);
      var found := lookup(reference);
      (found.Failure? ==> r == Failure(found.error)) &&
      (found == Success(None) ==> r == Failure(NotFoundByReference(reference))) &&
      (found.Success? && found.value.Some? ==>
        var shallow := GetReferenceTo(found.value.value);
        (shallow.Failure? ==> r == shallow) &&
        (shallow.Success? && shallow.value.Ref? && shallow.value.key == UniqueKey ==> r == shallow) &&
        (shallow.Success? && !(shallow.value.Ref? && shallow.value.key == UniqueKey) ==>
          r == Failure(ResolvedToNonUniqueReference)))
  {
  }

  /**
   * `resolveReferenceToCommonComparableForm`: a unique-key reference keeps
   * `referenceOf` and its key and has its value resolved; any other
   * reference is exchanged for the unique-key reference of the resource it
   * points to, which is resolved in turn.
   */
  function ResolveRef(fuel: nat, reference: Value, lookup: Lookup)
    : (r: Result<Value, LegacyError>)
    requires reference.Ref?
    decreases fuel, Size(reference), 1
    ensures r.Success? ==> r.value.Ref? && r.value.key == UniqueKey && CommonForm(r.value)
    ensures reference.key == UniqueKey ==>
      match ResolveFields(fuel, reference.value, lookup)
      case Success(value) => r == Success(Ref(reference.referenceOf, UniqueKey, value))
      case Failure(e) => r == Failure(e)
    ensures reference.key != UniqueKey && LookUpUniqueReference(reference, lookup).Failure? ==>
      r == LookUpUniqueReference(reference, lookup)
  {
    if reference.key == UniqueKey then
      match ResolveFields(fuel, reference.value, lookup)
      case Success(value) => Success(Ref(reference.referenceOf, UniqueKey, value))
      case Failure(e) => Failure(e)
    else
      match LookUpUniqueReference(reference, lookup)
      case Failure(e) => Failure(e)
      case Success(shallow) =>
        if fuel == 0 then Failure(ResolutionTooDeep)
        else ResolveRef(fuel - 1, shallow, lookup)
  }

  /**
   * `resolveReferencesToCommonComparableForm`: literals, `undefined` and
   * null come back as they are; arrays are resolved element by element;
   * references go to the single-reference resolver; plain objects and
   * domain objects keep their keys (and class) with each value resolved.
   */
  function ResolveValue(fuel: nat, v: Value, lookup: Lookup)
    : (r: Result<Value, LegacyError>)
    decreases fuel, Size(v), 2
    ensures r.Success? ==> CommonForm(r.value)
    ensures !(v.Arr? || v.Obj? || v.Dobj? || v.Ref?) ==> r == Success(v)
    ensures v.Arr? && r.Success? ==> r.value.Arr? && |r.value.items| == |v.items|
    ensures v.Obj? && r.Success? ==> r.value.Obj? && Keys(r.value.fields) == Keys(v.fields)
    ensures v.Dobj? && r.Success? ==> r.value.Dobj? && r.value.cls == v.cls && Keys(r.value.fields) == Keys(v.fields)
    ensures v.Ref? ==> r == ResolveRef(fuel, v, lookup)
  {
    match v
    case Arr(items) =>
      (match ResolveItems(fuel, items, lookup)
       case Success(resolved) => Success(Arr(resolved))
       case Failure(e) => Failure(e))
    case Obj(fields) =>
      (match ResolveFields(fuel, fields, lookup)
       case Success(resolved) => Success(Obj(resolved))
       case Failure(e) => Failure(e))
    case Dobj(cls, fields) =>
      (match ResolveFields(fuel, fields, lookup)
       case Success(resolved) => Success(Dobj(cls, resolved))
       case Failure(e) => Failure(e))
    case Ref(_, _, _) => ResolveRef(fuel, v, lookup)
    case _ => Success(v)
  }

  /** The array branch: each element resolved, in order; the first failure (by position) is the result. */
  function ResolveItems(fuel: nat, items: seq<Value>, lookup: Lookup)
    : (r: Result<seq<Value>, LegacyError>)
    decreases fuel, ItemsSize(items), 4
    ensures r.Success? ==> |r.value| == |items| && ItemsInCommonForm(r.value)
  {
    if items == [] then Success([])
    else
      match ResolveValue(fuel, items[0], lookup)
      case Failure(e) => Failure(e)
      case Success(head) =>
        match ResolveItems(fuel, items[1..], lookup)
        case Failure(e) => Failure(e)
        case Success(tail) => Success([head] + tail)
  }

  /** The object branch: each key kept, in order, with its value resolved; the first failure is the result. */
  function ResolveFields(fuel: nat, fs: seq<Field>, lookup: Lookup)
    : (r: Result<seq<Field>, LegacyError>)
    decreases fuel, FieldsSize(fs), 4
    ensures r.Success? ==> Keys(r.value) == Keys(fs) && FieldsInCommonForm(r.value)
  {
    if fs == [] then Success([])
    else
      match ResolveValue(fuel, fs[0].value, lookup)
      case Failure(e) => Failure(e)
      case Success(head) =>
        match ResolveFields(fuel, fs[1..], lookup)
        case Failure(e) => Failure(e)
        case Success(tail) =>
          assert forall i :: 0 < i < |fs| ==> fs[i] == fs[1..][i - 1];
          Success([Field(fs[0].name, head)] + tail)
  }

  /**
   * Arrays are resolved element by element: the whole succeeds exactly
   * when every element does, keeping length and order, and otherwise
   * fails with the first failing element's error.
   */
  lemma {:induction false} ItemsElementwise(fuel: nat, items: seq<Value>, lookup: Lookup)
    ensures var r := ResolveItems(fuel, items, lookup);
      (r.Success? <==> forall i :: 0 <= i < |items| ==> ResolveValue(fuel, items[i], lookup).Success?) &&
      (r.Success? ==> forall i :: 0 <= i < |items| ==> r.value[i] == ResolveValue(fuel, items[i], lookup).value) &&
      (r.Failure? ==>
        exists i ::
          0 <= i < |items| && ResolveValue(fuel, items[i], lookup).Failure? &&
          r.error == ResolveValue(fuel, items[i], lookup).error &&
          (forall j :: 0 <= j < i ==> ResolveValue(fuel, items[j], lookup).Success?))
  {
    if items != [] {
      var rest := items[1..];
      if ResolveValue(fuel, items[0], lookup).Success? {
        ItemsElementwise(fuel, rest, lookup);
        assert forall i :: 0 < i < |items| ==> items[i] == rest[i - 1];
        var t := ResolveItems(fuel, rest, lookup);
        if t.Failure? {
          var i :| 0 <= i < |rest| && ResolveValue(fuel, rest[i], lookup).Failure? &&
            t.error == ResolveValue(fuel, rest[i], lookup).error &&
            (forall j :: 0 <= j < i ==> ResolveValue(fuel, rest[j], lookup).Success?);
          assert items[i + 1] == rest[i];
        }
      }
    }
  }

  /**
   * Objects are resolved key by key: the whole succeeds exactly when every
   * value does, each key keeping its place, and otherwise fails with the
   * first failing value's error.
   */
  lemma {:induction false} FieldsElementwise(fuel: nat, fs: seq<Field>, lookup: Lookup)
    ensures var r := ResolveFields(fuel, fs, lookup);
      (r.Success? <==> forall i :: 0 <= i < |fs| ==> ResolveValue(fuel, fs[i].value, lookup).Success?) &&
      (r.Success? ==> forall i :: 0 <= i < |fs| ==> r.value[i] == Field(fs[i].name, ResolveValue(fuel, fs[i].value, lookup).value)) &&
      (r.Failure? ==>
        exists i ::
          0 <= i < |fs| && ResolveValue(fuel, fs[i].value, lookup).Failure? &&
          r.error == ResolveValue(fuel, fs[i].value, lookup).error &&
          (forall j :: 0 <= j < i ==> ResolveValue(fuel, fs[j].value, lookup).Success?))
  {
    if fs != [] {
      var rest := fs[1..];
      FieldsElementwise(fuel, rest, lookup);
      assert forall i :: 0 < i < |fs| ==> fs[i] == rest[i - 1];
      if ResolveValue(fuel, fs[0].value, lookup).Success? {
        var t := ResolveFields(fuel, rest, lookup);
        if t.Failure? {
          var i :| 0 <= i < |rest| && ResolveValue(fuel, rest[i].value, lookup).Failure? &&
            t.error == ResolveValue(fuel, rest[i].value, lookup).error &&
            (forall j :: 0 <= j < i ==> ResolveValue(fuel, rest[j].value, lookup).Success?);
          assert fs[i + 1] == rest[i];
        }
      }
    }
  }

  /**
   * The object branch of `resolveReferencesToCommonComparableForm` as the
   * source runs it: a loop that fills a fresh object key by key, in key
   * order, stopping at the first value that fails to resolve. The keys of
   * an object are distinct, so each assignment adds the key at the end.
   */
  method ResolveObjectFields(fuel: nat, fs: seq<Field>, lookup: Lookup)
    returns (r: Result<seq<Field>, LegacyError>)
    ensures r == ResolveFields(fuel, fs, lookup)
  {
    var resolved: seq<Field> := [];
    var i := 0;
    while i < |fs|
      invariant 0 <= i <= |fs| && |resolved| == i
      invariant forall j :: 0 <= j < i ==>
        ResolveValue(fuel, fs[j].value, lookup).Success? &&
        resolved[j] == Field(fs[j].name, ResolveValue(fuel, fs[j].value, lookup).value)
    {
      var value := ResolveValue(fuel, fs[i].value, lookup);
      if value.Failure? {
        FieldsElementwise(fuel, fs, lookup);
        var k :| 0 <= k < |fs| && ResolveValue(fuel, fs[k].value, lookup).Failure? &&
          ResolveFields(fuel, fs, lookup).error == ResolveValue(fuel, fs[k].value, lookup).error &&
          (forall j :: 0 <= j < k ==> ResolveValue(fuel, fs[j].value, lookup).Success?);
        assert k == i;
        return Failure(value.error);
      }
      resolved := resolved + [Field(fs[i].name, value.value)];
      i := i + 1;
    }
    FieldsElementwise(fuel, fs, lookup);
    var full := ResolveFields(fuel, fs, lookup);
    assert full.Success?;
    assert |full.value| == |fs| by {
      assert |Keys(full.value)| == |Keys(fs)|;
    }
    assert forall j :: 0 <= j < |fs| ==> full.value[j] == resolved[j];
    assert full.value == resolved;
    return Success(resolved);
  }

  /**
   * `resolveReferencesToCommonComparableForm` as the source runs it: the
   * early returns for literals and null, the array and reference branches,
   * and the object loop, rebuilding a domain object with its own class.
   */
  method Resolve(fuel: nat, v: Value, lookup: Lookup) returns (r: Result<Value, LegacyError>)
    ensures r == ResolveValue(fuel, v, lookup)
  {
    if !(v.Arr? || v.Obj? || v.Dobj? || v.Ref?) {
      return Success(v);
    }
    if v.Arr? {
      var items := ResolveItems(fuel, v.items, lookup);
      return if items.Success? then Success(Arr(items.value)) else Failure(items.error);
    }
    if v.Ref? {
      return ResolveRef(fuel, v, lookup);
    }
    var resolved := ResolveObjectFields(fuel, v.fields, lookup);
    if resolved.Failure? {
      return Failure(resolved.error);
    }
    if v.Dobj? {
      r := Success(Dobj(v.cls, resolved.value));
    } else {
      r := Success(Obj(resolved.value));
    }
  }

  /** A reference already in common form resolves to itself, whatever the fuel. */
  lemma {:induction false} RefInCommonFormFixed(fuel: nat, reference: Value, lookup: Lookup)
    requires reference.Ref? && CommonForm(reference)
    decreases Size(reference), 1
    ensures ResolveRef(fuel, reference, lookup) == Success(reference)
  {
    FieldsInCommonFormFixed(fuel, reference.value, lookup);
  }

  /** A value already in common form resolves to itself, whatever the fuel. */
  lemma {:induction false} CommonFormFixed(fuel: nat, v: Value, lookup: Lookup)
    requires CommonForm(v)
    decreases Size(v), 2
    ensures ResolveValue(fuel, v, lookup) == Success(v)
  {
    match v
    case Arr(items) => ItemsInCommonFormFixed(fuel, items, lookup);
    case Obj(fields) => FieldsInCommonFormFixed(fuel, fields, lookup);
    case Dobj(_, fields) => FieldsInCommonFormFixed(fuel, fields, lookup);
    case Ref(_, _, _) => RefInCommonFormFixed(fuel, v, lookup);
    case _ =>
  }

  lemma {:induction false} ItemsInCommonFormFixed(fuel: nat, items: seq<Value>, lookup: Lookup)
    requires ItemsInCommonForm(items)
    decreases ItemsSize(items), 3
    ensures ResolveItems(fuel, items, lookup) == Success(items)
  {
    if items != [] {
      CommonFormFixed(fuel, items[0], lookup);
      assert forall i :: 0 < i < |items| ==> items[i] == items[1..][i - 1];
      ItemsInCommonFormFixed(fuel, items[1..], lookup);
      assert items == [items[0]] + items[1..];
    }
  }

  lemma {:induction false} FieldsInCommonFormFixed(fuel: nat, fs: seq<Field>, lookup: Lookup)
    requires FieldsInCommonForm(fs)
    decreases FieldsSize(fs), 3
    ensures ResolveFields(fuel, fs, lookup) == Success(fs)
  {
    if fs != [] {
      CommonFormFixed(fuel, fs[0].value, lookup);
      assert forall i :: 0 < i < |fs| ==> fs[i] == fs[1..][i - 1];
      FieldsInCommonFormFixed(fuel, fs[1..], lookup);
      assert fs == [Field(fs[0].name, fs[0].value)] + fs[1..];
    }
  }

  /** Resolution is idempotent: resolving a resolved value again changes nothing, with any fuel. */
  lemma ResolveIdempotent(fuel: nat, again: nat, v: Value, lookup: Lookup)
    requires ResolveValue(fuel, v, lookup).Success?
    ensures ResolveValue(again, ResolveValue(fuel, v, lookup).value, lookup) ==
      ResolveValue(fuel, v, lookup)
  {
    CommonFormFixed(again, ResolveValue(fuel, v, lookup).value, lookup);
  }

  /** A value with no reference anywhere inside it. */
  predicate NoReferences(v: Value) {
    match v
    case Arr(items) => forall i :: 0 <= i < |items| ==> NoReferences(items[i])
    case Obj(fields) => forall i :: 0 <= i < |fields| ==> NoReferences(fields[i].value)
    case Dobj(_, fields) => forall i :: 0 <= i < |fields| ==> NoReferences(fields[i].value)
    case Ref(_, _, _) => false
    case _ => true
  }

  /** A value with no reference is already in common form. */
  lemma {:induction false} NoReferencesInCommonForm(v: Value)
    requires NoReferences(v)
    ensures CommonForm(v)
  {
    match v
    case Arr(items) =>
      forall i | 0 <= i < |items|
        ensures CommonForm(items[i])
      {
        NoReferencesInCommonForm(items[i]);
      }
    case Obj(fields) =>
      forall i | 0 <= i < |fields|
        ensures CommonForm(fields[i].value)
      {
        NoReferencesInCommonForm(fields[i].value);
      }
    case Dobj(_, fields) =>
      forall i | 0 <= i < |fields|
        ensures CommonForm(fields[i].value)
      {
        NoReferencesInCommonForm(fields[i].value);
      }
    case _ =>
  }

  /** A value holding no reference at all, however deeply nested, comes back equal. */
  lemma NoReferencesUnchanged(fuel: nat, v: Value, lookup: Lookup)
    requires NoReferences(v)
    ensures ResolveValue(fuel, v, lookup) == Success(v)
  {
    NoReferencesInCommonForm(v);
    CommonFormFixed(fuel, v, lookup);
  }

  /**
   * A reference not by unique key is exchanged for the unique-key
   * reference looked up for it, which is then resolved with one unit of
   * fuel less; with no fuel left the resolution stops.
   */
  lemma ResolvesThroughLookUp(fuel: nat, reference: Value, lookup: Lookup)
    requires reference.Ref? && reference.key != UniqueKey
    requires LookUpUniqueReference(reference, lookup).Success?
    ensures fuel == 0 ==> ResolveRef(fuel, reference, lookup) == Failure(ResolutionTooDeep)
    ensures fuel > 0 ==>
      ResolveRef(fuel, reference, lookup) == ResolveRef(fuel - 1, LookUpUniqueReference(reference, lookup).value, lookup)
  {
  }
}
