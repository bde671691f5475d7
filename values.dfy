/**
 * JSON-like values as the engine sees them. A JavaScript object is an
 * ordered list of fields, because key order is observable: it decides
 * `JSON.stringify` output and the order of flattened keys.
 */
module Values {

  /** How a legacy reference says which key identifies the resource it points to. */
  datatype KeyType = PrimaryKey | UniqueKey | OtherKey(tag: string)

  /**
   * A domain-object class as seen by the legacy reference tools: its name,
   * whether it is a DomainEntity, and its raw `primary` / `unique` statics
   * (kept as values so that malformed declarations can be rejected).
   */
  datatype DomainClass = DomainClass(name: string, isEntity: bool, primary: Value, unique: Value)

  datatype Value =
    | Undefined
    | Null
    | Bool(b: bool)
    | Num(n: int)
    | Str(s: string)
    | Arr(items: seq<Value>)
    | Obj(fields: seq<Field>)
      /** An instance of a domain-object class. */
    | Dobj(cls: DomainClass, fields: seq<Field>)
      /** A legacy declared-resource reference `{ referenceOf, identifiedBy: { key, value } }`. */
    | Ref(referenceOf: string, key: KeyType, value: seq<Field>)

  datatype Field = Field(name: string, value: Value)

  /** The keys of an object, in order (`Object.keys`). */
  function Keys(fs: seq<Field>): (ks: seq<string>)
    ensures |ks| == |fs|
    ensures forall i :: 0 <= i < |fs| ==> ks[i] == fs[i].name
  {
    seq(|fs|, i requires 0 <= i < |fs| => fs[i].name)
  }

  /** `k in obj`: the key is present, whatever its value (even `undefined`). */
  predicate HasKey(fs: seq<Field>, k: string) {
    exists i :: 0 <= i < |fs| && fs[i].name == k
  }

  /** A key is in `f` followed by `rest` when `f` carries it or `rest` does. */
  lemma HasKeyCons(f: Field, rest: seq<Field>, k: string)
    ensures HasKey([f] + rest, k) <==> f.name == k || HasKey(rest, k)
  {
    var fs := [f] + rest;
    if HasKey(rest, k) {
      var i :| 0 <= i < |rest| && rest[i].name == k;
      assert fs[i + 1].name == k;
    }
    if HasKey(fs, k) && f.name != k {
      var i :| 0 <= i < |fs| && fs[i].name == k;
      assert fs[0] == f;
      assert rest[i - 1] == fs[i];
    }
  }

  /** `obj[k]`: the value of the first field named `k`, or `undefined`. */
  function Get(fs: seq<Field>, k: string): Value {
    if fs == [] then Undefined
    else if fs[0].name == k then fs[0].value
    else Get(fs[1..], k)
  }

  /** `obj[k] = v`: overwrite the field in place, or append it when absent. */
  function Assign(fs: seq<Field>, k: string, v: Value): (r: seq<Field>)
    ensures HasKey(r, k) && Get(r, k) == v
  {
    if fs == [] then
      HasKeyCons(Field(k, v), [], k);
      [Field(k, v)] + []
    else if fs[0].name == k then
      HasKeyCons(Field(k, v), fs[1..], k);
      [Field(k, v)] + fs[1..]
    else
      HasKeyCons(fs[0], Assign(fs[1..], k, v), k);
      [fs[0]] + Assign(fs[1..], k, v)
  }

  /** Assigning one key leaves every other key, present or absent, as it was. */
  lemma {:induction false} AssignOther(fs: seq<Field>, k: string, v: Value, j: string)
    requires j != k
    ensures HasKey(Assign(fs, k, v), j) <==> HasKey(fs, j)
    ensures Get(Assign(fs, k, v), j) == Get(fs, j)
  {
    if fs == [] {
    } else if fs[0].name == k {
      HasKeyCons(Field(k, v), fs[1..], j);
      HasKeyCons(fs[0], fs[1..], j);
    } else {
      AssignOther(fs[1..], k, v, j);
      HasKeyCons(fs[0], Assign(fs[1..], k, v), j);
      HasKeyCons(fs[0], fs[1..], j);
    }
  }

  /**
   * `keys.reduce((summary, k) => ({ ...summary, [k]: input[k] }), {})`:
   * a fresh object holding the listed keys with the values copied from `fs`.
   */
  function Pick(fs: seq<Field>, keys: seq<string>): seq<Field> {
    if keys == [] then []
    else Assign(Pick(fs, keys[..|keys| - 1]), keys[|keys| - 1], Get(fs, keys[|keys| - 1]))
  }

  /** The projection holds exactly the listed keys, each with its value copied from the input. */
  lemma {:induction false} PickSpec(fs: seq<Field>, keys: seq<string>, k: string)
    ensures HasKey(Pick(fs, keys), k) <==> k in keys
    ensures k in keys ==> Get(Pick(fs, keys), k) == Get(fs, k)
    ensures k !in keys ==> Get(Pick(fs, keys), k) == Undefined
  {
    if keys == [] {
    } else {
      var init, last := keys[..|keys| - 1], keys[|keys| - 1];
      assert keys == init + [last];
      PickSpec(fs, init, k);
      if k != last {
        AssignOther(Pick(fs, init), last, Get(fs, last), k);
      }
    }
  }

  /** Every listed key is present in the object. */
  predicate HasAll(obj: seq<Field>, keys: seq<string>) {
    forall k <- keys :: HasKey(obj, k)
  }

  lemma PickHasAll(fs: seq<Field>, keys: seq<string>)
    ensures HasAll(Pick(fs, keys), keys)
  {
    forall k <- keys
      ensures HasKey(Pick(fs, keys), k)
    {
      PickSpec(fs, keys, k);
    }
  }

  /** The projection reads only the listed keys: inputs agreeing on them project alike. */
  lemma {:induction false} PickAgree(fs: seq<Field>, gs: seq<Field>, keys: seq<string>)
    requires forall k <- keys :: Get(fs, k) == Get(gs, k)
    ensures Pick(fs, keys) == Pick(gs, keys)
  {
    if keys != [] {
      PickAgree(fs, gs, keys[..|keys| - 1]);
    }
  }

  /** Projecting a projection onto the same keys changes nothing. */
  lemma PickIdempotent(fs: seq<Field>, keys: seq<string>)
    ensures Pick(Pick(fs, keys), keys) == Pick(fs, keys)
  {
    forall k <- keys
      ensures Get(Pick(fs, keys), k) == Get(fs, k)
    {
      PickSpec(fs, keys, k);
    }
    PickAgree(Pick(fs, keys), fs, keys);
  }

  /** A missing key reads as `undefined`. */
  lemma {:induction false} GetAbsent(fs: seq<Field>, k: string)
    requires !HasKey(fs, k)
    ensures Get(fs, k) == Undefined
  {
    if fs != [] {
      HasKeyCons(fs[0], fs[1..], k);
      GetAbsent(fs[1..], k);
    }
  }

  /** The object without the listed keys (`omit`), other fields kept in order. */
  function Without(fs: seq<Field>, drop: set<string>): (r: seq<Field>)
    ensures |r| <= |fs|
    ensures forall f :: f in r <==> f in fs && f.name !in drop
  {
    if fs == [] then []
    else if fs[0].name in drop then Without(fs[1..], drop)
    else [fs[0]] + Without(fs[1..], drop)
  }

  /** The fields whose value is not `undefined`: what `JSON.stringify` writes out. */
  function Defined(fs: seq<Field>): (r: seq<Field>)
    ensures forall f :: f in r <==> f in fs && f.value != Undefined
  {
    if fs == [] then []
    else if fs[0].value == Undefined then Defined(fs[1..])
    else [fs[0]] + Defined(fs[1..])
  }

  /** Overwriting or adding a key that `Without` drops is invisible in its result. */
  lemma {:induction false} WithoutAssignDropped(fs: seq<Field>, drop: set<string>, k: string, v: Value)
    requires k in drop
    ensures Without(Assign(fs, k, v), drop) == Without(fs, drop)
  {
    if fs != [] && fs[0].name != k {
      WithoutAssignDropped(fs[1..], drop, k, v);
      assert (Assign(fs, k, v))[1..] == Assign(fs[1..], k, v);
    } else if fs != [] {
      assert (Assign(fs, k, v))[1..] == fs[1..];
    }
  }
}
