/**
 * `getDisplayableDiff`: whether two resources have a difference worth
 * showing, and the key order in which it is shown.
 */
module DisplayDiff {
  import opened Wrappers
  import opened Values
  import opened Resources

  /** The two readonly-stripped sides handed to the diff renderer, keys in display order. */
  datatype Displayed = Displayed(remote: seq<Field>, desired: seq<Field>)

  /** `omitReadonly(r)`. */
  function WithoutReadonly(r: Resource): seq<Field> {
    Without(r.attrs, r.cls.readonly)
  }

  /** A side of the diff: the readonly-stripped resource, or `{}` for null. */
  function Side(r: Option<Resource>): seq<Field> {
    if r.Some? then WithoutReadonly(r.value) else []
  }

  /**
   * `serialize(a) === serialize(b)`: the same defined top-level fields,
   * whatever their order (the serializer sorts keys). Nested values are
   * compared as values, so key order inside them still counts.
   */
  predicate SameSerialization(a: seq<Field>, b: seq<Field>) {
    (set f | f in Defined(a)) == (set f | f in Defined(b))
  }

  /**
   * `compareKeys`' weight of a key: its first index in `order`, or
   * `|order|` (standing for Infinity) when it is absent. Two absent keys
   * compare as NaN, which the sort treats as equal.
   */
  function Rank(order: seq<string>, k: string): (r: nat)
    ensures r <= |order|
  {
    if order == [] then 0
    else if order[0] == k then 0
    else 1 + Rank(order[1..], k)
  }

  /** The rank is `indexOf`: the first position of the key, or `|order|` exactly when it is absent. */
  lemma {:induction false} RankIsIndexOf(order: seq<string>, k: string)
    ensures Rank(order, k) == |order| <==> k !in order
    ensures Rank(order, k) < |order| ==> order[Rank(order, k)] == k
    ensures forall j :: 0 <= j < Rank(order, k) ==> order[j] != k
  {
    if order != [] && order[0] != k {
      RankIsIndexOf(order[1..], k);
      assert order == [order[0]] + order[1..];
    }
  }

  predicate SortedByRank(order: seq<string>, s: seq<Field>) {
    forall i, j :: 0 <= i < j < |s| ==> Rank(order, s[i].name) <= Rank(order, s[j].name)
  }

  /** The fields of `s` whose key has rank `q`, in order. */
  function WithRank(order: seq<string>, s: seq<Field>, q: nat): seq<Field> {
    if s == [] then []
    else if Rank(order, s[0].name) == q then [s[0]] + WithRank(order, s[1..], q)
    else WithRank(order, s[1..], q)
  }

  /** Place `x` before the first field of `s` whose rank is not below its own. */
  function Insert(order: seq<string>, x: Field, s: seq<Field>): seq<Field> {
    if s == [] || Rank(order, x.name) <= Rank(order, s[0].name) then [x] + s
    else [s[0]] + Insert(order, x, s[1..])
  }

  lemma {:induction false} InsertPermutes(order: seq<string>, x: Field, s: seq<Field>)
    ensures multiset(Insert(order, x, s)) == multiset(s) + multiset{x}
  {
    if s != [] && Rank(order, x.name) > Rank(order, s[0].name) {
      InsertPermutes(order, x, s[1..]);
      assert s == [s[0]] + s[1..];
    }
  }

  /** Every field of `s` has rank at least `lo`. */
  predicate RankAtLeast(order: seq<string>, lo: nat, s: seq<Field>) {
    forall i :: 0 <= i < |s| ==> lo <= Rank(order, s[i].name)
  }

  lemma {:induction false} InsertLowerBound(order: seq<string>, lo: nat, x: Field, s: seq<Field>)
    requires RankAtLeast(order, lo, s) && lo <= Rank(order, x.name)
    ensures RankAtLeast(order, lo, Insert(order, x, s))
  {
    if s != [] && Rank(order, x.name) > Rank(order, s[0].name) {
      InsertLowerBound(order, lo, x, s[1..]);
    }
  }

  lemma {:induction false} InsertSorted(order: seq<string>, x: Field, s: seq<Field>)
    requires SortedByRank(order, s)
    ensures SortedByRank(order, Insert(order, x, s))
  {
    if s == [] || Rank(order, x.name) <= Rank(order, s[0].name) {
      assert RankAtLeast(order, Rank(order, x.name), s);
    } else {
      var rest := Insert(order, x, s[1..]);
      assert SortedByRank(order, s[1..]) by {
        forall i, j | 0 <= i < j < |s[1..]|
          ensures Rank(order, s[1..][i].name) <= Rank(order, s[1..][j].name)
        {
          assert s[1..][i] == s[i + 1] && s[1..][j] == s[j + 1];
        }
      }
      InsertSorted(order, x, s[1..]);
      assert RankAtLeast(order, Rank(order, s[0].name), s[1..]) by {
        forall i | 0 <= i < |s[1..]| ensures Rank(order, s[0].name) <= Rank(order, s[1..][i].name) {
          assert s[1..][i] == s[i + 1];
        }
      }
      InsertLowerBound(order, Rank(order, s[0].name), x, s[1..]);
      var r := [s[0]] + rest;
      assert Insert(order, x, s) == r;
      forall i, j | 0 <= i < j < |r|
        ensures Rank(order, r[i].name) <= Rank(order, r[j].name)
      {
        assert r[j] == rest[j - 1];
        if i > 0 {
          assert r[i] == rest[i - 1];
        }
      }
    }
  }

  lemma {:induction false} InsertStable(order: seq<string>, x: Field, s: seq<Field>, q: nat)
    requires SortedByRank(order, s)
    ensures WithRank(order, Insert(order, x, s), q) ==
      (if Rank(order, x.name) == q then [x] + WithRank(order, s, q) else WithRank(order, s, q))
  {
    if s == [] || Rank(order, x.name) <= Rank(order, s[0].name) {
      assert ([x] + s)[1..] == s;
    } else {
      InsertStable(order, x, s[1..], q);
      assert ([s[0]] + Insert(order, x, s[1..]))[1..] == Insert(order, x, s[1..]);
    }
  }

  /**
   * `Object.keys(...).sort(compareKeys)`: a stable sort of the fields by
   * the rank of their key in `order`. The result is sorted, a permutation
   * of the input, and keeps the input order among fields of equal rank.
   */
  function SortByKeyOrder(fs: seq<Field>, order: seq<string>): (r: seq<Field>)
    ensures SortedByRank(order, r)
    ensures multiset(r) == multiset(fs)
    ensures forall q :: WithRank(order, r, q) == WithRank(order, fs, q)
  {
    if fs == [] then []
    else
      var sortedRest := SortByKeyOrder(fs[1..], order);
      assert fs == [fs[0]] + fs[1..];
      InsertPermutes(order, fs[0], sortedRest);
      InsertSorted(order, fs[0], sortedRest);
      assert forall q :: WithRank(order, Insert(order, fs[0], sortedRest), q) == WithRank(order, fs, q) by {
        forall q ensures WithRank(order, Insert(order, fs[0], sortedRest), q) == WithRank(order, fs, q) {
          InsertStable(order, fs[0], sortedRest, q);
        }
      }
      Insert(order, fs[0], sortedRest)
  }

  /** Keys missing from `order` come after every key that `order` lists. */
  lemma AbsentKeysLast(fs: seq<Field>, order: seq<string>, i: int, j: int)
    requires 0 <= i < |SortByKeyOrder(fs, order)| && 0 <= j < |SortByKeyOrder(fs, order)|
    requires SortByKeyOrder(fs, order)[i].name in order
    requires SortByKeyOrder(fs, order)[j].name !in order
    ensures i < j
  {
    ListedBeforeAbsent(order, SortByKeyOrder(fs, order), i, j);
  }

  /** In a sequence sorted by rank, a key that `order` lists comes before one it does not. */
  lemma ListedBeforeAbsent(order: seq<string>, r: seq<Field>, i: int, j: int)
    requires SortedByRank(order, r) && 0 <= i < |r| && 0 <= j < |r|
    requires r[i].name in order && r[j].name !in order
    ensures i < j
  {
    RankIsIndexOf(order, r[i].name);
    RankIsIndexOf(order, r[j].name);
  }

  /** A sequence already in key order comes back unchanged. */
  lemma {:induction false} SortKeepsSorted(fs: seq<Field>, order: seq<string>)
    requires SortedByRank(order, fs)
    ensures SortByKeyOrder(fs, order) == fs
  {
    if fs != [] {
      SortKeepsSorted(fs[1..], order);
    }
  }

  /** No two fields share a key (true of every JavaScript object). */
  predicate DistinctKeys(fs: seq<Field>) {
    forall i, j :: 0 <= i < j < |fs| ==> fs[i].name != fs[j].name
  }

  /** The desired side is shown in its own key order. */
  lemma DesiredSideInOwnOrder(fs: seq<Field>)
    ensures DistinctKeys(fs) ==> SortByKeyOrder(fs, Keys(fs)) == fs
  {
    if !DistinctKeys(fs) {
      return;
    }
    var order := Keys(fs);
    forall i | 0 <= i < |fs|
      ensures Rank(order, fs[i].name) == i
    {
      RankIsIndexOf(order, fs[i].name);
      assert order[i] == fs[i].name;
    }
    SortKeepsSorted(fs, order);
  }

  /**
   * `getDisplayableDiff`: null when both sides are null or when both are
   * present and serialize alike once readonly attributes are omitted;
   * otherwise both readonly-stripped sides (null shown as `{}`), keys
   * ordered by their position among the desired side's keys.
   */
  function GetDisplayableDiff(from: Option<Resource>, into: Option<Resource>): (d: Option<Displayed>)
    ensures d.None? <==>
      (from.None? && into.None?) ||
      (from.Some? && into.Some? && SameSerialization(WithoutReadonly(from.value), WithoutReadonly(into.value)))
    ensures d.Some? ==>
      SortedByRank(Keys(Side(into)), d.value.remote) && multiset(d.value.remote) == multiset(Side(from)) &&
      SortedByRank(Keys(Side(into)), d.value.desired) && multiset(d.value.desired) == multiset(Side(into))
    ensures d.Some? && DistinctKeys(Side(into)) ==> d.value.desired == Side(into)
  {
    if from.None? && into.None? then None
    else if from.Some? && into.Some? && SameSerialization(WithoutReadonly(from.value), WithoutReadonly(into.value)) then None
    else
      var order := Keys(Side(into));
      DesiredSideInOwnOrder(Side(into));
      Some(Displayed(SortByKeyOrder(Side(from), order), SortByKeyOrder(Side(into), order)))
  }

  /** Resources that differ only in a readonly attribute have no displayable difference. */
  lemma ReadonlyOnlyDifferenceHidden(r: Resource, k: string, v: Value)
    requires k in r.cls.readonly
    ensures GetDisplayableDiff(Some(Resource(r.cls, Assign(r.attrs, k, v))), Some(r)).None?
  {
    WithoutAssignDropped(r.attrs, r.cls.readonly, k, v);
  }
}
