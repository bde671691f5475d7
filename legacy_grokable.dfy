/**
 * `castReferenceToGrokableString`: a short, readable rendering of a legacy
 * reference for display in diffs, such as
 * `Captain.agent.birthCode:'821'.ship.serialNumber:'__SHIP_A__'`. The
 * reference is first resolved into common comparable form, then
 * flattened into dotted keys, stripped of its reference metadata, ordered
 * by nesting depth and written out as `key:'value'` parts joined by '.'.
 */
module LegacyGrokable {
  import opened Wrappers
  import opened Values
  import opened LegacyReferences
  import opened LegacyComparable

  /* ---------------------------------------------------------------- strings */

  /** `s.startsWith(p)`. */
  predicate StartsWith(s: string, p: string) {
    |p| <= |s| && s[..|p|] == p
  }

  /** `t` occurs in `s` starting at index `i`. */
  predicate OccursAt(s: string, t: string, i: int) {
    0 <= i && i + |t| <= |s| && s[i..i + |t|] == t
  }

  /** `s.includes(t)`. */
  predicate Contains(s: string, t: string) {
    exists i :: 0 <= i <= |s| && OccursAt(s, t, i)
  }

  /** The decimal digits of a natural number. */
  function NatToString(n: nat): (r: string)
    ensures |r| >= 1
    ensures forall i :: 0 <= i < |r| ==> '0' <= r[i] <= '9'
    decreases n
  {
    var digit := ['0' + (n % 10) as char];
    if n < 10 then digit else NatToString(n / 10) + digit
  }

  /** `String(n)` for an integer. */
  function IntToString(n: int): (r: string)
    ensures forall i :: 0 <= i < |r| ==> r[i] == '-' || '0' <= r[i] <= '9'
  {
    if n < 0 then "-" + NatToString(-n) else NatToString(n)
  }

  /** `parts.join('.')`. */
  function JoinDots(parts: seq<string>): (r: string)
    ensures |parts| > 0 ==> StartsWith(r, parts[0])
  {
    if parts == [] then ""
    else if |parts| == 1 then parts[0]
    else parts[0] + "." + JoinDots(parts[1..])
  }

  /* --------------------------------------------------------------- flattie */

  /** The prefix `flattie` puts before a child key: none at the root, else the key and a dot. */
  function ChildPrefix(key: string): string {
    if key == "" then "" else key + "."
  }

  /** How `identifiedBy.key` is spelled in a reference object. */
  function KeyTypeName(key: KeyType): string {
    match key
    case PrimaryKey => "PRIMARY_KEY"
    case UniqueKey => "UNIQUE_KEY"
    case OtherKey(tag) => tag
  }

  /** A leaf `flattie` writes out: a boolean, a number or a string. */
  predicate Leaf(v: Value) {
    v.Bool? || v.Num? || v.Str?
  }

  predicate AllLeaves(fs: seq<Field>) {
    forall i :: 0 <= i < |fs| ==> Leaf(fs[i].value)
  }

  /** Every field of an assignment's result is an old field or the assigned one. */
  lemma {:induction false} AssignFrom(fs: seq<Field>, k: string, v: Value)
    ensures forall f <- Assign(fs, k, v) :: f in fs || f == Field(k, v)
  {
    if fs != [] && fs[0].name != k {
      AssignFrom(fs[1..], k, v);
    }
  }

  /** Assigning a key that is absent appends it. */
  lemma {:induction false} AssignAbsentAppends(fs: seq<Field>, k: string, v: Value)
    requires !HasKey(fs, k)
    ensures Assign(fs, k, v) == fs + [Field(k, v)]
  {
    if fs != [] {
      HasKeyCons(fs[0], fs[1..], k);
      AssignAbsentAppends(fs[1..], k, v);
      assert fs == [fs[0]] + fs[1..];
    }
  }

  /**
   * `flattie`'s walk: `undefined` and null are skipped, a leaf is written
   * under its dotted key (overwriting an earlier one of that key in
   * place), arrays recurse with the index as key, and objects, domain
   * objects and references recurse over their keys in order. A reference
   * is the object `{ referenceOf, identifiedBy: { key, value } }`.
   */
  function Flat(out: seq<Field>, key: string, v: Value): (r: seq<Field>)
    decreases Size(v), 1
    ensures AllLeaves(out) ==> AllLeaves(r)
  {
    match v
    case Undefined => out
    case Null => out
    case Bool(_) => AssignLeaf(out, key, v)
    case Num(_) => AssignLeaf(out, key, v)
    case Str(_) => AssignLeaf(out, key, v)
    case Arr(items) => FlatItems(out, ChildPrefix(key), items, 0)
    case Obj(fields) => FlatFields(out, ChildPrefix(key), fields)
    case Dobj(_, fields) => FlatFields(out, ChildPrefix(key), fields)
    case Ref(referenceOf, keyType, value) =>
      var p := ChildPrefix(key);
      var named := AssignLeaf(out, p + "referenceOf", Str(referenceOf));
      var keyed := AssignLeaf(named, p + "identifiedBy.key", Str(KeyTypeName(keyType)));
      FlatFields(keyed, p + "identifiedBy.value.", value)
  }

  /** `output[key] = val` for a leaf. */
  function AssignLeaf(out: seq<Field>, key: string, v: Value): (r: seq<Field>)
    requires Leaf(v)
    ensures AllLeaves(out) ==> AllLeaves(r)
    ensures HasKey(r, key) && Get(r, key) == v
  {
    AssignFrom(out, key, v);
    assert forall i :: 0 <= i < |Assign(out, key, v)| ==> Assign(out, key, v)[i] in Assign(out, key, v);
    Assign(out, key, v)
  }

  /** The object branch of the walk: each key under `prefix`, in order. */
  function FlatFields(out: seq<Field>, prefix: string, fs: seq<Field>): (r: seq<Field>)
    decreases FieldsSize(fs), 2
    ensures AllLeaves(out) ==> AllLeaves(r)
  {
    if fs == [] then out
    else FlatFields(Flat(out, prefix + fs[0].name, fs[0].value), prefix, fs[1..])
  }

  /** The array branch of the walk: element `index + i` under `prefix` followed by its index. */
  function FlatItems(out: seq<Field>, prefix: string, items: seq<Value>, index: nat): (r: seq<Field>)
    decreases ItemsSize(items), 2
    ensures AllLeaves(out) ==> AllLeaves(r)
  {
    if items == [] then out
    else FlatItems(Flat(out, prefix + NatToString(index), items[0]), prefix, items[1..], index + 1)
  }

  /** `flattie(input)`: only an object (or null) is walked; anything else flattens to `{}`. */
  function Flatten(v: Value): (r: seq<Field>)
    ensures AllLeaves(r)
  {
    if Leaf(v) || v.Undefined? then [] else Flat([], "", v)
  }

  /* ------------------------------------------------------ high-signal keys */

  /** The metadata marker the key rewrite removes: the global regular expression `identifiedBy.value.`. */
  const Marker: string := "identifiedBy.value."

  /** A line terminator: the characters a regular-expression `.` does not match. */
  predicate LineTerminator(c: char) {
    c == '\n' || c == '\r' || c == '\U{2028}' || c == '\U{2029}'
  }

  /**
   * The regular expression matches at `i`: its dots are wildcards, so any
   * character other than a line terminator may stand between
   * `identifiedBy` and `value` and after it.
   */
  predicate MarkerAt(s: string, i: int) {
    0 <= i && i + |Marker| <= |s| && s[i..i + 12] == "identifiedBy" && s[i + 13..i + 18] == "value" &&
    !LineTerminator(s[i + 12]) && !LineTerminator(s[i + 18])
  }

  /** `s.replace(/identifiedBy.value./g, '')`: matches removed left to right, without overlap. */
  function StripMarker(s: string): (r: string)
    ensures |r| <= |s|
    ensures (forall i :: !MarkerAt(s, i)) ==> r == s
  {
    if MarkerAt(s, 0) then StripMarker(s[|Marker|..])
    else if s == [] then []
    else
      assert forall i :: MarkerAt(s[1..], i) ==> MarkerAt(s, i + 1) by {
        forall i | MarkerAt(s[1..], i) ensures MarkerAt(s, i + 1) {
          assert s[1..][i..i + 12] == s[i + 1..i + 13];
          assert s[1..][i + 13..i + 18] == s[i + 14..i + 19];
        }
      }
      [s[0]] + StripMarker(s[1..])
  }

  /** A key naming reference metadata: one the rewrite drops outright. */
  predicate Noisy(key: string) {
    Contains(key, "referenceOf") || Contains(key, "identifiedBy.key")
  }

  /** One entry through the `map` step: null for a metadata key, else the key with the marker removed. */
  function Rewrite(f: Field): (r: Option<Field>)
    ensures r.Some? ==> r.value.value == f.value
  {
    if Noisy(f.name) then None else Some(Field(StripMarker(f.name), f.value))
  }

  /**
   * The `map`/`filter` step: entries whose key is metadata are dropped,
   * the others keep their value under the key with the marker removed,
   * in their order.
   */
  function HighSignal(flat: seq<Field>): (r: seq<Field>)
    ensures |r| <= |flat|
  {
    if flat == [] then []
    else
      match Rewrite(flat[0])
      case None => HighSignal(flat[1..])
      case Some(f) => [f] + HighSignal(flat[1..])
  }

  /** A single entry: dropped exactly when its key is metadata, otherwise kept under the key with the marker removed. */
  lemma HighSignalOne(f: Field)
    ensures Noisy(f.name) ==> HighSignal([f]) == []
    ensures !Noisy(f.name) ==> HighSignal([f]) == [Field(StripMarker(f.name), f.value)]
  {
    assert [f][1..] == [];
  }

  /** One step of the rewrite: the first entry on its own, then the rest. */
  lemma HighSignalHead(s: seq<Field>)
    requires s != []
    ensures HighSignal(s) == HighSignal([s[0]]) + HighSignal(s[1..])
  {
    HighSignalOne(s[0]);
    if Noisy(s[0].name) {
      assert HighSignal(s) == HighSignal(s[1..]);
    } else {
      assert HighSignal(s) == [Field(StripMarker(s[0].name), s[0].value)] + HighSignal(s[1..]);
    }
  }

  /** The rewrite treats each entry on its own: it distributes over concatenation, keeping the order. */
  lemma {:induction false} HighSignalAppend(a: seq<Field>, b: seq<Field>)
    ensures HighSignal(a + b) == HighSignal(a) + HighSignal(b)
  {
    if a == [] {
      assert a + b == b;
    } else {
      var ab := a + b;
      assert ab[0] == a[0] && ab[1..] == a[1..] + b;
      calc {
        HighSignal(ab);
        { HighSignalHead(ab); }
        HighSignal([a[0]]) + HighSignal(a[1..] + b);
        { HighSignalAppend(a[1..], b); }
        HighSignal([a[0]]) + (HighSignal(a[1..]) + HighSignal(b));
        (HighSignal([a[0]]) + HighSignal(a[1..])) + HighSignal(b);
        { HighSignalHead(a); }
        HighSignal(a) + HighSignal(b);
      }
    }
  }

  /** An entry is kept exactly when it is the rewrite of a non-metadata entry of the input. */
  lemma {:induction false} HighSignalMembers(flat: seq<Field>, f: Field)
    ensures f in HighSignal(flat) <==> exists g <- flat :: !Noisy(g.name) && f == Field(StripMarker(g.name), g.value)
  {
    if flat != [] {
      HighSignalMembers(flat[1..], f);
      assert forall g :: g in flat <==> g == flat[0] || g in flat[1..];
    }
  }

  /** Keeping and renaming entries leaves their values as they were. */
  lemma {:induction false} HighSignalLeaves(flat: seq<Field>)
    requires AllLeaves(flat)
    ensures AllLeaves(HighSignal(flat))
  {
    if flat != [] {
      HighSignalLeaves(flat[1..]);
      var rest := HighSignal(flat[1..]);
      match Rewrite(flat[0])
      case None =>
      case Some(f) =>
        assert HighSignal(flat) == [f] + rest;
        assert forall j :: 0 < j < |[f] + rest| ==> ([f] + rest)[j] == rest[j - 1];
    }
  }

  /* ---------------------------------------------------------- depth order */

  /** `key.split('.').length`: the number of dots plus one. */
  function Depth(key: string): (d: nat)
    ensures d >= 1
  {
    if key == [] then 1
    else (if key[0] == '.' then 1 else 0) + Depth(key[1..])
  }

  /** A key without dots is at the root: `split('.')` gives one part. */
  lemma {:induction false} DotlessDepth(key: string)
    requires forall i :: 0 <= i < |key| ==> key[i] != '.'
    ensures Depth(key) == 1
  {
    if key != [] {
      assert forall i :: 0 <= i < |key[1..]| ==> key[1..][i] == key[i + 1];
      DotlessDepth(key[1..]);
    }
  }

  predicate SortedByDepth(s: seq<Field>) {
    forall i, j :: 0 <= i < j < |s| ==> Depth(s[i].name) <= Depth(s[j].name)
  }

  /** The entries of `s` at depth `d`, in order. */
  function AtDepth(s: seq<Field>, d: nat): seq<Field> {
    if s == [] then []
    else if Depth(s[0].name) == d then [s[0]] + AtDepth(s[1..], d)
    else AtDepth(s[1..], d)
  }

  /** Place `x` before the first entry of `s` that is not shallower than it. */
  function InsertByDepth(x: Field, s: seq<Field>): seq<Field> {
    if s == [] || Depth(x.name) <= Depth(s[0].name) then [x] + s
    else [s[0]] + InsertByDepth(x, s[1..])
  }

  lemma {:induction false} InsertByDepthPermutes(x: Field, s: seq<Field>)
    ensures multiset(InsertByDepth(x, s)) == multiset(s) + multiset{x}
  {
    if s != [] && Depth(x.name) > Depth(s[0].name) {
      InsertByDepthPermutes(x, s[1..]);
      assert s == [s[0]] + s[1..];
    }
  }

  /** Every entry of `s` is at least `lo` deep. */
  predicate DepthAtLeast(lo: nat, s: seq<Field>) {
    forall i :: 0 <= i < |s| ==> lo <= Depth(s[i].name)
  }

  lemma {:induction false} InsertByDepthLowerBound(lo: nat, x: Field, s: seq<Field>)
    requires DepthAtLeast(lo, s) && lo <= Depth(x.name)
    ensures DepthAtLeast(lo, InsertByDepth(x, s))
  {
    if s != [] && Depth(x.name) > Depth(s[0].name) {
      InsertByDepthLowerBound(lo, x, s[1..]);
    }
  }

  lemma {:induction false} InsertByDepthSorted(x: Field, s: seq<Field>)
    requires SortedByDepth(s)
    ensures SortedByDepth(InsertByDepth(x, s))
  {
    if s == [] || Depth(x.name) <= Depth(s[0].name) {
      assert DepthAtLeast(Depth(x.name), s);
    } else {
      var rest := InsertByDepth(x, s[1..]);
      InsertByDepthSorted(x, s[1..]);
      InsertByDepthLowerBound(Depth(s[0].name), x, s[1..]);
      var r := [s[0]] + rest;
      assert forall i :: 0 < i < |r| ==> r[i] == rest[i - 1];
    }
  }

  lemma {:induction false} InsertByDepthStable(x: Field, s: seq<Field>, d: nat)
    requires SortedByDepth(s)
    ensures AtDepth(InsertByDepth(x, s), d) ==
      (if Depth(x.name) == d then [x] + AtDepth(s, d) else AtDepth(s, d))
  {
    if s == [] || Depth(x.name) <= Depth(s[0].name) {
      assert ([x] + s)[1..] == s;
    } else {
      InsertByDepthStable(x, s[1..], d);
      assert ([s[0]] + InsertByDepth(x, s[1..]))[1..] == InsertByDepth(x, s[1..]);
    }
  }

  /**
   * The `sort` by the number of layers away from the root. Its comparator
   * never answers "equal", but only ever asks whether a later entry is
   * shallower than an earlier one, so the engine's merge-based sort keeps
   * equal-depth entries in their order: the result is sorted by depth, a
   * permutation of the input, and stable.
   */
  function SortByDepth(s: seq<Field>): (r: seq<Field>)
    ensures SortedByDepth(r)
    ensures multiset(r) == multiset(s)
    ensures forall d :: AtDepth(r, d) == AtDepth(s, d)
  {
    if s == [] then []
    else
      var sortedRest := SortByDepth(s[1..]);
      assert s == [s[0]] + s[1..];
      InsertByDepthPermutes(s[0], sortedRest);
      InsertByDepthSorted(s[0], sortedRest);
      assert forall d :: AtDepth(InsertByDepth(s[0], sortedRest), d) == AtDepth(s, d) by {
        forall d ensures AtDepth(InsertByDepth(s[0], sortedRest), d) == AtDepth(s, d) {
          InsertByDepthStable(s[0], sortedRest, d);
        }
      }
      InsertByDepth(s[0], sortedRest)
  }

  /** A list whose entries are all equally deep is already in order. */
  lemma {:induction false} SortByDepthFlat(s: seq<Field>, d: nat)
    requires forall i :: 0 <= i < |s| ==> Depth(s[i].name) == d
    ensures SortByDepth(s) == s
  {
    if s != [] {
      SortByDepthFlat(s[1..], d);
    }
  }

  /* ------------------------------------------------------------ rendering */

  /** `Object.fromEntries(entries)`: assigned left to right, so a repeated key keeps its first place and last value. */
  function FromEntries(entries: seq<Field>): seq<Field> {
    if entries == [] then []
    else Assign(FromEntries(entries[..|entries| - 1]), entries[|entries| - 1].name, entries[|entries| - 1].value)
  }

  /** `Object.fromEntries` of leaves holds only leaves. */
  lemma {:induction false} FromEntriesLeaves(entries: seq<Field>)
    requires AllLeaves(entries)
    ensures AllLeaves(FromEntries(entries))
  {
    if entries != [] {
      var init, last := entries[..|entries| - 1], entries[|entries| - 1];
      assert AllLeaves(init) by {
        forall i | 0 <= i < |init| ensures Leaf(init[i].value) {
          assert init[i] == entries[i];
        }
      }
      FromEntriesLeaves(init);
      AssignFrom(FromEntries(init), last.name, last.value);
      var r := FromEntries(entries);
      forall i | 0 <= i < |r| ensures Leaf(r[i].value) {
        assert r[i] in r;
      }
    }
  }

  /** `Object.fromEntries` has a key for every entry. */
  lemma {:induction false} FromEntriesHasKeys(entries: seq<Field>)
    ensures forall i :: 0 <= i < |entries| ==> HasKey(FromEntries(entries), entries[i].name)
  {
    if entries != [] {
      var init, last := entries[..|entries| - 1], entries[|entries| - 1];
      FromEntriesHasKeys(init);
      forall i | 0 <= i < |entries| ensures HasKey(FromEntries(entries), entries[i].name) {
        if entries[i].name != last.name {
          assert entries[i] == init[i];
          AssignOther(FromEntries(init), last.name, last.value, entries[i].name);
        }
      }
    }
  }

  /** No two entries share a key. */
  predicate DistinctNames(fs: seq<Field>) {
    forall i, j :: 0 <= i < j < |fs| ==> fs[i].name != fs[j].name
  }

  /** Dropping the last of distinct entries leaves distinct entries, none of which has the last one's key. */
  lemma DistinctInit(entries: seq<Field>)
    requires DistinctNames(entries) && entries != []
    ensures DistinctNames(entries[..|entries| - 1])
    ensures !HasKey(entries[..|entries| - 1], entries[|entries| - 1].name)
  {
    var init := entries[..|entries| - 1];
    forall i, j | 0 <= i < j < |init| ensures init[i].name != init[j].name {
      assert init[i] == entries[i] && init[j] == entries[j];
    }
    forall i | 0 <= i < |init| ensures init[i].name != entries[|entries| - 1].name {
      assert init[i] == entries[i];
    }
  }

  /** Entries with distinct keys go through `Object.fromEntries` and back unchanged. */
  lemma {:induction false} FromEntriesDistinct(entries: seq<Field>)
    requires DistinctNames(entries)
    ensures FromEntries(entries) == entries
  {
    if entries != [] {
      var init, last := entries[..|entries| - 1], entries[|entries| - 1];
      DistinctInit(entries);
      FromEntriesDistinct(init);
      AssignAbsentAppends(init, last.name, last.value);
      assert FromEntries(entries) == Assign(FromEntries(init), last.name, last.value);
      assert init + [last] == entries;
    }
  }

  /** `JSON.stringify` of one character inside a string. */
  function EscapeChar(c: char): string {
    if c == '"' then "\\\""
    else if c == '\\' then "\\\\"
    else if c == '\U{8}' then "\\b"
    else if c == '\U{C}' then "\\f"
    else if c == '\n' then "\\n"
    else if c == '\r' then "\\r"
    else if c == '\t' then "\\t"
    else if c < ' ' then "\\u00" + [HexDigit(c as int / 16), HexDigit(c as int % 16)]
    else [c]
  }

  function HexDigit(n: int): char
    requires 0 <= n < 16
  {
    if n < 10 then '0' + n as char else 'a' + (n - 10) as char
  }

  /** The body of `JSON.stringify` of a string, without its surrounding quotes. */
  function JsonEscape(s: string): string {
    if s == [] then [] else EscapeChar(s[0]) + JsonEscape(s[1..])
  }

  /** A string with no double quote, backslash or control character is written as it is. */
  lemma {:induction false} PlainJsonUnescaped(s: string)
    requires forall i :: 0 <= i < |s| ==> s[i] != '"' && s[i] != '\\' && s[i] >= ' '
    ensures JsonEscape(s) == s
  {
    if s != [] {
      assert EscapeChar(s[0]) == [s[0]];
      PlainJsonUnescaped(s[1..]);
      assert [s[0]] + s[1..] == s;
    }
  }

  /** `JSON.stringify` of a leaf. */
  function Stringify(v: Value): string
    requires Leaf(v)
  {
    match v
    case Bool(b) => if b then "true" else "false"
    case Num(n) => IntToString(n)
    case Str(s) => "\"" + JsonEscape(s) + "\""
  }

  /** `.replace(/'/g, "\\'")`: every single quote gets a backslash in front. */
  function EscapeSingleQuotes(s: string): string {
    if s == [] then []
    else (if s[0] == '\'' then "\\'" else [s[0]]) + EscapeSingleQuotes(s[1..])
  }

  lemma {:induction false} EscapeSingleQuotesAppend(a: string, b: string)
    ensures EscapeSingleQuotes(a + b) == EscapeSingleQuotes(a) + EscapeSingleQuotes(b)
  {
    if a != [] {
      EscapeSingleQuotesAppend(a[1..], b);
      assert (a + b)[1..] == a[1..] + b;
    } else {
      assert a + b == b;
    }
  }

  /** Every single quote in `e` has a backslash right before it. */
  predicate QuotesEscaped(e: string) {
    forall i :: 0 <= i < |e| && e[i] == '\'' ==> 0 < i && e[i - 1] == '\\'
  }

  lemma QuotesEscapedAppend(a: string, b: string)
    requires QuotesEscaped(a) && QuotesEscaped(b)
    ensures QuotesEscaped(a + b)
  {
    forall i | 0 <= i < |a + b| && (a + b)[i] == '\''
      ensures 0 < i && (a + b)[i - 1] == '\\'
    {
      if i < |a| {
        assert (a + b)[i] == a[i];
        if 0 < i {
          assert (a + b)[i - 1] == a[i - 1];
        }
      } else {
        assert (a + b)[i] == b[i - |a|];
        assert (a + b)[i - 1] == b[i - |a| - 1];
      }
    }
  }

  /** After escaping, every single quote has a backslash right before it. */
  lemma {:induction false} SingleQuotesEscaped(s: string)
    ensures QuotesEscaped(EscapeSingleQuotes(s))
  {
    if s != [] {
      SingleQuotesEscaped(s[1..]);
      var head := if s[0] == '\'' then "\\'" else [s[0]];
      assert QuotesEscaped(head);
      QuotesEscapedAppend(head, EscapeSingleQuotes(s[1..]));
    }
  }

  /**
   * The value half of an entry: `JSON.stringify(value)`, single quotes
   * escaped, then a leading and a trailing double quote each turned into a
   * single quote.
   */
  function RenderValue(v: Value): string
    requires Leaf(v)
  {
    Requote(EscapeSingleQuotes(Stringify(v)))
  }

  /** `.replace(/^"/g, "'").replace(/"$/g, "'")`. */
  function Requote(escaped: string): string {
    var leading := if |escaped| > 0 && escaped[0] == '"' then "'" + escaped[1..] else escaped;
    if |leading| > 0 && leading[|leading| - 1] == '"' then leading[..|leading| - 1] + "'" else leading
  }

  /** Surrounding double quotes become single quotes. */
  lemma RequoteQuoted(inner: string)
    ensures Requote("\"" + inner + "\"") == "'" + inner + "'"
  {
    var escaped := "\"" + inner + "\"";
    assert escaped[0] == '"' && escaped[1..] == inner + "\"";
    var leading := "'" + inner + "\"";
    assert leading[|leading| - 1] == '"' && leading[..|leading| - 1] == "'" + inner;
  }

  /**
   * A string renders between single quotes, with its JSON escapes and its
   * own single quotes escaped; every single quote inside has a backslash
   * before it.
   */
  lemma RenderString(s: string)
    ensures RenderValue(Str(s)) == "'" + EscapeSingleQuotes(JsonEscape(s)) + "'"
    ensures QuotesEscaped(EscapeSingleQuotes(JsonEscape(s)))
  {
    var inner := EscapeSingleQuotes(JsonEscape(s));
    EscapeSingleQuotesAppend("\"" + JsonEscape(s), "\"");
    EscapeSingleQuotesAppend("\"", JsonEscape(s));
    assert EscapeSingleQuotes("\"") == "\"";
    assert EscapeSingleQuotes(Stringify(Str(s))) == "\"" + inner + "\"";
    RequoteQuoted(inner);
    SingleQuotesEscaped(JsonEscape(s));
  }

  /** Numbers and booleans carry no quotes: they render as `JSON.stringify` writes them. */
  lemma RenderNumber(n: int)
    ensures RenderValue(Num(n)) == IntToString(n)
  {
    var s := IntToString(n);
    assert forall i :: 0 <= i < |s| ==> s[i] != '\'' && s[i] != '"';
    NoQuotesUnescaped(s);
  }

  /** Escaping single quotes changes nothing in a string without any. */
  lemma {:induction false} NoQuotesUnescaped(s: string)
    requires forall i :: 0 <= i < |s| ==> s[i] != '\''
    ensures EscapeSingleQuotes(s) == s
  {
    if s != [] {
      NoQuotesUnescaped(s[1..]);
    }
  }

  /** `[key, rendered value].join(':')`. */
  function RenderEntry(f: Field): string
    requires Leaf(f.value)
  {
    f.name + ":" + RenderValue(f.value)
  }

  function RenderEntries(fs: seq<Field>): (r: seq<string>)
    requires AllLeaves(fs)
    ensures |r| == |fs|
  {
    if fs == [] then [] else [RenderEntry(fs[0])] + RenderEntries(fs[1..])
  }

  /** A permutation of leaves holds only leaves. */
  lemma PermutedLeaves(a: seq<Field>, b: seq<Field>)
    requires multiset(a) == multiset(b) && AllLeaves(b)
    ensures AllLeaves(a)
  {
    forall i | 0 <= i < |a| ensures Leaf(a[i].value) {
      assert a[i] in multiset(b);
      var j :| 0 <= j < |b| && b[j] == a[i];
    }
  }

  /** The key/value pairs the string lists: flattened, stripped of metadata, in depth order, through `Object.fromEntries`. */
  function GrokableEntries(comparable: Value): (r: seq<Field>)
    ensures AllLeaves(r)
  {
    var kept := HighSignal(Flatten(comparable));
    HighSignalLeaves(Flatten(comparable));
    var sorted := SortByDepth(kept);
    PermutedLeaves(sorted, kept);
    FromEntriesLeaves(sorted);
    FromEntries(sorted)
  }

  /**
   * `castReferenceToGrokableString` (without its cache): resolve the
   * reference into common comparable form, then write the class name
   * followed by each `key:'value'` entry, joined by '.'.
   */
  function GrokableString(fuel: nat, reference: Value, lookup: Lookup): (r: Result<string, LegacyError>)
    requires reference.Ref?
    ensures r.Failure? <==> ResolveRef(fuel, reference, lookup).Failure?
    ensures r.Failure? ==> r.error == ResolveRef(fuel, reference, lookup).error
    ensures r.Success? ==> StartsWith(r.value, reference.referenceOf)
  {
    match ResolveRef(fuel, reference, lookup)
    case Failure(e) => Failure(e)
    case Success(comparable) =>
      Success(JoinDots([reference.referenceOf] + RenderEntries(GrokableEntries(comparable))))
  }

  /* ------------------------------------------------------------ properties */

  /**
   * A primary-key reference and the unique-key reference its look-up
   * gives render identically, when that unique key holds no further
   * references to resolve and names the same class.
   */
  lemma PrimaryAndUniqueRenderAlike(fuel: nat, reference: Value, lookup: Lookup)
    requires reference.Ref? && reference.key != UniqueKey && fuel > 0
    requires LookUpUniqueReference(reference, lookup).Success?
    requires var unique := LookUpUniqueReference(reference, lookup).value;
      unique.referenceOf == reference.referenceOf && FieldsInCommonForm(unique.value)
    ensures GrokableString(fuel, reference, lookup) ==
      GrokableString(fuel, LookUpUniqueReference(reference, lookup).value, lookup)
  {
    ResolveThroughLookUpFixed(fuel, reference, lookup);
  }

  /** Both references of the lemma above resolve to the looked-up unique-key reference. */
  lemma ResolveThroughLookUpFixed(fuel: nat, reference: Value, lookup: Lookup)
    requires reference.Ref? && reference.key != UniqueKey && fuel > 0
    requires LookUpUniqueReference(reference, lookup).Success?
    requires FieldsInCommonForm(LookUpUniqueReference(reference, lookup).value.value)
    ensures var unique := LookUpUniqueReference(reference, lookup).value;
      ResolveRef(fuel, reference, lookup) == Success(unique) && ResolveRef(fuel, unique, lookup) == Success(unique)
  {
    var unique := LookUpUniqueReference(reference, lookup).value;
    ResolvesThroughLookUp(fuel, reference, lookup);
    FieldsInCommonFormFixed(fuel - 1, unique.value, lookup);
    assert ResolveRef(fuel - 1, unique, lookup) == Success(unique);
    FieldsInCommonFormFixed(fuel, unique.value, lookup);
  }

  /**
   * A unique-key attribute name the rendering keeps as it is: no dot, no
   * metadata word, and no match of the marker pattern.
   */
  predicate PlainName(name: string) {
    (forall i :: 0 <= i < |name| ==> name[i] != '.') &&
    !Noisy(Marker + name) &&
    forall i :: 0 <= i < |name| ==> !MarkerAt(name, i)
  }

  /** A shallow unique key: plain, distinct attribute names holding leaves. */
  predicate ShallowKey(fs: seq<Field>) {
    DistinctNames(fs) && AllLeaves(fs) && forall i :: 0 <= i < |fs| ==> PlainName(fs[i].name)
  }

  lemma ShallowKeyTail(fs: seq<Field>)
    requires fs != [] && ShallowKey(fs)
    ensures ShallowKey(fs[1..])
  {
    forall i | 0 <= i < |fs[1..]| ensures PlainName(fs[1..][i].name) && Leaf(fs[1..][i].value) {
      assert fs[1..][i] == fs[i + 1];
    }
    forall i, j | 0 <= i < j < |fs[1..]| ensures fs[1..][i].name != fs[1..][j].name {
      assert fs[1..][i] == fs[i + 1] && fs[1..][j] == fs[j + 1];
    }
  }

  /** The attribute fields as `flattie` names them inside a unique-key reference. */
  function UnderMarker(fs: seq<Field>): (r: seq<Field>)
    ensures |r| == |fs|
  {
    if fs == [] then [] else [Field(Marker + fs[0].name, fs[0].value)] + UnderMarker(fs[1..])
  }

  /** A key is in `fs` followed by `f` when `fs` has it or `f` carries it. */
  lemma HasKeySnoc(fs: seq<Field>, f: Field, k: string)
    ensures HasKey(fs + [f], k) <==> HasKey(fs, k) || f.name == k
  {
    if HasKey(fs, k) {
      var i :| 0 <= i < |fs| && fs[i].name == k;
      assert (fs + [f])[i] == fs[i];
    }
    if HasKey(fs + [f], k) && f.name != k {
      var i :| 0 <= i < |fs + [f]| && (fs + [f])[i].name == k;
      assert i < |fs| && (fs + [f])[i] == fs[i];
    }
    assert (fs + [f])[|fs|] == f;
  }

  /** A leaf under a new key is appended. */
  lemma FlatLeafAppends(out: seq<Field>, key: string, v: Value)
    requires Leaf(v) && !HasKey(out, key)
    ensures Flat(out, key, v) == out + [Field(key, v)]
  {
    AssignAbsentAppends(out, key, v);
  }

  /** Marking keeps names apart. */
  lemma MarkedDistinct(a: string, b: string)
    requires a != b
    ensures Marker + a != Marker + b
  {
    assert (Marker + a)[|Marker|..] == a;
    assert (Marker + b)[|Marker|..] == b;
  }

  /** After appending the first attribute, the remaining ones are still absent. */
  lemma RestStillAbsent(out: seq<Field>, fs: seq<Field>)
    requires fs != [] && DistinctNames(fs)
    requires forall i :: 0 <= i < |fs| ==> !HasKey(out, Marker + fs[i].name)
    ensures forall i :: 0 <= i < |fs[1..]| ==>
      !HasKey(out + [Field(Marker + fs[0].name, fs[0].value)], Marker + fs[1..][i].name)
  {
    var marked := Field(Marker + fs[0].name, fs[0].value);
    forall i | 0 <= i < |fs[1..]| ensures !HasKey(out + [marked], Marker + fs[1..][i].name) {
      assert fs[1..][i] == fs[i + 1];
      MarkedDistinct(fs[i + 1].name, fs[0].name);
      HasKeySnoc(out, marked, Marker + fs[i + 1].name);
    }
  }

  /** Walking the shallow attributes appends them under the marker. */
  lemma {:induction false} FlatShallowFields(out: seq<Field>, fs: seq<Field>)
    decreases |fs|
    requires DistinctNames(fs) && AllLeaves(fs)
    requires forall i :: 0 <= i < |fs| ==> !HasKey(out, Marker + fs[i].name)
    ensures FlatFields(out, Marker, fs) == out + UnderMarker(fs)
  {
    if fs != [] {
      var marked := Field(Marker + fs[0].name, fs[0].value);
      FlatLeafAppends(out, marked.name, fs[0].value);
      RestStillAbsent(out, fs);
      assert DistinctNames(fs[1..]) && AllLeaves(fs[1..]);
      calc {
        FlatFields(out, Marker, fs);
        FlatFields(out + [marked], Marker, fs[1..]);
        { FlatShallowFields(out + [marked], fs[1..]); }
        (out + [marked]) + UnderMarker(fs[1..]);
        out + ([marked] + UnderMarker(fs[1..]));
        out + UnderMarker(fs);
      }
    }
  }

  /** A key under the marker is never `referenceOf` or `identifiedBy.key` itself. */
  lemma MarkedNotMetadata(name: string)
    ensures Marker + name != "referenceOf" && Marker + name != "identifiedBy.key"
  {
    assert (Marker + name)[0] == 'i' && (Marker + name)[13] == 'v';
  }

  /** The flat form of a shallow unique-key reference: its two metadata keys, then its attributes under the marker. */
  lemma FlattenShallowReference(referenceOf: string, fs: seq<Field>)
    requires DistinctNames(fs) && AllLeaves(fs)
    ensures Flatten(Ref(referenceOf, UniqueKey, fs)) ==
      [Field("referenceOf", Str(referenceOf)), Field("identifiedBy.key", Str("UNIQUE_KEY"))] + UnderMarker(fs)
  {
    var head := [Field("referenceOf", Str(referenceOf)), Field("identifiedBy.key", Str("UNIQUE_KEY"))];
    FlatUniqueReference(referenceOf, fs);
    forall i | 0 <= i < |fs| ensures !HasKey(head, Marker + fs[i].name) {
      MarkedNotMetadata(fs[i].name);
      assert head[0].name != Marker + fs[i].name && head[1].name != Marker + fs[i].name;
    }
    FlatShallowFields(head, fs);
  }

  /** The walk of a unique-key reference writes its two metadata keys, then walks its value under the marker. */
  lemma FlatUniqueReference(referenceOf: string, fs: seq<Field>)
    ensures Flatten(Ref(referenceOf, UniqueKey, fs)) ==
      FlatFields([Field("referenceOf", Str(referenceOf)), Field("identifiedBy.key", Str("UNIQUE_KEY"))], Marker, fs)
  {
    var named := [Field("referenceOf", Str(referenceOf))];
    var head := named + [Field("identifiedBy.key", Str("UNIQUE_KEY"))];
    AssignAbsentAppends([], "referenceOf", Str(referenceOf));
    assert "" + "referenceOf" == "referenceOf" && [] + named == named;
    assert AssignLeaf([], "" + "referenceOf", Str(referenceOf)) == named;
    HasKeyCons(named[0], [], "identifiedBy.key");
    AssignAbsentAppends(named, "identifiedBy.key", Str("UNIQUE_KEY"));
    assert "" + "identifiedBy.key" == "identifiedBy.key" && KeyTypeName(UniqueKey) == "UNIQUE_KEY";
    assert AssignLeaf(named, "" + "identifiedBy.key", Str(KeyTypeName(UniqueKey))) == head;
    assert "" + "identifiedBy.value." == Marker;
    assert Flat([], "", Ref(referenceOf, UniqueKey, fs)) == FlatFields(head, Marker, fs);
    assert head == [Field("referenceOf", Str(referenceOf)), Field("identifiedBy.key", Str("UNIQUE_KEY"))];
    assert !Leaf(Ref(referenceOf, UniqueKey, fs));
  }

  /** A key is its own substring. */
  lemma ContainsSelf(s: string)
    ensures Contains(s, s)
  {
    assert OccursAt(s, s, 0);
  }

  /** Stripping the marker from a plain name under it gives the name back. */
  lemma StripMarked(name: string)
    requires forall i :: !MarkerAt(name, i)
    ensures StripMarker(Marker + name) == name
  {
    assert MarkerAt(Marker + name, 0);
    assert (Marker + name)[|Marker|..] == name;
  }

  /** The metadata of a shallow unique-key reference is dropped and its attributes come back under their own names. */
  lemma {:induction false} HighSignalShallow(fs: seq<Field>)
    requires ShallowKey(fs)
    ensures HighSignal(UnderMarker(fs)) == fs
  {
    if fs != [] {
      var marked := UnderMarker(fs);
      assert marked[0] == Field(Marker + fs[0].name, fs[0].value);
      StripMarked(fs[0].name);
      assert Rewrite(marked[0]) == Some(fs[0]);
      assert HighSignal(marked) == [fs[0]] + HighSignal(marked[1..]);
      assert marked[1..] == UnderMarker(fs[1..]);
      ShallowKeyTail(fs);
      HighSignalShallow(fs[1..]);
      assert HighSignal(marked) == [fs[0]] + fs[1..];
      assert [fs[0]] + fs[1..] == fs;
    } else {
      assert UnderMarker(fs) == [];
    }
  }

  /**
   * The rendering of a shallow unique-key reference, with any fuel: the
   * class name, then `name:'value'` for each attribute in its declared
   * order, joined by '.'.
   */
  lemma ShallowRendering(fuel: nat, referenceOf: string, fs: seq<Field>, lookup: Lookup)
    requires ShallowKey(fs)
    ensures GrokableString(fuel, Ref(referenceOf, UniqueKey, fs), lookup) ==
      Success(JoinDots([referenceOf] + RenderEntries(fs)))
  {
    var comparable := Ref(referenceOf, UniqueKey, fs);
    assert FieldsInCommonForm(fs);
    FieldsInCommonFormFixed(fuel, fs, lookup);
    assert ResolveRef(fuel, comparable, lookup) == Success(comparable);
    ShallowEntries(referenceOf, fs);
  }

  /** The entries of a shallow unique-key reference are its attributes, in order. */
  lemma ShallowEntries(referenceOf: string, fs: seq<Field>)
    requires ShallowKey(fs)
    ensures GrokableEntries(Ref(referenceOf, UniqueKey, fs)) == fs
  {
    FlattenShallowReference(referenceOf, fs);
    var flat := Flatten(Ref(referenceOf, UniqueKey, fs));
    ContainsSelf("referenceOf");
    ContainsSelf("identifiedBy.key");
    assert Rewrite(flat[0]) == None && Rewrite(flat[1]) == None;
    assert flat[1..][1..] == UnderMarker(fs);
    assert HighSignal(flat) == HighSignal(flat[1..][1..]);
    HighSignalShallow(fs);
    forall i | 0 <= i < |fs| ensures Depth(fs[i].name) == 1 {
      DotlessDepth(fs[i].name);
    }
    SortByDepthFlat(fs, 1);
    FromEntriesDistinct(fs);
  }
}
