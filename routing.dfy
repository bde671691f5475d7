/**
 * `getDaoByResource`: find the one provider whose DAOs serve a resource's
 * class.
 */
module Routing {
  import opened Wrappers
  import opened Values
  import opened Resources

  /** A provider: its name, its DAOs keyed by class name, and the context handed to them. */
  datatype Provider = Provider(name: string, daos: map<string, Dao>, context: seq<Field>)

  /** A provider that serves the class being routed. */
  datatype Match = Match(name: string, dao: Dao, context: seq<Field>)

  /** The DAO and context a resource is routed to. */
  datatype Routed = Routed(dao: Dao, context: seq<Field>)

  /** A provider as listed in the "no DAO found" error: its name and the classes it serves. */
  datatype ProviderSummary = ProviderSummary(name: string, supported: set<string>)

  datatype RoutingError =
    | MultipleProviders(resource: string, providers: seq<string>)
    | NoDaoFound(resourceClassName: string, availableProviders: seq<ProviderSummary>)

  /** The provider's entry for the class, as `getDaoByResource` collects it. */
  function MatchOf(p: Provider, cls: string): Match
    requires cls in p.daos
  {
    Match(p.name, p.daos[cls], p.context)
  }

  /** What a resource of the class is routed to when provider `p` is the one serving it. */
  function RoutedTo(p: Provider, cls: string): Routed
    requires cls in p.daos
  {
    Routed(p.daos[cls], p.context)
  }

  /** How many providers serve the class. */
  function ClaimCount(providers: seq<Provider>, cls: string): nat {
    if providers == [] then 0
    else (if cls in providers[0].daos then 1 else 0) + ClaimCount(providers[1..], cls)
  }

  /** The providers that serve the class, in provider order. */
  function Candidates(providers: seq<Provider>, cls: string): (ms: seq<Match>)
    ensures |ms| == ClaimCount(providers, cls)
    ensures forall i :: 0 <= i < |providers| && cls in providers[i].daos ==> MatchOf(providers[i], cls) in ms
    ensures forall m <- ms :: exists i :: 0 <= i < |providers| && cls in providers[i].daos && m == MatchOf(providers[i], cls)
  {
    if providers == [] then []
    else
      var p := providers[0];
      var rest := Candidates(providers[1..], cls);
      var ms := (if cls in p.daos then [Match(p.name, p.daos[cls], p.context)] else []) + rest;
      assert forall i :: 0 < i < |providers| ==> providers[i] == providers[1..][i - 1];
      forall m <- ms
        ensures exists i :: 0 <= i < |providers| && cls in providers[i].daos && m == MatchOf(providers[i], cls)
      {
        if m in rest {
          var i :| 0 <= i < |providers[1..]| && cls in providers[1..][i].daos && m == MatchOf(providers[1..][i], cls);
          assert providers[i + 1] == providers[1..][i];
        }
      }
      ms
  }

  /** One provider contributes its own entry when it serves the class, and nothing otherwise. */
  lemma CandidatesOne(p: Provider, cls: string)
    ensures cls in p.daos ==> Candidates([p], cls) == [MatchOf(p, cls)]
    ensures cls !in p.daos ==> Candidates([p], cls) == []
  {
    assert [p][1..] == [];
  }

  /** Candidates are collected provider by provider, so the list keeps provider order and multiplicity. */
  lemma {:induction false} CandidatesAppend(a: seq<Provider>, b: seq<Provider>, cls: string)
    ensures Candidates(a + b, cls) == Candidates(a, cls) + Candidates(b, cls)
  {
    if a == [] {
      assert a + b == b;
    } else {
      var ab := a + b;
      assert ab[0] == a[0] && ab[1..] == a[1..] + b;
      CandidatesAppend(a[1..], b, cls);
      var head := if cls in a[0].daos then [MatchOf(a[0], cls)] else [];
      calc {
        Candidates(ab, cls);
        head + Candidates(a[1..] + b, cls);
        head + (Candidates(a[1..], cls) + Candidates(b, cls));
        (head + Candidates(a[1..], cls)) + Candidates(b, cls);
        Candidates(a, cls) + Candidates(b, cls);
      }
    }
  }

  /** Provider `i` serves the class and no other provider does. */
  predicate SoleProvider(providers: seq<Provider>, cls: string, i: int) {
    0 <= i < |providers| && cls in providers[i].daos &&
    forall j :: 0 <= j < |providers| && j != i ==> cls !in providers[j].daos
  }

  /** A single claim identifies its provider: every other provider lacks the class. */
  lemma {:induction false} SingleClaimant(providers: seq<Provider>, cls: string, i: int)
    requires ClaimCount(providers, cls) == 1
    requires 0 <= i < |providers| && cls in providers[i].daos
    ensures SoleProvider(providers, cls, i)
  {
    var rest := providers[1..];
    assert forall j :: 0 < j < |providers| ==> providers[j] == rest[j - 1];
    if cls in providers[0].daos {
      NoClaimant(rest, cls);
    } else {
      SingleClaimant(rest, cls, i - 1);
    }
  }

  lemma {:induction false} NoClaimant(providers: seq<Provider>, cls: string)
    requires ClaimCount(providers, cls) == 0
    ensures forall j :: 0 <= j < |providers| ==> cls !in providers[j].daos
  {
    if providers != [] {
      NoClaimant(providers[1..], cls);
      assert forall j :: 0 < j < |providers| ==> providers[j] == providers[1..][j - 1];
    }
  }

  /**
   * `getDaoByResource`: the providers serving the resource's class are
   * collected; more than one is an error naming them, none is an error
   * listing every provider and what it serves, and exactly one yields its
   * DAO and context unchanged.
   */
  function GetDaoByResource(resource: Resource, providers: seq<Provider>): (r: Result<Routed, RoutingError>)
    ensures r.Success? <==> ClaimCount(providers, resource.cls.name) == 1
    ensures r.Success? ==>
      exists i :: SoleProvider(providers, resource.cls.name, i) && r.value == RoutedTo(providers[i], resource.cls.name)
    ensures ClaimCount(providers, resource.cls.name) > 1 ==>
      r == Failure(MultipleProviders(resource.cls.name, Names(Candidates(providers, resource.cls.name))))
    ensures ClaimCount(providers, resource.cls.name) == 0 ==>
      r == Failure(NoDaoFound(resource.cls.name, Summaries(providers)))
  {
    var cls := resource.cls.name;
    var matches := Candidates(providers, cls);
    if |matches| > 1 then Failure(MultipleProviders(cls, Names(matches)))
    else if |matches| == 0 then Failure(NoDaoFound(cls, Summaries(providers)))
    else
      var m := matches[0];
      assert m in matches;
      var i :| 0 <= i < |providers| && cls in providers[i].daos && m == MatchOf(providers[i], cls);
      SingleClaimant(providers, cls, i);
      Success(RoutedTo(providers[i], cls))
  }

  function Names(ms: seq<Match>): (names: seq<string>)
    ensures |names| == |ms| && forall i :: 0 <= i < |ms| ==> names[i] == ms[i].name
  {
    seq(|ms|, i requires 0 <= i < |ms| => ms[i].name)
  }

  function Summaries(providers: seq<Provider>): (s: seq<ProviderSummary>)
    ensures |s| == |providers|
    ensures forall i :: 0 <= i < |providers| ==> s[i] == ProviderSummary(providers[i].name, providers[i].daos.Keys)
  {
    seq(|providers|, i requires 0 <= i < |providers| => ProviderSummary(providers[i].name, providers[i].daos.Keys))
  }

  /** Routing reads only the resource's class name, never its attributes. */
  lemma RoutingIgnoresAttributes(a: Resource, b: Resource, providers: seq<Provider>)
    requires a.cls.name == b.cls.name
    ensures GetDaoByResource(a, providers) == GetDaoByResource(b, providers)
  {
  }
}
