/** Repairing schools that point to a storage provider which does not hold their bucket. */
module ProviderRepair {
  import opened Wrappers

  type Id = string

  datatype School = School(id: Id, storageProvider: Option<Id>)

  /** A provider with the names of the buckets it lists. */
  datatype Provider = Provider(id: Id, buckets: seq<string>)

  const EMPTY_PROVIDER := "NOT_FOUND"

  function BucketOf(school: Id): string {
    "bucket-" + school
  }

  predicate Holds(p: Provider, school: Id) {
    BucketOf(school) in p.buckets
  }

  // ---- what the repair is to do ----

  /** The first provider that holds the bucket of a school. */
  function ProviderFor(providers: seq<Provider>, school: Id): (id: Id)
    ensures id == EMPTY_PROVIDER || exists p :: p in providers && p.id == id && Holds(p, school)
  {
    if providers == [] then EMPTY_PROVIDER
    else if Holds(providers[0], school) then providers[0].id
    else ProviderFor(providers[1..], school)
  }

  /** The school points to a listed provider, which does not hold its bucket. */
  ghost predicate IsWrong(providers: seq<Provider>, s: School) {
    exists p :: p in providers && s.storageProvider == Some(p.id) && !Holds(p, s.id)
  }

  ghost function Repaired(providers: seq<Provider>, s: School): School {
    var found := ProviderFor(providers, s.id);
    if IsWrong(providers, s) && found != EMPTY_PROVIDER then s.(storageProvider := Some(found)) else s
  }

  ghost predicate Distinct(providers: seq<Provider>) {
    && (forall p, q :: p in providers && q in providers && p.id == q.id ==> p == q)
    && (forall p :: p in providers ==> p.id != EMPTY_PROVIDER)
  }

  ghost predicate UniqueSchools(schools: seq<School>) {
    forall s, t :: s in schools && t in schools && s.id == t.id ==> s == t
  }

  /** The schools in `wrong`, listed under the provider found for each. */
  ghost predicate Groups(found: map<Id, seq<Id>>, wrong: seq<Id>, providers: seq<Provider>) {
    && (forall p :: p in found ==> forall id :: id in found[p] ==> id in wrong && ProviderFor(providers, id) == p)
    && (forall id :: id in wrong ==> ProviderFor(providers, id) in found && id in found[ProviderFor(providers, id)])
  }

  predicate Disjoint(found: map<Id, seq<Id>>) {
    forall p, q :: p in found && q in found && p != q ==> forall i :: 0 <= i < |found[p]| ==> found[p][i] !in found[q]
  }

  // ---- the program ----

  class Migration {
    var schools: seq<School>

    constructor (schools: seq<School>)
      ensures this.schools == schools
    {
      this.schools := schools;
    }

    /** The ids grouped under one provider. */
    method SchoolsWith(provider: Id) returns (ids: seq<Id>)
      ensures forall id :: id in ids <==> School(id, Some(provider)) in schools
    {
      ids := [];
      for i := 0 to |schools|
        invariant forall id :: id in ids <==> School(id, Some(provider)) in schools[..i]
      {
        if schools[i].storageProvider == Some(provider) {
          ids := ids + [schools[i].id];
        }
      }
    }

    method GetSchoolsWithoutBuckets(ids: seq<Id>, provider: Provider) returns (without: seq<Id>)
      ensures forall id :: id in without <==> id in ids && !Holds(provider, id)
    {
      without := [];
      for i := 0 to |ids|
        invariant forall id :: id in without <==> id in ids[..i] && !Holds(provider, id)
      {
        if !Holds(provider, ids[i]) {
          without := without + [ids[i]];
        }
      }
    }

    method GetSchoolsWithWrongProviders(providers: seq<Provider>) returns (wrong: seq<Id>)
      ensures forall id :: id in wrong <==> exists s :: s in schools && s.id == id && IsWrong(providers, s)
    {
      wrong := [];
      for i := 0 to |providers|
        invariant forall id :: id in wrong <==> exists s :: s in schools && s.id == id && IsWrong(providers[..i], s)
      {
        var ids := SchoolsWith(providers[i].id);
        var without := GetSchoolsWithoutBuckets(ids, providers[i]);
        ghost var before := wrong;
        wrong := wrong + without;
        forall id ensures id in wrong <==> exists s :: s in schools && s.id == id && IsWrong(providers[..i + 1], s) {
          if id in without {
            assert IsWrong(providers[..i + 1], School(id, Some(providers[i].id))) by {
              assert providers[i] in providers[..i + 1];
            }
          }
          if id in before {
            var s :| s in schools && s.id == id && IsWrong(providers[..i], s);
            WrongAmongMore(providers, i, s);
          }
          if s :| s in schools && s.id == id && IsWrong(providers[..i + 1], s) {
            WrongAmongMore(providers, i, s);
          }
        }
      }
      assert providers[..|providers|] == providers;
    }

    method GetProviderForSchool(providers: seq<Provider>, school: Id) returns (found: Id)
      ensures found == ProviderFor(providers, school)
    {
      for i := 0 to |providers|
        invariant ProviderFor(providers, school) == ProviderFor(providers[i..], school)
      {
        assert providers[i..][0] == providers[i] && providers[i..][1..] == providers[i + 1..];
        if Holds(providers[i], school) {
          return providers[i].id;
        }
      }
      return EMPTY_PROVIDER;
    }

    method FindProvidersForSchools(wrong: seq<Id>, providers: seq<Provider>) returns (found: map<Id, seq<Id>>)
      ensures Groups(found, wrong, providers)
    {
      found := map[];
      for i := 0 to |wrong|
        invariant Groups(found, wrong[..i], providers)
      {
        assert wrong[..i + 1] == wrong[..i] + [wrong[i]];
        var provider := GetProviderForSchool(providers, wrong[i]);
        var schoolsForProvider := if provider in found then found[provider] else [];
        found := found[provider := schoolsForProvider + [wrong[i]]];
      }
      assert wrong[..|wrong|] == wrong;
    }

    /** The entries are written one after the other, in any order. */
    method UpdateProvidersForSchools(found: map<Id, seq<Id>>)
      requires Disjoint(found)
      modifies this
      ensures |schools| == |old(schools)|
      ensures forall i :: 0 <= i < |schools| ==> schools[i] == Assigned(found, found.Keys, old(schools)[i])
    {
      hide Assigned, Disjoint;
      var remaining := found.Keys;
      forall i | 0 <= i < |schools| ensures schools[i] == Assigned(found, {}, schools[i]) {
        AssignedNone(found, schools[i]);
      }
      assert found.Keys - remaining == {};
      while remaining != {}
        invariant remaining <= found.Keys && |schools| == |old(schools)|
        invariant forall i :: 0 <= i < |schools| ==> schools[i] == Assigned(found, found.Keys - remaining, old(schools)[i])
        decreases |remaining|
      {
        var provider :| provider in remaining;
        ghost var done := found.Keys - remaining;
        ghost var before := schools;
        if provider != EMPTY_PROVIDER {
          UpdateMany(found[provider], provider);
        }
        remaining := remaining - {provider};
        assert found.Keys - remaining == done + {provider};
        forall i | 0 <= i < |schools| ensures schools[i] == Assigned(found, found.Keys - remaining, old(schools)[i]) {
          AssignedOneMore(found, done, provider, old(schools)[i]);
          AssignedKeepsId(found, done, old(schools)[i]);
          assert before[i] == Assigned(found, done, old(schools)[i]);
        }
      }
      assert found.Keys - {} == found.Keys;
    }

    method UpdateMany(ids: seq<Id>, provider: Id)
      modifies this
      ensures |schools| == |old(schools)|
      ensures forall i :: 0 <= i < |schools| ==>
                schools[i] == if old(schools)[i].id in ids then old(schools)[i].(storageProvider := Some(provider)) else old(schools)[i]
    {
      for i := 0 to |schools|
        invariant |schools| == |old(schools)|
        invariant forall k :: 0 <= k < |schools| ==>
                    schools[k] == if k < i && old(schools)[k].id in ids then old(schools)[k].(storageProvider := Some(provider))
                                  else old(schools)[k]
      {
        if schools[i].id in ids {
          schools := schools[i := schools[i].(storageProvider := Some(provider))];
        }
      }
    }

    method Up(providers: seq<Provider>)
      requires Distinct(providers) && UniqueSchools(schools)
      modifies this
      ensures |schools| == |old(schools)|
      ensures forall i :: 0 <= i < |schools| ==> schools[i] == Repaired(providers, old(schools)[i])
    {
      var wrong := GetSchoolsWithWrongProviders(providers);
      ghost var before := schools;
      if |wrong| == 0 {
        forall i | 0 <= i < |schools| ensures schools[i] == Repaired(providers, before[i]) {
          assert before[i] in before && before[i].id !in wrong;
        }
        return;
      }
      var found := FindProvidersForSchools(wrong, providers);
      GroupsAreDisjoint(found, wrong, providers);
      UpdateProvidersForSchools(found);
      forall i | 0 <= i < |schools| ensures schools[i] == Repaired(providers, before[i]) {
        assert before[i] in before;
        assert before[i].id in wrong <==> IsWrong(providers, before[i]);
        AssignedIsRepaired(found, wrong, providers, before[i]);
      }
    }
  }

  lemma GroupsAreDisjoint(found: map<Id, seq<Id>>, wrong: seq<Id>, providers: seq<Provider>)
    requires Groups(found, wrong, providers)
    ensures Disjoint(found)
  {
  }

  lemma AssignedIsRepaired(found: map<Id, seq<Id>>, wrong: seq<Id>, providers: seq<Provider>, s: School)
    requires Groups(found, wrong, providers) && Disjoint(found)
    requires s.id in wrong <==> IsWrong(providers, s)
    ensures Assigned(found, found.Keys, s) == Repaired(providers, s)
  {
  }

  lemma WrongAmongMore(providers: seq<Provider>, i: nat, s: School)
    requires i < |providers|
    ensures IsWrong(providers[..i + 1], s) <==>
              IsWrong(providers[..i], s) || (s.storageProvider == Some(providers[i].id) && !Holds(providers[i], s.id))
  {
  }

  /** A school after the providers in `done` have been written. */
  function Assigned(found: map<Id, seq<Id>>, done: set<Id>, s: School): School
    requires done <= found.Keys
    requires Disjoint(found)
  {
    if exists p :: p in done && p != EMPTY_PROVIDER && s.id in found[p] then
      s.(storageProvider := Some(var p :| p in done && p != EMPTY_PROVIDER && s.id in found[p]; p))
    else s
  }

  lemma AssignedNone(found: map<Id, seq<Id>>, s: School)
    requires Disjoint(found)
    ensures Assigned(found, {}, s) == s
  {
  }

  lemma AssignedKeepsId(found: map<Id, seq<Id>>, done: set<Id>, s: School)
    requires done <= found.Keys && Disjoint(found)
    ensures Assigned(found, done, s).id == s.id
  {
  }

  lemma AssignedOneMore(found: map<Id, seq<Id>>, done: set<Id>, p: Id, s: School)
    requires done <= found.Keys && p in found
    requires Disjoint(found)
    ensures Assigned(found, done + {p}, s) ==
              if p != EMPTY_PROVIDER && s.id in found[p] then s.(storageProvider := Some(p)) else Assigned(found, done, s)
  {
  }

  // ---- what the repair achieves ----

  lemma {:induction false} ProviderForFindsOne(providers: seq<Provider>, school: Id)
    requires Distinct(providers)
    ensures ProviderFor(providers, school) == EMPTY_PROVIDER <==> forall p :: p in providers ==> !Holds(p, school)
  {
    if providers != [] && !Holds(providers[0], school) {
      ProviderForFindsOne(providers[1..], school);
    }
  }

  /** A school points to a listed provider that holds its bucket. */
  ghost predicate IsRight(providers: seq<Provider>, s: School) {
    exists p :: p in providers && s.storageProvider == Some(p.id) && "bucket-" + s.id in p.buckets
  }

  ghost predicate HasListedProvider(providers: seq<Provider>, s: School) {
    exists p :: p in providers && s.storageProvider == Some(p.id)
  }

  ghost predicate BucketExists(providers: seq<Provider>, s: School) {
    exists p :: p in providers && "bucket-" + s.id in p.buckets
  }

  /**
   Afterwards a school points to a holder of its bucket exactly when it had a listed provider and its bucket
   exists anywhere.  Schools that were right, that have no bucket, or no listed provider are untouched, and a
   second run changes nothing.
   */
  lemma RepairIsCompleteAndMinimal(providers: seq<Provider>, s: School)
    requires Distinct(providers)
    ensures var r := Repaired(providers, s);
            && r.id == s.id
            && (IsRight(providers, r) <==> HasListedProvider(providers, s) && BucketExists(providers, s))
            && (IsRight(providers, s) || !BucketExists(providers, s) || !HasListedProvider(providers, s) ==> r == s)
            && Repaired(providers, r) == r
  {
    var found := ProviderFor(providers, s.id);
    ProviderForFindsOne(providers, s.id);
    if found != EMPTY_PROVIDER && IsWrong(providers, s) {
      var p :| p in providers && p.id == found && Holds(p, s.id);
      assert IsRight(providers, Repaired(providers, s));
    }
  }

  /** The first provider in the list with the bucket of the school. */
  predicate IsFirstHolder(providers: seq<Provider>, school: Id, i: nat) {
    && i < |providers| && "bucket-" + school in providers[i].buckets
    && forall j :: 0 <= j < i ==> "bucket-" + school !in providers[j].buckets
  }

  lemma {:induction false} FirstHolderIsFound(providers: seq<Provider>, school: Id, i: nat)
    requires IsFirstHolder(providers, school, i)
    ensures ProviderFor(providers, school) == providers[i].id
  {
    if i > 0 {
      FirstHolderIsFound(providers[1..], school, i - 1);
    }
  }

  /** A school whose listed provider lacks its bucket is assigned the first holder; all others stay as they are. */
  lemma WrongSchoolsGetTheFirstHolder(providers: seq<Provider>, s: School)
    requires Distinct(providers)
    ensures var wrong := HasListedProvider(providers, s) && !IsRight(providers, s);
            && (forall i: nat :: wrong && IsFirstHolder(providers, s.id, i) ==> Repaired(providers, s) == School(s.id, Some(providers[i].id)))
            && (!wrong || !BucketExists(providers, s) ==> Repaired(providers, s) == s)
  {
    RepairIsCompleteAndMinimal(providers, s);
    var wrong := HasListedProvider(providers, s) && !IsRight(providers, s);
    forall i: nat | wrong && IsFirstHolder(providers, s.id, i)
      ensures Repaired(providers, s) == School(s.id, Some(providers[i].id))
    {
      FirstHolderIsFound(providers, s.id, i);
      assert providers[i] in providers && providers[i].id != EMPTY_PROVIDER;
    }
  }
}
