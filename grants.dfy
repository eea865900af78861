/**
 * Grants as the registry delivers them, the grant-activity filter, the storage
 * capacity total of a group's grants (`sum_storage`) and the grouping of the
 * active grants under the registry's group names (the loop in `main`), from
 * manage-project-storage.py.
 */
module Grants {
  import opened Wrappers
  import opened Strings

  const STORAGE: string := "storage"
  const CAPACITY: string := "capacity"

  /** One allocation of a grant: a resource name and its numeric parameters. */
  datatype Allocation = Allocation(resource: string, parameters: map<string, int>)

  /** A grant record; `allocations` is `None` when the record has no such key. */
  datatype Grant = Grant(name: string, status: string, group: string, allocations: Option<seq<Allocation>>)

  // ---------------------------------------------------------------------------
  // is_grant_active
  // ---------------------------------------------------------------------------

  /** A grant is active when its status contains `accepted` or `active` anywhere. */
  function IsGrantActive(g: Grant): (r: bool)
    ensures r <==> (exists i :: OccursAt(g.status, "accepted", i)) || (exists i :: OccursAt(g.status, "active", i))
  {
    ContainsIff(g.status, "accepted");
    ContainsIff(g.status, "active");
    Contains(g.status, "accepted") || Contains(g.status, "active")
  }

  /** The test is a substring test, so `inactive` counts as active. */
  lemma InactiveCountsAsActive(g: Grant)
    requires g.status == "inactive"
    ensures IsGrantActive(g)
  {
    assert g.status[2..8] == "active";
    assert OccursAt(g.status, "active", 2);
  }

  /** A status without the letter `c` (such as `expired`) is never active. */
  lemma StatusWithoutCIsInactive(g: Grant)
    requires 'c' !in g.status
    ensures !IsGrantActive(g)
  {
    NotContainsMissingChar(g.status, "accepted", 'c');
    NotContainsMissingChar(g.status, "active", 'c');
  }

  // ---------------------------------------------------------------------------
  // sum_storage
  // ---------------------------------------------------------------------------

  /** Adds two partial totals; the first exception raised wins. */
  function Add(a: Result<int, PyError>, b: Result<int, PyError>): Result<int, PyError> {
    if a.Err? then a else if b.Err? then b else Ok(a.value + b.value)
  }

  /** What one allocation adds: its capacity when it is a storage allocation. */
  function AllocationCapacity(a: Allocation): Result<int, PyError> {
    if a.resource != STORAGE then Ok(0)
    else if CAPACITY in a.parameters then Ok(a.parameters[CAPACITY])
    else Err(KeyError(CAPACITY))
  }

  function AllocationsTotal(allocs: seq<Allocation>): Result<int, PyError> {
    if allocs == [] then Ok(0)
    else Add(AllocationsTotal(allocs[..|allocs| - 1]), AllocationCapacity(allocs[|allocs| - 1]))
  }

  /** The allocations of a grant; a grant without the key has none. */
  function AllocationsOf(g: Grant): seq<Allocation> {
    match g.allocations
    case None => []
    case Some(allocs) => allocs
  }

  function GrantTotal(g: Grant): Result<int, PyError> {
    AllocationsTotal(AllocationsOf(g))
  }

  /** The value `sum_storage(grants)` returns, or the exception it raises. */
  function StorageTotal(grants: seq<Grant>): Result<int, PyError> {
    if grants == [] then Ok(0)
    else Add(StorageTotal(grants[..|grants| - 1]), GrantTotal(grants[|grants| - 1]))
  }

  /** Once an exception is raised on a prefix of the allocations, it is the result. */
  lemma {:induction false} AllocationsFailureSticks(allocs: seq<Allocation>, j: nat)
    requires j <= |allocs| && AllocationsTotal(allocs[..j]).Err?
    ensures AllocationsTotal(allocs) == AllocationsTotal(allocs[..j])
  {
    if j < |allocs| {
      var init := allocs[..|allocs| - 1];
      assert init[..j] == allocs[..j];
      AllocationsFailureSticks(init, j);
    } else {
      assert allocs[..j] == allocs;
    }
  }

  /** Once an exception is raised on a prefix of the grants, it is the result. */
  lemma {:induction false} StorageFailureSticks(grants: seq<Grant>, i: nat)
    requires i <= |grants| && StorageTotal(grants[..i]).Err?
    ensures StorageTotal(grants) == StorageTotal(grants[..i])
  {
    if i < |grants| {
      var init := grants[..|grants| - 1];
      assert init[..i] == grants[..i];
      StorageFailureSticks(init, i);
    } else {
      assert grants[..i] == grants;
    }
  }

  lemma AllocationsTotalStep(allocs: seq<Allocation>, j: nat)
    requires j < |allocs|
    ensures AllocationsTotal(allocs[..j + 1]) == Add(AllocationsTotal(allocs[..j]), AllocationCapacity(allocs[j]))
  {
    assert allocs[..j + 1][..j] == allocs[..j];
  }

  lemma StorageTotalStep(grants: seq<Grant>, i: nat)
    requires i < |grants|
    ensures StorageTotal(grants[..i + 1]) == Add(StorageTotal(grants[..i]), GrantTotal(grants[i]))
  {
    assert grants[..i + 1][..i] == grants[..i];
  }

  /** The inner loop of `sum_storage`: adds one grant's storage capacities to the running sum. */
  method AddGrantStorage(allocs: seq<Allocation>, sum0: int) returns (r: Result<int, PyError>)
    ensures r == Add(Ok(sum0), AllocationsTotal(allocs))
  {
    var sum := sum0;
    for j := 0 to |allocs|
      invariant AllocationsTotal(allocs[..j]) == Ok(sum - sum0)
    {
      AllocationsTotalStep(allocs, j);
      var allocation := allocs[j];
      if allocation.resource == STORAGE {
        if CAPACITY !in allocation.parameters {
          AllocationsFailureSticks(allocs, j + 1);
          return Err(KeyError(CAPACITY));
        }
        sum := sum + allocation.parameters[CAPACITY];
      }
    }
    assert allocs[..|allocs|] == allocs;
    return Ok(sum);
  }

  /** `sum_storage`: an accumulator updated over every allocation of every grant. */
  method SumStorage(grants: seq<Grant>) returns (r: Result<int, PyError>)
    ensures r == StorageTotal(grants)
  {
    var sum := 0;
    for i := 0 to |grants|
      invariant StorageTotal(grants[..i]) == Ok(sum)
    {
      StorageTotalStep(grants, i);
      var grant := grants[i];
      if grant.allocations.Some? {
        var next := AddGrantStorage(grant.allocations.value, sum);
        if next.Err? {
          StorageFailureSticks(grants, i + 1);
          return next;
        }
        sum := next.value;
      }
    }
    assert grants[..|grants|] == grants;
    return Ok(sum);
  }

  /** Every allocation of every grant, in order. */
  function AllAllocations(grants: seq<Grant>): seq<Allocation> {
    if grants == [] then []
    else AllAllocations(grants[..|grants| - 1]) + AllocationsOf(grants[|grants| - 1])
  }

  /** The allocations whose resource is exactly `storage` (case-sensitive). */
  function StorageAllocations(allocs: seq<Allocation>): (r: seq<Allocation>)
    ensures forall a :: a in r <==> a in allocs && a.resource == STORAGE
  {
    if allocs == [] then []
    else (if allocs[0].resource == STORAGE then [allocs[0]] else []) + StorageAllocations(allocs[1..])
  }

  /** Every allocation in `allocs` carries a `capacity` parameter. */
  ghost predicate CapacitiesPresent(allocs: seq<Allocation>) {
    forall a :: a in allocs ==> CAPACITY in a.parameters
  }

  /** The sum of the `capacity` parameters of allocations that all carry one. */
  ghost function SumCapacities(allocs: seq<Allocation>): int
    requires CapacitiesPresent(allocs)
  {
    if allocs == [] then 0 else allocs[0].parameters[CAPACITY] + SumCapacities(allocs[1..])
  }

  lemma {:induction false} SumCapacitiesAppend(a: seq<Allocation>, b: seq<Allocation>)
    requires CapacitiesPresent(a + b)
    ensures SumCapacities(a + b) == SumCapacities(a) + SumCapacities(b)
    decreases |a|
  {
    if a != [] {
      assert (a + b)[1..] == a[1..] + b;
      SumCapacitiesAppend(a[1..], b);
    } else {
      assert a + b == b;
    }
  }

  lemma {:induction false} AllocationsTotalIsSum(allocs: seq<Allocation>)
    ensures AllocationsTotal(allocs) == CapacitySum(StorageAllocations(allocs))
  {
    if allocs != [] {
      var init, last := allocs[..|allocs| - 1], allocs[|allocs| - 1];
      AllocationsTotalIsSum(init);
      assert allocs == init + [last];
      StorageAllocationsAppend(init, [last]);
      CapacitySumAppend(StorageAllocations(init), StorageAllocations([last]));
      CapacitySumSingle(last);
    }
  }

  lemma CapacitySumSingle(a: Allocation)
    ensures CapacitySum(StorageAllocations([a])) == AllocationCapacity(a)
  {
    assert [a][1..] == [];
    if a.resource == STORAGE {
      assert StorageAllocations([a]) == [a];
      assert CapacitiesPresent([a]) <==> CAPACITY in a.parameters;
      if CAPACITY in a.parameters {
        assert SumCapacities([a]) == a.parameters[CAPACITY] + SumCapacities([]);
      }
    } else {
      assert StorageAllocations([a]) == [];
    }
  }

  /**
   * `sum_storage` adds the `capacity` of exactly the allocations whose resource
   * is `storage`, over all grants; it raises `KeyError` when one of those lacks
   * a capacity. Grants without allocations add nothing, and `[]` gives 0.
   */
  lemma {:induction false} StorageTotalIsSum(grants: seq<Grant>)
    ensures StorageTotal(grants) == CapacitySum(StorageAllocations(AllAllocations(grants)))
  {
    if grants != [] {
      var init, last := grants[..|grants| - 1], grants[|grants| - 1];
      StorageTotalIsSum(init);
      AllocationsTotalIsSum(AllocationsOf(last));
      StorageAllocationsAppend(AllAllocations(init), AllocationsOf(last));
      CapacitySumAppend(StorageAllocations(AllAllocations(init)), StorageAllocations(AllocationsOf(last)));
    }
  }

  /** The sum of the capacities of `allocs`, or the `KeyError` of one lacking a capacity. */
  ghost function CapacitySum(allocs: seq<Allocation>): Result<int, PyError> {
    if CapacitiesPresent(allocs) then Ok(SumCapacities(allocs)) else Err(KeyError(CAPACITY))
  }

  lemma CapacitySumAppend(a: seq<Allocation>, b: seq<Allocation>)
    ensures CapacitySum(a + b) == Add(CapacitySum(a), CapacitySum(b))
  {
    assert CapacitiesPresent(a + b) <==> CapacitiesPresent(a) && CapacitiesPresent(b) by {
      assert forall x :: x in a + b <==> x in a || x in b;
    }
    if CapacitiesPresent(a + b) {
      SumCapacitiesAppend(a, b);
    }
  }

  lemma {:induction false} StorageAllocationsAppend(a: seq<Allocation>, b: seq<Allocation>)
    ensures StorageAllocations(a + b) == StorageAllocations(a) + StorageAllocations(b)
    decreases |a|
  {
    if a != [] {
      assert (a + b)[1..] == a[1..] + b;
      StorageAllocationsAppend(a[1..], b);
    } else {
      assert a + b == b;
    }
  }

  // ---------------------------------------------------------------------------
  // Grouping of active grants (main, lines 177-187)
  // ---------------------------------------------------------------------------

  /** A dictionary from group name to grant list, with its keys in insertion order. */
  datatype GroupGrants = GroupGrants(order: seq<string>, members: map<string, seq<Grant>>)

  ghost predicate Distinct(names: seq<string>) {
    forall i, j :: 0 <= i < j < |names| ==> names[i] != names[j]
  }

  /** The names in the order they were first seen: the key order of a dict built from them. */
  function FirstOccurrences(names: seq<string>): seq<string> {
    if names == [] then []
    else
      var earlier := FirstOccurrences(names[..|names| - 1]);
      if names[|names| - 1] in earlier then earlier else earlier + [names[|names| - 1]]
  }

  /** The active grants that name `group`, in input order. */
  function ActiveGrantsOf(grants: seq<Grant>, group: string): seq<Grant> {
    if grants == [] then []
    else
      var g := grants[|grants| - 1];
      ActiveGrantsOf(grants[..|grants| - 1], group) + if IsGrantActive(g) && g.group == group then [g] else []
  }

  /** The dictionary keys are each listed name once. */
  lemma {:induction false} FirstOccurrencesSpec(names: seq<string>)
    ensures Distinct(FirstOccurrences(names))
    ensures forall n :: n in FirstOccurrences(names) <==> n in names
  {
    if names != [] {
      var init := names[..|names| - 1];
      FirstOccurrencesSpec(init);
      assert names == init + [names[|names| - 1]];
    }
  }

  /** A grant is listed under `group` iff it is active and names that group. */
  lemma {:induction false} ActiveGrantsOfSpec(grants: seq<Grant>, group: string)
    ensures forall g :: g in ActiveGrantsOf(grants, group) <==> g in grants && IsGrantActive(g) && g.group == group
  {
    if grants != [] {
      var init := grants[..|grants| - 1];
      ActiveGrantsOfSpec(init, group);
      assert grants == init + [grants[|grants| - 1]];
    }
  }

  /** The dictionary the grouping loop of `main` builds. */
  function Grouping(groupNames: seq<string>, grants: seq<Grant>): GroupGrants {
    GroupGrants(FirstOccurrences(groupNames), map n | n in groupNames :: ActiveGrantsOf(grants, n))
  }

  /**
   * The grouping loop of `main`: every listed group gets an empty list, then
   * each active grant is appended to its group's list when that group is listed.
   */
  method GroupActiveGrants(groupNames: seq<string>, grants: seq<Grant>) returns (gg: GroupGrants)
    ensures gg.order == FirstOccurrences(groupNames)
    ensures gg.members.Keys == set n | n in groupNames
    ensures forall n :: n in gg.members ==> gg.members[n] == ActiveGrantsOf(grants, n)
    ensures gg == Grouping(groupNames, grants)
  {
    var order: seq<string> := [];
    var members: map<string, seq<Grant>> := map[];
    for i := 0 to |groupNames|
      invariant order == FirstOccurrences(groupNames[..i])
      invariant forall n :: n in members <==> n in order
      invariant forall n :: n in members ==> members[n] == []
    {
      FirstOccurrencesStep(groupNames, i);
      var name := groupNames[i];
      if name !in members {
        order := order + [name];
      }
      members := members[name := []];
    }
    assert groupNames[..|groupNames|] == groupNames;
    FirstOccurrencesSpec(groupNames);
    assert members.Keys == set n | n in groupNames;
    for i := 0 to |grants|
      invariant members.Keys == set n | n in groupNames
      invariant forall n :: n in members ==> members[n] == ActiveGrantsOf(grants[..i], n)
    {
      ActiveGrantsOfStep(grants, i);
      var grant := grants[i];
      if IsGrantActive(grant) && grant.group in members {
        members := members[grant.group := members[grant.group] + [grant]];
      }
    }
    assert grants[..|grants|] == grants;
    gg := GroupGrants(order, members);
    GroupingIsDictionary(groupNames, grants, gg);
  }

  lemma GroupingIsDictionary(groupNames: seq<string>, grants: seq<Grant>, gg: GroupGrants)
    requires gg.order == FirstOccurrences(groupNames)
    requires gg.members.Keys == set n | n in groupNames
    requires forall n :: n in gg.members ==> gg.members[n] == ActiveGrantsOf(grants, n)
    ensures gg == Grouping(groupNames, grants)
  {
  }

  lemma FirstOccurrencesStep(names: seq<string>, i: nat)
    requires i < |names|
    ensures FirstOccurrences(names[..i + 1]) ==
      if names[i] in FirstOccurrences(names[..i]) then FirstOccurrences(names[..i])
      else FirstOccurrences(names[..i]) + [names[i]]
  {
    assert names[..i + 1][..i] == names[..i];
  }

  lemma ActiveGrantsOfStep(grants: seq<Grant>, i: nat)
    requires i < |grants|
    ensures forall n :: ActiveGrantsOf(grants[..i + 1], n) ==
                        ActiveGrantsOf(grants[..i], n) + if IsGrantActive(grants[i]) && grants[i].group == n then [grants[i]] else []
  {
    assert grants[..i + 1][..i] == grants[..i];
  }

  /** An expired grant of a group adds nothing to that group's capacity; the active one counts. */
  lemma ExpiredGrantIgnored()
    ensures var active := Grant("a", "active", "teamA", Some([Allocation(STORAGE, map[CAPACITY := 50])]));
      var expired := Grant("b", "expired", "teamA", Some([Allocation(STORAGE, map[CAPACITY := 999])]));
      StorageTotal(ActiveGrantsOf([active, expired], "teamA")) == Ok(50)
  {
    var active := Grant("a", "active", "teamA", Some([Allocation(STORAGE, map[CAPACITY := 50])]));
    var expired := Grant("b", "expired", "teamA", Some([Allocation(STORAGE, map[CAPACITY := 999])]));
    assert OccursAt(active.status, "active", 0);
    StatusWithoutCIsInactive(expired);
    assert [active, expired][..1] == [active];
    assert [active][..0] == [];
    assert ActiveGrantsOf([active], "teamA") == [active];
    assert ActiveGrantsOf([active, expired], "teamA") == [active];
    var allocs := [Allocation(STORAGE, map[CAPACITY := 50])];
    assert allocs[..0] == [];
    assert AllocationsTotal(allocs) == Ok(50);
    assert [active][..0] == [];
    assert StorageTotal([active]) == Add(Ok(0), GrantTotal(active));
  }
}
