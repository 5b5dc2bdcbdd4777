/** get_asset_reports: the totals, the three group-by counts and the two
    filtered counts, computed fresh from the current tables. */
module Reports {
  import opened Wrappers
  import opened Tables
  import opened Query

  datatype AssetReport = AssetReport(
    totalAssets: nat,
    assetsByStatus: map<AssetStatus, nat>,
    assetsByDepartment: map<string, nat>,
    assetsByType: map<AssetType, nat>,
    maintenanceDue: nat,
    repairRequestsPending: nat)

  // ----- Columns of the assets table -----

  function StatusColumn(assets: seq<Asset>): (c: seq<AssetStatus>)
    ensures |c| == |assets| && forall i :: 0 <= i < |c| ==> c[i] == assets[i].status
  {
    seq(|assets|, i requires 0 <= i < |assets| => assets[i].status)
  }

  function DepartmentColumn(assets: seq<Asset>): (c: seq<string>)
    ensures |c| == |assets| && forall i :: 0 <= i < |c| ==> c[i] == assets[i].department
  {
    seq(|assets|, i requires 0 <= i < |assets| => assets[i].department)
  }

  function TypeColumn(assets: seq<Asset>): (c: seq<AssetType>)
    ensures |c| == |assets| && forall i :: 0 <= i < |c| ==> c[i] == assets[i].assetType
  {
    seq(|assets|, i requires 0 <= i < |assets| => assets[i].assetType)
  }

  // ----- Group-by counting -----

  /** What a group-by count means: each value that occurs in the column, mapped
      to the number of rows holding it; values that do not occur have no key. */
  ghost function CountMap<K>(col: seq<K>): map<K, nat>
  {
    map k | k in multiset(col) :: multiset(col)[k]
  }

  ghost predicate DistinctKeys<K>(g: seq<(K, nat)>)
  {
    forall i, j :: 0 <= i < j < |g| ==> g[i].0 != g[j].0
  }

  /** `g` is a result of `select key, count(*) ... group by key` over `col`. */
  ghost predicate GroupsOf<K>(g: seq<(K, nat)>, col: seq<K>)
  {
    && DistinctKeys(g)
    && (forall i :: 0 <= i < |g| ==> g[i].1 == multiset(col)[g[i].0] && g[i].1 > 0)
    && (forall x :: x in multiset(col) ==> exists i :: 0 <= i < |g| && g[i].0 == x)
  }

  /** The position of the group with key `k`, if there is one. */
  function FindGroup<K(==)>(g: seq<(K, nat)>, k: K): (r: Option<nat>)
    ensures r.Some? ==> r.value < |g| && g[r.value].0 == k
    ensures r.None? ==> forall i :: 0 <= i < |g| ==> g[i].0 != k
  {
    if |g| == 0 then None
    else if g[|g| - 1].0 == k then Some(|g| - 1)
    else FindGroup(g[..|g| - 1], k)
  }

  /** The grouped rows of a column: one (value, count) pair per distinct value,
      in order of first occurrence. */
  function GroupBy<K(==)>(col: seq<K>): (g: seq<(K, nat)>)
    ensures GroupsOf(g, col)
  {
    if col == [] then []
    else
      var front, k := col[..|col| - 1], col[|col| - 1];
      assert col == front + [k];
      var g0 := GroupBy(front);
      match FindGroup(g0, k)
      case Some(i) =>
        GroupsBumpExisting(g0, front, k, i);
        g0[i := (k, g0[i].1 + 1)]
      case None =>
        GroupsBumpNew(g0, front, k);
        g0 + [(k, 1)]
  }

  /** One more row whose value already has a group adds one to that group. */
  lemma GroupsBumpExisting<K>(g0: seq<(K, nat)>, front: seq<K>, k: K, i: nat)
    requires GroupsOf(g0, front) && i < |g0| && g0[i].0 == k
    ensures GroupsOf(g0[i := (k, g0[i].1 + 1)], front + [k])
  {
    var col := front + [k];
    var g := g0[i := (k, g0[i].1 + 1)];
    assert multiset(col) == multiset(front) + multiset{k};
    forall x | x in multiset(col) ensures exists j :: 0 <= j < |g| && g[j].0 == x {
      if x != k {
        var j :| 0 <= j < |g0| && g0[j].0 == x;
        assert g[j].0 == x;
      } else {
        assert g[i].0 == x;
      }
    }
  }

  /** One more row with a value not seen before opens a group of one. */
  lemma GroupsBumpNew<K>(g0: seq<(K, nat)>, front: seq<K>, k: K)
    requires GroupsOf(g0, front) && forall j :: 0 <= j < |g0| ==> g0[j].0 != k
    ensures GroupsOf(g0 + [(k, 1)], front + [k])
  {
    var col := front + [k];
    var g := g0 + [(k, 1)];
    assert multiset(col) == multiset(front) + multiset{k};
    assert multiset(front)[k] == 0;
    forall x | x in multiset(col) ensures exists j :: 0 <= j < |g| && g[j].0 == x {
      if x != k {
        var j :| 0 <= j < |g0| && g0[j].0 == x;
        assert g[j].0 == x;
      } else {
        assert g[|g0|].0 == x;
      }
    }
  }

  /** `m` holds exactly the pairs of `groups` as entries. */
  ghost predicate FilledFrom<K>(m: map<K, nat>, groups: seq<(K, nat)>)
  {
    && (forall i :: 0 <= i < |groups| ==> groups[i].0 in m && m[groups[i].0] == groups[i].1)
    && (forall k :: k in m ==> exists i :: 0 <= i < |groups| && groups[i].0 == k)
  }

  /** The `forEach` loop that copies grouped rows into a dictionary. */
  method FillCounts<K(==)>(groups: seq<(K, nat)>) returns (m: map<K, nat>)
    requires DistinctKeys(groups)
    ensures FilledFrom(m, groups)
  {
    m := map[];
    var i := 0;
    while i < |groups|
      invariant 0 <= i <= |groups|
      invariant forall j :: 0 <= j < i ==> groups[j].0 in m && m[groups[j].0] == groups[j].1
      invariant forall k :: k in m ==> exists j :: 0 <= j < i && groups[j].0 == k
    {
      m := m[groups[i].0 := groups[i].1];
      i := i + 1;
    }
  }

  /** Copying a group-by result into a dictionary yields the count map of the column. */
  lemma FilledGroupsAreCountMap<K>(m: map<K, nat>, g: seq<(K, nat)>, col: seq<K>)
    requires GroupsOf(g, col) && FilledFrom(m, g)
    ensures m == CountMap(col)
  {
  }

  // ----- Sums of counts -----

  ghost function Pick<K>(m: map<K, nat>): K
    requires |m| > 0
  {
    var k :| k in m; k
  }

  /** The sum of the values of a dictionary. */
  ghost function MapSum<K>(m: map<K, nat>): nat
    decreases |m|
  {
    if |m| == 0 then 0
    else
      var k := Pick(m);
      m[k] + MapSum(m - {k})
  }

  /** The sum does not depend on which key is taken out first. */
  lemma {:induction false} MapSumRemove<K>(m: map<K, nat>, k: K)
    requires k in m
    ensures MapSum(m) == m[k] + MapSum(m - {k})
    decreases |m|
  {
    var j := Pick(m);
    if j != k {
      var mj, mk := m - {j}, m - {k};
      MapSumRemove(mj, k);
      MapSumRemove(mk, j);
      assert mj - {k} == mk - {j};
    }
  }

  /** A group-by count over a column with one more row bumps exactly that row's value. */
  lemma CountMapSnoc<K>(col: seq<K>, x: K)
    ensures CountMap(col + [x]) == CountMap(col)[x := multiset(col)[x] + 1]
  {
  }

  /** Overwriting one entry changes the sum by the difference. */
  lemma MapSumUpdate<K>(m: map<K, nat>, x: K, v: nat)
    ensures MapSum(m[x := v]) == v + MapSum(m - {x})
    ensures x in m ==> MapSum(m) == m[x] + MapSum(m - {x})
    ensures x !in m ==> MapSum(m - {x}) == MapSum(m)
  {
    var u := m[x := v];
    MapSumRemove(u, x);
    assert u - {x} == m - {x};
    if x in m {
      MapSumRemove(m, x);
    } else {
      assert m - {x} == m;
    }
  }

  /** Adding one to the count of `x` (from zero when absent) adds one to the sum. */
  lemma MapSumBump<K>(m: map<K, nat>, x: K, c: nat)
    requires x in m ==> m[x] == c
    requires x !in m ==> c == 0
    ensures MapSum(m[x := c + 1]) == MapSum(m) + 1
  {
    MapSumUpdate(m, x, c + 1);
  }

  /** Each row is counted once: the counts of a group-by add up to the row count. */
  lemma {:induction false} CountMapSum<K>(col: seq<K>)
    ensures MapSum(CountMap(col)) == |col|
  {
    if col == [] {
      assert CountMap(col) == map[];
    } else {
      var front, x := col[..|col| - 1], col[|col| - 1];
      assert col == front + [x];
      CountMapSum(front);
      var before := CountMap(front);
      var c := multiset(front)[x];
      CountMapSnoc(front, x);
      assert x !in before ==> c == 0;
      MapSumBump(before, x, c);
    }
  }

  // ----- The report -----

  /** A maintenance row is due when it is still scheduled and its date is not after `now`. */
  predicate IsDue(s: MaintenanceSchedule, now: Time)
  {
    s.status == Scheduled && s.scheduledDate <= now
  }

  predicate IsPending(q: RepairRequest)
  {
    q.status == Pending
  }

  /** Builds the report from the three tables; it reads them and changes nothing. */
  method GetAssetReports(
    assets: seq<Asset>, schedules: seq<MaintenanceSchedule>, requests: seq<RepairRequest>, now: Time)
    returns (report: AssetReport)
    ensures report.totalAssets == |assets|
    ensures report.assetsByStatus == CountMap(StatusColumn(assets))
    ensures report.assetsByDepartment == CountMap(DepartmentColumn(assets))
    ensures report.assetsByType == CountMap(TypeColumn(assets))
    ensures report.maintenanceDue == |set i | 0 <= i < |schedules| && IsDue(schedules[i], now)|
    ensures report.repairRequestsPending == |set i | 0 <= i < |requests| && IsPending(requests[i])|
  {
    var totalAssets := |assets|;

    var statusGroups := GroupBy(StatusColumn(assets));
    var byStatus := FillCounts(statusGroups);
    FilledGroupsAreCountMap(byStatus, statusGroups, StatusColumn(assets));

    var departmentGroups := GroupBy(DepartmentColumn(assets));
    var byDepartment := FillCounts(departmentGroups);
    FilledGroupsAreCountMap(byDepartment, departmentGroups, DepartmentColumn(assets));

    var typeGroups := GroupBy(TypeColumn(assets));
    var byType := FillCounts(typeGroups);
    FilledGroupsAreCountMap(byType, typeGroups, TypeColumn(assets));

    var due := (s: MaintenanceSchedule) => IsDue(s, now);
    FilterCount(schedules, due);
    assert Matching(schedules, due) == set i | 0 <= i < |schedules| && IsDue(schedules[i], now);
    var maintenanceDue := |Filter(schedules, due)|;

    FilterCount(requests, IsPending);
    assert Matching(requests, IsPending) == set i | 0 <= i < |requests| && IsPending(requests[i]);
    var pending := |Filter(requests, IsPending)|;

    report := AssetReport(totalAssets, byStatus, byDepartment, byType, maintenanceDue, pending);
  }

  // ----- Properties of the report -----

  /** Each of the three group-by maps counts every asset exactly once. */
  lemma GroupCountsSumToTotal(assets: seq<Asset>)
    ensures MapSum(CountMap(StatusColumn(assets))) == |assets|
    ensures MapSum(CountMap(DepartmentColumn(assets))) == |assets|
    ensures MapSum(CountMap(TypeColumn(assets))) == |assets|
  {
    CountMapSum(StatusColumn(assets));
    CountMapSum(DepartmentColumn(assets));
    CountMapSum(TypeColumn(assets));
  }

  /** A department is a key of the department counts exactly when some asset is in it. */
  lemma DepartmentKeysOccur(assets: seq<Asset>, d: string)
    ensures d in CountMap(DepartmentColumn(assets)) <==> exists i :: 0 <= i < |assets| && assets[i].department == d
  {
  }

  /** An empty store gives empty maps. */
  lemma EmptyTablesGiveEmptyCounts()
    ensures CountMap(StatusColumn([])) == map[]
    ensures CountMap(DepartmentColumn([])) == map[]
    ensures CountMap(TypeColumn([])) == map[]
  {
  }
}
