/** The read handlers: whole-table selects and exact-equality filters.
    None of them changes the store; each is a function of the table it reads. */
module Views {
  import opened Wrappers
  import opened Tables
  import opened Query

  /** Every asset row as stored, with no transformation. The select has no `order by`,
      so the server's order is unspecified; the model uses insertion order. */
  function GetAllAssets(assets: seq<Asset>): (r: seq<Asset>)
    ensures |r| == |assets|
    ensures forall i :: 0 <= i < |r| ==> r[i] == assets[i]
  {
    assets
  }

  /** The assets whose department equals `department` exactly, whatever their status. */
  function GetAssetsByDepartment(assets: seq<Asset>, department: string): (r: seq<Asset>)
    ensures forall a :: a in r <==> a in assets && a.department == department
    ensures forall i :: 0 <= i < |r| ==> r[i].department == department
    ensures forall a :: multiset(r)[a] == if a.department == department then multiset(assets)[a] else 0
    ensures |r| == |set i | 0 <= i < |assets| && assets[i].department == department|
  {
    var p := (a: Asset) => a.department == department;
    FilterCount(assets, p);
    FilterMultiplicity(assets, p);
    assert Matching(assets, p) == set i | 0 <= i < |assets| && assets[i].department == department;
    Filter(assets, p)
  }

  /** The assets assigned to user `userId`; no check that the user exists. */
  function GetUserAssets(assets: seq<Asset>, userId: Id): (r: seq<Asset>)
    ensures forall a :: a in r <==> a in assets && a.assignedUserId == Some(userId)
    ensures forall i :: 0 <= i < |r| ==> r[i].assignedUserId == Some(userId)
    ensures forall a :: multiset(r)[a] == if a.assignedUserId == Some(userId) then multiset(assets)[a] else 0
    ensures |r| == |set i | 0 <= i < |assets| && assets[i].assignedUserId == Some(userId)|
  {
    var p := (a: Asset) => a.assignedUserId == Some(userId);
    FilterCount(assets, p);
    FilterMultiplicity(assets, p);
    assert Matching(assets, p) == set i | 0 <= i < |assets| && assets[i].assignedUserId == Some(userId);
    Filter(assets, p)
  }

  /** The repair requests filed by `userId`, whatever their status. */
  function GetRepairRequestsByUser(requests: seq<RepairRequest>, userId: Id): (r: seq<RepairRequest>)
    ensures forall q :: q in r <==> q in requests && q.requestedByUserId == userId
    ensures forall i :: 0 <= i < |r| ==> r[i].requestedByUserId == userId
    ensures forall q :: multiset(r)[q] == if q.requestedByUserId == userId then multiset(requests)[q] else 0
    ensures |r| == |set i | 0 <= i < |requests| && requests[i].requestedByUserId == userId|
  {
    var p := (q: RepairRequest) => q.requestedByUserId == userId;
    FilterCount(requests, p);
    FilterMultiplicity(requests, p);
    assert Matching(requests, p) == set i | 0 <= i < |requests| && requests[i].requestedByUserId == userId;
    Filter(requests, p)
  }

  /** The repair-history entries of asset `assetId`; no check that the asset exists.
      The cost comes back in the same cents it was stored in. */
  function GetRepairHistoryByAsset(history: seq<RepairHistory>, assetId: Id): (r: seq<RepairHistory>)
    ensures forall h :: h in r <==> h in history && h.assetId == assetId
    ensures forall i :: 0 <= i < |r| ==> r[i].assetId == assetId
    ensures forall h :: multiset(r)[h] == if h.assetId == assetId then multiset(history)[h] else 0
    ensures |r| == |set i | 0 <= i < |history| && history[i].assetId == assetId|
  {
    var p := (h: RepairHistory) => h.assetId == assetId;
    FilterCount(history, p);
    FilterMultiplicity(history, p);
    assert Matching(history, p) == set i | 0 <= i < |history| && history[i].assetId == assetId;
    Filter(history, p)
  }

  /** Every schedule row with its stored status; nothing is derived from the date. */
  function GetMaintenanceSchedules(schedules: seq<MaintenanceSchedule>): (r: seq<MaintenanceSchedule>)
    ensures |r| == |schedules|
    ensures forall i :: 0 <= i < |r| ==> r[i] == schedules[i]
  {
    schedules
  }

  /** Newest first: no row was created after an earlier one in the sequence. */
  ghost predicate NewestFirst(s: seq<RepairRequest>)
  {
    forall i, j :: 0 <= i < j < |s| ==> s[i].createdAt >= s[j].createdAt
  }

  /** Every repair request, ordered by created_at descending. */
  function GetAllRepairRequests(requests: seq<RepairRequest>): (r: seq<RepairRequest>)
    ensures NewestFirst(r)
    ensures multiset(r) == multiset(requests)
  {
    if requests == [] then []
    else
      assert requests == [requests[0]] + requests[1..];
      InsertNewestFirst(requests[0], GetAllRepairRequests(requests[1..]))
  }

  function InsertNewestFirst(q: RepairRequest, sorted: seq<RepairRequest>): (r: seq<RepairRequest>)
    requires NewestFirst(sorted)
    ensures NewestFirst(r)
    ensures multiset(r) == multiset(sorted) + multiset{q}
  {
    if sorted == [] then [q]
    else if q.createdAt >= sorted[0].createdAt then [q] + sorted
    else
      assert sorted == [sorted[0]] + sorted[1..];
      var rest := InsertNewestFirst(q, sorted[1..]);
      assert forall k :: 0 <= k < |rest| ==> sorted[0].createdAt >= rest[k].createdAt by {
        forall k | 0 <= k < |rest| ensures sorted[0].createdAt >= rest[k].createdAt {
          assert rest[k] in multiset(rest);
          if rest[k] != q {
            assert rest[k] in sorted[1..];
          }
        }
      }
      [sorted[0]] + rest
  }

  // ----- Properties relating the views -----

  /** A department nobody uses yields no rows. */
  lemma UnknownDepartmentIsEmpty(assets: seq<Asset>, department: string)
    requires forall i :: 0 <= i < |assets| ==> assets[i].department != department
    ensures GetAssetsByDepartment(assets, department) == []
  {
    FilterKeepsNone(assets, (a: Asset) => a.department == department);
  }

  /** The user views partition the assigned assets: an asset is in a user's view exactly
      when it is assigned to that user, and so it is in no other user's view. */
  lemma UserViewsPartitionAssigned(assets: seq<Asset>, a: Asset, userId: Id)
    requires a in assets
    ensures a in GetUserAssets(assets, userId) <==> a.assignedUserId == Some(userId)
    ensures forall other :: other != userId ==> a in GetUserAssets(assets, other) ==> a !in GetUserAssets(assets, userId)
  {
  }

  /** The view of a user who filed no request is empty. */
  lemma NoRequestsIsEmpty(requests: seq<RepairRequest>, userId: Id)
    requires forall i :: 0 <= i < |requests| ==> requests[i].requestedByUserId != userId
    ensures GetRepairRequestsByUser(requests, userId) == []
  {
    FilterKeepsNone(requests, (q: RepairRequest) => q.requestedByUserId == userId);
  }

  /** The history of an asset with no entries (for instance one that does not exist) is empty. */
  lemma NoHistoryIsEmpty(history: seq<RepairHistory>, assetId: Id)
    requires forall i :: 0 <= i < |history| ==> history[i].assetId != assetId
    ensures GetRepairHistoryByAsset(history, assetId) == []
  {
    FilterKeepsNone(history, (h: RepairHistory) => h.assetId == assetId);
  }

  /** The sorted view drops no request and adds none. */
  lemma SortedViewKeepsEveryRequest(requests: seq<RepairRequest>, q: RepairRequest)
    ensures q in GetAllRepairRequests(requests) <==> q in requests
    ensures |GetAllRepairRequests(requests)| == |requests|
  {
    var r := GetAllRepairRequests(requests);
    assert q in r <==> q in multiset(r);
    assert q in requests <==> q in multiset(requests);
    assert |r| == |multiset(r)| && |requests| == |multiset(requests)|;
  }
}
