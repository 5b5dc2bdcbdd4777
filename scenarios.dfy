/** Scenarios proved statically about the store's handlers: each call sequence on a
    fresh store is stated with the outcome it must have. */
module Scenarios {
  import opened Wrappers
  import opened Tables
  import opened Inputs
  import opened HospitalStore
  import opened Reports

  const Nina := CreateUserInput("nina", "nina@x.org", Regular, "ICU")

  function Pump(assignedUserId: Option<Id>): CreateAssetInput
  {
    CreateAssetInput("Infusion Pump", MedicalEquipment, "ICU", "Bay 3", "IP-42", 1000, Active, assignedUserId)
  }

  /** A user files a repair request for their pump, which starts pending; the
      admin then completes it. All three supplied columns are written, the
      request date stays the creation time, and nothing is pending any more. */
  method RepairRequestLifecycle() returns (created: Result<RepairRequest>, updated: Result<RepairRequest>, report: AssetReport)
    ensures created.Ok? && created.value.status == Pending && created.value.requestedDate == 20
    ensures created.value.completedDate == None && created.value.adminNotes == None
    ensures updated.Ok? && updated.value.id == created.value.id
    ensures updated.value.status == Completed && updated.value.completedDate == Some(30)
    ensures updated.value.adminNotes == Some("replaced seal") && updated.value.requestedDate == 20
    ensures report.totalAssets == 1 && report.repairRequestsPending == 0
  {
    var store := new Store();
    var nina := store.InsertUser(Nina, 5);
    assert store.users[0].id == 1;
    var pump := store.CreateAsset(Pump(Some(1)), 10);
    assert store.assets[0].id == 1;
    created := store.CreateRepairRequest(CreateRepairRequestInput(1, 1, "leaking", "high"), 20);
    assert store.requests[0].id == 1;
    updated := store.UpdateRepairRequest(
      UpdateRepairRequestInput(1, Present(Completed), Present(Some(30)), Present(Some("replaced seal"))));
    report := GetAssetReports(store.assets, store.schedules, store.requests, 30);
    assert !IsPending(store.requests[0]);
    assert (set i | 0 <= i < |store.requests| && IsPending(store.requests[i])) == {};
  }

  /** Id 0 is falsy, so createAsset does not look the user up and stores the
      dangling assignment, while a missing nonzero id is rejected. */
  method ZeroUserIdSkipsLookup() returns (zero: Result<Asset>, seven: Result<Asset>)
    ensures zero.Ok? && zero.value.assignedUserId == Some(0)
    ensures seven == Err(UserNotFound(7))
  {
    var store := new Store();
    zero := store.CreateAsset(Pump(Some(0)), 10);
    var other := CreateAssetInput("Monitor", MedicalEquipment, "ICU", "Bay 4", "MN-1", 1000, Active, Some(7));
    seven := store.CreateAsset(other, 10);
  }

  /** A second asset with a serial number already in use is rejected and the
      table keeps its one row. */
  method DuplicateSerialRejected() returns (first: Result<Asset>, second: Result<Asset>, count: nat)
    ensures first.Ok? && second == Err(Duplicate(SerialNumber)) && count == 1
  {
    var store := new Store();
    first := store.CreateAsset(Pump(None), 10);
    assert store.assets[0].serialNumber == "IP-42";
    second := store.CreateAsset(Pump(None), 11);
    count := |store.assets|;
  }
}
