/** The validated input objects of the handlers and the checks their parsers
    make before a handler runs. Fields a create input does not have (a repair
    request's status, a schedule's status) cannot be supplied at all. */
module Inputs {
  import opened Wrappers
  import opened Tables

  datatype CreateUserInput = CreateUserInput(
    username: string, email: string, role: UserRole, department: string)

  /** Every asset column the caller chooses; `assignedUserId` must be given but may be null. */
  datatype CreateAssetInput = CreateAssetInput(
    name: string, assetType: AssetType, department: string, location: string,
    serialNumber: string, purchaseDate: Time, status: AssetStatus,
    assignedUserId: Option<Id>)

  /** Every column optional; `assignedUserId` optional and nullable, so
      `Absent` (leave it) and `Present(None)` (unassign) differ. */
  datatype UpdateAssetInput = UpdateAssetInput(
    id: Id, name: Patch<string>, assetType: Patch<AssetType>,
    department: Patch<string>, location: Patch<string>,
    serialNumber: Patch<string>, purchaseDate: Patch<Time>,
    status: Patch<AssetStatus>, assignedUserId: Patch<Option<Id>>)

  datatype CreateMaintenanceScheduleInput = CreateMaintenanceScheduleInput(
    assetId: Id, scheduledDate: Time, maintenanceType: string, notes: Option<string>)

  datatype CreateRepairHistoryInput = CreateRepairHistoryInput(
    assetId: Id, repairDate: Time, description: string, cost: Cents, technician: string)

  /** No status, completion date or admin notes: the handler decides those. */
  datatype CreateRepairRequestInput = CreateRepairRequestInput(
    assetId: Id, requestedByUserId: Id, description: string, priority: string)

  /** status optional; completedDate and adminNotes each optional and nullable. */
  datatype UpdateRepairRequestInput = UpdateRepairRequestInput(
    id: Id, status: Patch<RequestStatus>, completedDate: Patch<Option<Time>>,
    adminNotes: Patch<Option<string>>)

  /** A username of at least three characters and a non-empty department. */
  predicate ValidCreateUserInput(input: CreateUserInput)
  {
    |input.username| >= 3 && |input.department| >= 1
  }

  predicate ValidCreateAssetInput(input: CreateAssetInput)
  {
    && |input.name| >= 1
    && |input.department| >= 1
    && |input.location| >= 1
    && |input.serialNumber| >= 1
  }

  /** A text field that is supplied must be non-empty; any field may be left out. */
  predicate ValidUpdateAssetInput(input: UpdateAssetInput)
  {
    && (input.name.Present? ==> |input.name.value| >= 1)
    && (input.department.Present? ==> |input.department.value| >= 1)
    && (input.location.Present? ==> |input.location.value| >= 1)
    && (input.serialNumber.Present? ==> |input.serialNumber.value| >= 1)
  }

  predicate ValidCreateMaintenanceScheduleInput(input: CreateMaintenanceScheduleInput)
  {
    |input.maintenanceType| >= 1
  }

  /** The cost is nonnegative; description and technician are non-empty. */
  predicate ValidCreateRepairHistoryInput(input: CreateRepairHistoryInput)
  {
    |input.description| >= 1 && input.cost >= 0 && |input.technician| >= 1
  }

  /** priority is any non-empty text; the suggested low/medium/high/urgent are not enforced. */
  predicate ValidCreateRepairRequestInput(input: CreateRepairRequestInput)
  {
    |input.description| >= 1 && |input.priority| >= 1
  }

  /** The patch with no field supplied; the parser accepts it. */
  function EmptyAssetPatch(id: Id): (p: UpdateAssetInput)
    ensures ValidUpdateAssetInput(p) && p.id == id
  {
    UpdateAssetInput(id, Absent, Absent, Absent, Absent, Absent, Absent, Absent, Absent)
  }
}
