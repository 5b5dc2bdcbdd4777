/** The sparse patches of update_asset and update_repair_request: which
    columns a patch writes, which it keeps, and how two patches compose. */
module Patches {
  import opened Wrappers
  import opened Tables
  import opened Inputs

  /** The asset row after `p` is applied at time `now`: every supplied column is
      overwritten, every omitted one kept, updated_at always refreshed, and the
      key and created_at never touched. */
  function PatchAsset(row: Asset, p: UpdateAssetInput, now: Time): (r: Asset)
    ensures r.id == row.id && r.createdAt == row.createdAt && r.updatedAt == now
    ensures Written(p.name, row.name, r.name)
    ensures Written(p.assetType, row.assetType, r.assetType)
    ensures Written(p.department, row.department, r.department)
    ensures Written(p.location, row.location, r.location)
    ensures Written(p.serialNumber, row.serialNumber, r.serialNumber)
    ensures Written(p.purchaseDate, row.purchaseDate, r.purchaseDate)
    ensures Written(p.status, row.status, r.status)
    ensures Written(p.assignedUserId, row.assignedUserId, r.assignedUserId)
  {
    row.(
      name := Apply(p.name, row.name),
      assetType := Apply(p.assetType, row.assetType),
      department := Apply(p.department, row.department),
      location := Apply(p.location, row.location),
      serialNumber := Apply(p.serialNumber, row.serialNumber),
      purchaseDate := Apply(p.purchaseDate, row.purchaseDate),
      status := Apply(p.status, row.status),
      assignedUserId := Apply(p.assignedUserId, row.assignedUserId),
      updatedAt := now)
  }

  /** The repair-request row after `p`: status, completed_date and admin_notes are
      written only when supplied; no other column is touched, and nothing is
      derived from the new status. */
  function PatchRequest(row: RepairRequest, p: UpdateRepairRequestInput): (r: RepairRequest)
    ensures r.id == row.id && r.assetId == row.assetId
    ensures r.requestedByUserId == row.requestedByUserId
    ensures r.description == row.description && r.priority == row.priority
    ensures r.requestedDate == row.requestedDate && r.createdAt == row.createdAt
    ensures Written(p.status, row.status, r.status)
    ensures Written(p.completedDate, row.completedDate, r.completedDate)
    ensures Written(p.adminNotes, row.adminNotes, r.adminNotes)
  {
    row.(
      status := Apply(p.status, row.status),
      completedDate := Apply(p.completedDate, row.completedDate),
      adminNotes := Apply(p.adminNotes, row.adminNotes))
  }

  /** The single asset patch equivalent to `p` followed by `q`. */
  function ThenAssetPatch(p: UpdateAssetInput, q: UpdateAssetInput): UpdateAssetInput
  {
    UpdateAssetInput(q.id, Then(p.name, q.name), Then(p.assetType, q.assetType),
      Then(p.department, q.department), Then(p.location, q.location),
      Then(p.serialNumber, q.serialNumber), Then(p.purchaseDate, q.purchaseDate),
      Then(p.status, q.status), Then(p.assignedUserId, q.assignedUserId))
  }

  /** The single repair-request patch equivalent to `p` followed by `q`. */
  function ThenRequestPatch(p: UpdateRepairRequestInput, q: UpdateRepairRequestInput): UpdateRepairRequestInput
  {
    UpdateRepairRequestInput(q.id, Then(p.status, q.status),
      Then(p.completedDate, q.completedDate), Then(p.adminNotes, q.adminNotes))
  }

  // ----- Properties of asset patches -----

  /** A patch with no fields changes nothing but updated_at. */
  lemma EmptyAssetPatchTouchesOnlyUpdatedAt(row: Asset, now: Time)
    ensures PatchAsset(row, EmptyAssetPatch(row.id), now) == row.(updatedAt := now)
  {
  }

  /** Supplying `assigned_user_id: null` unassigns, whatever the row held. */
  lemma NullUnassigns(row: Asset, p: UpdateAssetInput, now: Time)
    requires p.assignedUserId == Present(None)
    ensures PatchAsset(row, p, now).assignedUserId == None
  {
  }

  /** Omitting assigned_user_id keeps the assignment, unlike supplying null. */
  lemma AbsentKeepsAssignment(row: Asset, p: UpdateAssetInput, now: Time)
    requires p.assignedUserId == Absent
    ensures PatchAsset(row, p, now).assignedUserId == row.assignedUserId
  {
  }

  /** Re-applying a patch at the same instant changes nothing more. */
  lemma AssetPatchIdempotent(row: Asset, p: UpdateAssetInput, now: Time)
    ensures PatchAsset(PatchAsset(row, p, now), p, now) == PatchAsset(row, p, now)
  {
  }

  /** Two updates in a row have the effect of one merged patch at the later instant:
      the later patch wins on every field it supplies (last write wins). */
  lemma AssetPatchesCompose(row: Asset, p: UpdateAssetInput, q: UpdateAssetInput, t1: Time, t2: Time)
    ensures PatchAsset(PatchAsset(row, p, t1), q, t2) == PatchAsset(row, ThenAssetPatch(p, q), t2)
  {
  }

  // ----- Properties of repair-request patches -----

  /** A status-only patch keeps admin_notes and completed_date. */
  lemma StatusOnlyPatchKeepsNotes(row: RepairRequest, id: Id, s: RequestStatus)
    ensures var r := PatchRequest(row, UpdateRepairRequestInput(id, Present(s), Absent, Absent));
      r.status == s && r.adminNotes == row.adminNotes && r.completedDate == row.completedDate
  {
  }

  /** Any status may replace any other: there is no transition guard, so even a
      completed or rejected request can be set back to pending. */
  lemma NoTransitionGuard(row: RepairRequest, p: UpdateRepairRequestInput)
    requires p.status.Present?
    ensures PatchRequest(row, p).status == p.status.value
  {
  }

  /** Marking a request completed does not set its completion date. */
  lemma CompletionDateNotDerived(row: RepairRequest, p: UpdateRepairRequestInput)
    requires p.status == Present(Completed) && p.completedDate == Absent
    ensures PatchRequest(row, p).completedDate == row.completedDate
  {
  }

  lemma RequestPatchIdempotent(row: RepairRequest, p: UpdateRepairRequestInput)
    ensures PatchRequest(PatchRequest(row, p), p) == PatchRequest(row, p)
  {
  }

  /** Two request updates in a row have the effect of one merged patch. */
  lemma RequestPatchesCompose(row: RepairRequest, p: UpdateRepairRequestInput, q: UpdateRepairRequestInput)
    ensures PatchRequest(PatchRequest(row, p), q) == PatchRequest(row, ThenRequestPatch(p, q))
  {
  }
}
