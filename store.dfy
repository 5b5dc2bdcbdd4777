/** The store the write handlers act on: five tables, one serial counter per
    table, and the handlers that check references, then insert or patch one
    row, or delete users. Each handler is one atomic step. */
module HospitalStore {
  import opened Wrappers
  import opened Tables
  import opened Inputs
  import opened Query
  import opened Patches

  /** The unique index a write ran into. */
  datatype UniqueKey = SerialNumber | Username | Email

  /** The errors the handlers raise. */
  datatype Error =
    | AssetNotFound(id: Id)      // "Asset with id X not found"
    | UserNotFound(id: Id)       // "User with id X not found" / "... does not exist"
    | RequestNotFound(id: Id)    // "Repair request with id X not found"
    | Duplicate(key: UniqueKey)  // unique-constraint violation from the store

  datatype Result<T> = Ok(value: T) | Err(error: Error)

  /** The whole state of the store, as one value. */
  datatype Db = Db(
    users: seq<User>, assets: seq<Asset>, schedules: seq<MaintenanceSchedule>,
    history: seq<RepairHistory>, requests: seq<RepairRequest>,
    nextUserId: Id, nextAssetId: Id, nextScheduleId: Id, nextHistoryId: Id, nextRequestId: Id)

  // ----- Constraints of the store -----

  predicate UsernameInUse(users: seq<User>, username: string)
  {
    exists i :: 0 <= i < |users| && users[i].username == username
  }

  predicate EmailInUse(users: seq<User>, email: string)
  {
    exists i :: 0 <= i < |users| && users[i].email == email
  }

  predicate SerialInUse(assets: seq<Asset>, serial: string)
  {
    exists i :: 0 <= i < |assets| && assets[i].serialNumber == serial
  }

  /** Some asset other than asset `id` already carries `serial`. */
  predicate SerialUsedByOther(assets: seq<Asset>, serial: string, id: Id)
  {
    exists i :: 0 <= i < |assets| && assets[i].serialNumber == serial && assets[i].id != id
  }

  /** Every schedule, history entry and repair request names an existing asset. */
  ghost predicate AssetRefsValid(
    assets: seq<Asset>, schedules: seq<MaintenanceSchedule>,
    history: seq<RepairHistory>, requests: seq<RepairRequest>)
  {
    && (forall i :: 0 <= i < |schedules| ==> HasAsset(assets, schedules[i].assetId))
    && (forall i :: 0 <= i < |history| ==> HasAsset(assets, history[i].assetId))
    && (forall i :: 0 <= i < |requests| ==> HasAsset(assets, requests[i].assetId))
  }

  ghost predicate CostsNonnegative(history: seq<RepairHistory>)
  {
    forall i :: 0 <= i < |history| ==> history[i].cost >= 0
  }

  /** The invariant every handler keeps. */
  ghost predicate ValidDb(d: Db)
  {
    && UserKeys(d.users, d.nextUserId) && UniqueUserNames(d.users)
    && AssetKeys(d.assets, d.nextAssetId) && UniqueSerials(d.assets)
    && ScheduleKeys(d.schedules, d.nextScheduleId)
    && HistoryKeys(d.history, d.nextHistoryId) && CostsNonnegative(d.history)
    && RequestKeys(d.requests, d.nextRequestId)
    && AssetRefsValid(d.assets, d.schedules, d.history, d.requests)
  }

  // ----- Rows as inserted -----

  /** JavaScript truthiness of a nullable id: null and 0 are both falsy. */
  predicate Truthy(v: Option<Id>)
  {
    v.Some? && v.value != 0
  }

  /** The caller-chosen columns of an asset row. */
  function AssetInputOf(a: Asset): CreateAssetInput
  {
    CreateAssetInput(a.name, a.assetType, a.department, a.location, a.serialNumber,
      a.purchaseDate, a.status, a.assignedUserId)
  }

  function UserInputOf(u: User): CreateUserInput
  {
    CreateUserInput(u.username, u.email, u.role, u.department)
  }

  function ScheduleInputOf(s: MaintenanceSchedule): CreateMaintenanceScheduleInput
  {
    CreateMaintenanceScheduleInput(s.assetId, s.scheduledDate, s.maintenanceType, s.notes)
  }

  function HistoryInputOf(h: RepairHistory): CreateRepairHistoryInput
  {
    CreateRepairHistoryInput(h.assetId, h.repairDate, h.description, h.cost, h.technician)
  }

  function RequestInputOf(q: RepairRequest): CreateRepairRequestInput
  {
    CreateRepairRequestInput(q.assetId, q.requestedByUserId, q.description, q.priority)
  }

  /** A user row: the input's columns, a generated key and created_at = now. */
  function NewUser(id: Id, input: CreateUserInput, now: Time): (u: User)
    ensures UserInputOf(u) == input && u.id == id && u.createdAt == now
  {
    User(id, input.username, input.email, input.role, input.department, now)
  }

  /** An asset row carries exactly the input's columns, the caller's status
      included, and both timestamps start at now. */
  function NewAsset(id: Id, input: CreateAssetInput, now: Time): (a: Asset)
    ensures AssetInputOf(a) == input && a.status == input.status
    ensures a.id == id && a.createdAt == now && a.updatedAt == now
  {
    Asset(id, input.name, input.assetType, input.department, input.location,
      input.serialNumber, input.purchaseDate, input.status, input.assignedUserId, now, now)
  }

  /** A schedule row: the input's columns, status forced to scheduled, no completion date. */
  function NewSchedule(id: Id, input: CreateMaintenanceScheduleInput, now: Time): (s: MaintenanceSchedule)
    ensures ScheduleInputOf(s) == input
    ensures s.status == Scheduled && s.completedDate == None
    ensures s.id == id && s.createdAt == now
  {
    MaintenanceSchedule(id, input.assetId, input.scheduledDate, input.maintenanceType,
      Scheduled, input.notes, None, now)
  }

  /** A history entry: the input's columns, the cost included, unchanged. */
  function NewHistory(id: Id, input: CreateRepairHistoryInput, now: Time): (h: RepairHistory)
    ensures HistoryInputOf(h) == input && h.cost == input.cost
    ensures h.id == id && h.createdAt == now
  {
    RepairHistory(id, input.assetId, input.repairDate, input.description, input.cost,
      input.technician, now)
  }

  /** A repair request always starts pending, requested now, with no completion
      date and no admin notes. */
  function NewRequest(id: Id, input: CreateRepairRequestInput, now: Time): (q: RepairRequest)
    ensures RequestInputOf(q) == input
    ensures q.status == Pending && q.completedDate == None && q.adminNotes == None
    ensures q.requestedDate == now && q.id == id && q.createdAt == now
  {
    RepairRequest(id, input.assetId, input.requestedByUserId, input.description,
      input.priority, Pending, now, None, None, now)
  }

  // ----- Lookups by key (select ... where id = ?) -----

  /** The users rows with this key: none exactly when the user does not exist. */
  function SelectUser(users: seq<User>, id: Id): (r: seq<User>)
    ensures |r| == 0 <==> !HasUser(users, id)
    ensures forall u :: u in r <==> u in users && u.id == id
  {
    FilterEmptyIff(users, (u: User) => u.id == id);
    Filter(users, (u: User) => u.id == id)
  }

  /** The assets rows with this key: none exactly when the asset does not exist. */
  function SelectAsset(assets: seq<Asset>, id: Id): (r: seq<Asset>)
    ensures |r| == 0 <==> !HasAsset(assets, id)
    ensures forall a :: a in r <==> a in assets && a.id == id
  {
    FilterEmptyIff(assets, (a: Asset) => a.id == id);
    Filter(assets, (a: Asset) => a.id == id)
  }

  // ----- Lemmas about the asset references -----

  /** Growing or patching the assets table keeps every reference that resolved. */
  lemma RefsKept(
    a0: seq<Asset>, a1: seq<Asset>, schedules: seq<MaintenanceSchedule>,
    history: seq<RepairHistory>, requests: seq<RepairRequest>)
    requires AssetRefsValid(a0, schedules, history, requests)
    requires forall id :: HasAsset(a0, id) ==> HasAsset(a1, id)
    ensures AssetRefsValid(a1, schedules, history, requests)
  {
  }

  lemma HasAssetAppend(assets: seq<Asset>, a: Asset)
    ensures forall id :: HasAsset(assets, id) ==> HasAsset(assets + [a], id)
  {
    forall id | HasAsset(assets, id) ensures HasAsset(assets + [a], id) {
      var i :| 0 <= i < |assets| && assets[i].id == id;
      assert (assets + [a])[i].id == id;
    }
  }

  lemma HasAssetReplace(assets: seq<Asset>, i: nat, a: Asset)
    requires i < |assets| && a.id == assets[i].id
    ensures forall id :: HasAsset(assets, id) ==> HasAsset(assets[i := a], id)
  {
    forall id | HasAsset(assets, id) ensures HasAsset(assets[i := a], id) {
      var k :| 0 <= k < |assets| && assets[k].id == id;
      assert assets[i := a][k].id == id;
    }
  }

  // ----- Lemmas about keys and unique columns -----

  lemma UserAppendKeeps(users: seq<User>, next: Id, u: User)
    requires UserKeys(users, next) && UniqueUserNames(users) && u.id == next
    requires !UsernameInUse(users, u.username) && !EmailInUse(users, u.email)
    ensures UserKeys(users + [u], next + 1) && UniqueUserNames(users + [u])
  {
  }

  lemma AssetAppendKeeps(assets: seq<Asset>, next: Id, a: Asset)
    requires AssetKeys(assets, next) && UniqueSerials(assets) && a.id == next
    requires !SerialInUse(assets, a.serialNumber)
    ensures AssetKeys(assets + [a], next + 1) && UniqueSerials(assets + [a])
  {
  }

  /** Rewriting one asset under its own key, with a serial number no other
      asset holds, keeps the keys and the unique serials. */
  lemma AssetReplaceKeeps(assets: seq<Asset>, next: Id, i: nat, a: Asset)
    requires AssetKeys(assets, next) && UniqueSerials(assets)
    requires i < |assets| && a.id == assets[i].id
    requires !SerialUsedByOther(assets, a.serialNumber, a.id)
    ensures AssetKeys(assets[i := a], next) && UniqueSerials(assets[i := a])
  {
  }

  lemma ScheduleAppendKeeps(schedules: seq<MaintenanceSchedule>, next: Id, s: MaintenanceSchedule)
    requires ScheduleKeys(schedules, next) && s.id == next
    ensures ScheduleKeys(schedules + [s], next + 1)
  {
  }

  lemma HistoryAppendKeeps(history: seq<RepairHistory>, next: Id, h: RepairHistory)
    requires HistoryKeys(history, next) && CostsNonnegative(history) && h.id == next && h.cost >= 0
    ensures HistoryKeys(history + [h], next + 1) && CostsNonnegative(history + [h])
  {
  }

  lemma RequestAppendKeeps(requests: seq<RepairRequest>, next: Id, q: RepairRequest)
    requires RequestKeys(requests, next) && q.id == next
    ensures RequestKeys(requests + [q], next + 1)
  {
  }

  lemma RequestReplaceKeeps(requests: seq<RepairRequest>, next: Id, i: nat, q: RepairRequest)
    requires RequestKeys(requests, next) && i < |requests| && q.id == requests[i].id
    ensures RequestKeys(requests[i := q], next)
  {
  }

  // ----- The invariant across one write -----

  lemma ValidAfterUserInsert(d: Db, u: User)
    requires ValidDb(d) && u.id == d.nextUserId
    requires !UsernameInUse(d.users, u.username) && !EmailInUse(d.users, u.email)
    ensures ValidDb(d.(users := d.users + [u], nextUserId := d.nextUserId + 1))
  {
    UserAppendKeeps(d.users, d.nextUserId, u);
  }

  lemma ValidAfterAssetInsert(d: Db, a: Asset)
    requires ValidDb(d) && a.id == d.nextAssetId && !SerialInUse(d.assets, a.serialNumber)
    ensures ValidDb(d.(assets := d.assets + [a], nextAssetId := d.nextAssetId + 1))
  {
    AssetAppendKeeps(d.assets, d.nextAssetId, a);
    HasAssetAppend(d.assets, a);
    RefsKept(d.assets, d.assets + [a], d.schedules, d.history, d.requests);
  }

  lemma ValidAfterAssetRewrite(d: Db, i: nat, a: Asset)
    requires ValidDb(d) && i < |d.assets| && a.id == d.assets[i].id
    requires !SerialUsedByOther(d.assets, a.serialNumber, a.id)
    ensures ValidDb(d.(assets := d.assets[i := a]))
  {
    AssetReplaceKeeps(d.assets, d.nextAssetId, i, a);
    HasAssetReplace(d.assets, i, a);
    RefsKept(d.assets, d.assets[i := a], d.schedules, d.history, d.requests);
  }

  lemma ValidAfterScheduleInsert(d: Db, s: MaintenanceSchedule)
    requires ValidDb(d) && s.id == d.nextScheduleId && HasAsset(d.assets, s.assetId)
    ensures ValidDb(d.(schedules := d.schedules + [s], nextScheduleId := d.nextScheduleId + 1))
  {
    ScheduleAppendKeeps(d.schedules, d.nextScheduleId, s);
    var t := d.schedules + [s];
    assert forall i :: 0 <= i < |d.schedules| ==> t[i] == d.schedules[i];
  }

  lemma ValidAfterHistoryInsert(d: Db, h: RepairHistory)
    requires ValidDb(d) && h.id == d.nextHistoryId && HasAsset(d.assets, h.assetId) && h.cost >= 0
    ensures ValidDb(d.(history := d.history + [h], nextHistoryId := d.nextHistoryId + 1))
  {
    HistoryAppendKeeps(d.history, d.nextHistoryId, h);
    var t := d.history + [h];
    assert forall i :: 0 <= i < |d.history| ==> t[i] == d.history[i];
  }

  lemma ValidAfterRequestInsert(d: Db, q: RepairRequest)
    requires ValidDb(d) && q.id == d.nextRequestId && HasAsset(d.assets, q.assetId)
    ensures ValidDb(d.(requests := d.requests + [q], nextRequestId := d.nextRequestId + 1))
  {
    RequestAppendKeeps(d.requests, d.nextRequestId, q);
    var t := d.requests + [q];
    assert forall i :: 0 <= i < |d.requests| ==> t[i] == d.requests[i];
  }

  lemma ValidAfterRequestRewrite(d: Db, i: nat, q: RepairRequest)
    requires ValidDb(d) && i < |d.requests| && q.id == d.requests[i].id
    requires q.assetId == d.requests[i].assetId
    ensures ValidDb(d.(requests := d.requests[i := q]))
  {
    RequestReplaceKeeps(d.requests, d.nextRequestId, i, q);
  }

  /** Builds the updated asset row column by column: updated_at always, every
      other column only when the patch supplies it. */
  method SetAssetColumns(current: Asset, input: UpdateAssetInput, now: Time) returns (row: Asset)
    ensures row == PatchAsset(current, input, now)
  {
    row := current.(updatedAt := now);
    if input.name.Present? { row := row.(name := input.name.value); }
    if input.assetType.Present? { row := row.(assetType := input.assetType.value); }
    if input.department.Present? { row := row.(department := input.department.value); }
    if input.location.Present? { row := row.(location := input.location.value); }
    if input.serialNumber.Present? { row := row.(serialNumber := input.serialNumber.value); }
    if input.purchaseDate.Present? { row := row.(purchaseDate := input.purchaseDate.value); }
    if input.status.Present? { row := row.(status := input.status.value); }
    if input.assignedUserId.Present? { row := row.(assignedUserId := input.assignedUserId.value); }
  }

  class Store {
    var users: seq<User>
    var assets: seq<Asset>
    var schedules: seq<MaintenanceSchedule>
    var history: seq<RepairHistory>
    var requests: seq<RepairRequest>
    // the serial sequences: the key the next insert into each table receives
    var nextUserId: Id
    var nextAssetId: Id
    var nextScheduleId: Id
    var nextHistoryId: Id
    var nextRequestId: Id

    ghost function Snapshot(): Db
      reads this
    {
      Db(users, assets, schedules, history, requests,
        nextUserId, nextAssetId, nextScheduleId, nextHistoryId, nextRequestId)
    }

    ghost predicate Valid()
      reads this
    {
      ValidDb(Snapshot())
    }

    /** An empty store; every serial sequence starts at 1. */
    constructor ()
      ensures Valid()
      ensures users == [] && assets == [] && schedules == [] && history == [] && requests == []
      ensures nextUserId == 1 && nextAssetId == 1 && nextScheduleId == 1
      ensures nextHistoryId == 1 && nextRequestId == 1
    {
      users, assets, schedules, history, requests := [], [], [], [], [];
      nextUserId, nextAssetId, nextScheduleId, nextHistoryId, nextRequestId := 1, 1, 1, 1, 1;
    }

    /** The plain insert into the users table (how users get into the store);
        the unique indexes reject a taken username, then a taken email. */
    method InsertUser(input: CreateUserInput, now: Time) returns (r: Result<User>)
      requires Valid()
      modifies this
      ensures Valid()
      ensures UsernameInUse(old(users), input.username) ==> r == Err(Duplicate(Username))
      ensures !UsernameInUse(old(users), input.username) && EmailInUse(old(users), input.email) ==>
        r == Err(Duplicate(Email))
      ensures !UsernameInUse(old(users), input.username) && !EmailInUse(old(users), input.email) ==>
        r == Ok(NewUser(old(nextUserId), input, now))
      ensures r.Err? ==> Snapshot() == old(Snapshot())
      ensures r.Ok? ==>
        Snapshot() == old(Snapshot()).(users := old(users) + [r.value], nextUserId := old(nextUserId) + 1)
    {
      if UsernameInUse(users, input.username) {
        return Err(Duplicate(Username));
      }
      if EmailInUse(users, input.email) {
        return Err(Duplicate(Email));
      }
      var row := NewUser(nextUserId, input, now);
      ValidAfterUserInsert(Snapshot(), row);
      users := users + [row];
      nextUserId := nextUserId + 1;
      r := Ok(row);
    }

    /** createAsset: when assigned_user_id is truthy the user must exist; then
        the row is inserted, and a serial number already in use is rejected. */
    method CreateAsset(input: CreateAssetInput, now: Time) returns (r: Result<Asset>)
      requires Valid() && ValidCreateAssetInput(input)
      modifies this
      ensures Valid()
      ensures Truthy(input.assignedUserId) && !HasUser(old(users), input.assignedUserId.value) ==>
        r == Err(UserNotFound(input.assignedUserId.value))
      ensures !(Truthy(input.assignedUserId) && !HasUser(old(users), input.assignedUserId.value)) ==>
        if SerialInUse(old(assets), input.serialNumber) then r == Err(Duplicate(SerialNumber))
        else r == Ok(NewAsset(old(nextAssetId), input, now))
      ensures r.Err? ==> Snapshot() == old(Snapshot())
      ensures r.Ok? ==>
        Snapshot() == old(Snapshot()).(assets := old(assets) + [r.value], nextAssetId := old(nextAssetId) + 1)
    {
      if Truthy(input.assignedUserId) {
        var userId := input.assignedUserId.value;
        var user := SelectUser(users, userId);
        if |user| == 0 {
          return Err(UserNotFound(userId));
        }
      }
      if SerialInUse(assets, input.serialNumber) {
        return Err(Duplicate(SerialNumber));
      }
      var row := NewAsset(nextAssetId, input, now);
      ValidAfterAssetInsert(Snapshot(), row);
      assets := assets + [row];
      nextAssetId := nextAssetId + 1;
      r := Ok(row);
    }

    /** updateAsset: the asset must exist; every supplied column is written,
        updated_at is refreshed, and a serial number held by another asset is
        rejected. */
    method UpdateAsset(input: UpdateAssetInput, now: Time) returns (r: Result<Asset>)
      requires Valid() && ValidUpdateAssetInput(input)
      modifies this
      ensures Valid()
      ensures !HasAsset(old(assets), input.id) ==>
        r == Err(AssetNotFound(input.id)) && Snapshot() == old(Snapshot())
      ensures HasAsset(old(assets), input.id) ==>
        var i := FindAsset(old(assets), input.id).value;
        var row := PatchAsset(old(assets)[i], input, now);
        if SerialUsedByOther(old(assets), row.serialNumber, input.id) then
          r == Err(Duplicate(SerialNumber)) && Snapshot() == old(Snapshot())
        else
          r == Ok(row) && Snapshot() == old(Snapshot()).(assets := old(assets)[i := row])
    {
      var existing := SelectAsset(assets, input.id);
      if |existing| == 0 {
        return Err(AssetNotFound(input.id));
      }
      var i := FindAsset(assets, input.id).value;
      var row := SetAssetColumns(assets[i], input, now);
      if SerialUsedByOther(assets, row.serialNumber, input.id) {
        return Err(Duplicate(SerialNumber));
      }
      ValidAfterAssetRewrite(Snapshot(), i, row);
      assets := assets[i := row];
      r := Ok(row);
    }

    /** createRepairRequest: the asset must exist, then the requesting user;
        the new request is pending with no completion date or notes. */
    method CreateRepairRequest(input: CreateRepairRequestInput, now: Time) returns (r: Result<RepairRequest>)
      requires Valid() && ValidCreateRepairRequestInput(input)
      modifies this
      ensures Valid()
      ensures !HasAsset(old(assets), input.assetId) ==> r == Err(AssetNotFound(input.assetId))
      ensures HasAsset(old(assets), input.assetId) && !HasUser(old(users), input.requestedByUserId) ==>
        r == Err(UserNotFound(input.requestedByUserId))
      ensures HasAsset(old(assets), input.assetId) && HasUser(old(users), input.requestedByUserId) ==>
        r == Ok(NewRequest(old(nextRequestId), input, now))
      ensures r.Err? ==> Snapshot() == old(Snapshot())
      ensures r.Ok? ==>
        Snapshot() == old(Snapshot()).(requests := old(requests) + [r.value], nextRequestId := old(nextRequestId) + 1)
    {
      var asset := SelectAsset(assets, input.assetId);
      if |asset| == 0 {
        return Err(AssetNotFound(input.assetId));
      }
      var user := SelectUser(users, input.requestedByUserId);
      if |user| == 0 {
        return Err(UserNotFound(input.requestedByUserId));
      }
      var row := NewRequest(nextRequestId, input, now);
      ValidAfterRequestInsert(Snapshot(), row);
      requests := requests + [row];
      nextRequestId := nextRequestId + 1;
      r := Ok(row);
    }

    /** updateRepairRequest: writes the supplied status, completed_date and
        admin_notes of the request with this key; fails when no row matched. */
    method UpdateRepairRequest(input: UpdateRepairRequestInput) returns (r: Result<RepairRequest>)
      requires Valid()
      modifies this
      ensures Valid()
      ensures !HasRequest(old(requests), input.id) ==>
        r == Err(RequestNotFound(input.id)) && Snapshot() == old(Snapshot())
      ensures HasRequest(old(requests), input.id) ==>
        var i := FindRequest(old(requests), input.id).value;
        var row := PatchRequest(old(requests)[i], input);
        r == Ok(row) && Snapshot() == old(Snapshot()).(requests := old(requests)[i := row])
    {
      var updatedRows: seq<RepairRequest> := [];
      var found := FindRequest(requests, input.id);
      if found.Some? {
        var i := found.value;
        var row := requests[i];
        if input.status.Present? { row := row.(status := input.status.value); }
        if input.completedDate.Present? { row := row.(completedDate := input.completedDate.value); }
        if input.adminNotes.Present? { row := row.(adminNotes := input.adminNotes.value); }
        assert row == PatchRequest(requests[i], input);
        ValidAfterRequestRewrite(Snapshot(), i, row);
        requests := requests[i := row];
        updatedRows := [row];
      }
      if |updatedRows| == 0 {
        return Err(RequestNotFound(input.id));
      }
      r := Ok(updatedRows[0]);
    }

    /** createMaintenanceSchedule: the asset must exist; the new row is scheduled. */
    method CreateMaintenanceSchedule(input: CreateMaintenanceScheduleInput, now: Time)
      returns (r: Result<MaintenanceSchedule>)
      requires Valid() && ValidCreateMaintenanceScheduleInput(input)
      modifies this
      ensures Valid()
      ensures !HasAsset(old(assets), input.assetId) ==> r == Err(AssetNotFound(input.assetId))
      ensures HasAsset(old(assets), input.assetId) ==> r == Ok(NewSchedule(old(nextScheduleId), input, now))
      ensures r.Err? ==> Snapshot() == old(Snapshot())
      ensures r.Ok? ==>
        Snapshot() == old(Snapshot()).(schedules := old(schedules) + [r.value], nextScheduleId := old(nextScheduleId) + 1)
    {
      var existing := SelectAsset(assets, input.assetId);
      if |existing| == 0 {
        return Err(AssetNotFound(input.assetId));
      }
      var row := NewSchedule(nextScheduleId, input, now);
      ValidAfterScheduleInsert(Snapshot(), row);
      schedules := schedules + [row];
      nextScheduleId := nextScheduleId + 1;
      r := Ok(row);
    }

    /** createRepairHistory: the asset must exist; the entry is appended to the log. */
    method CreateRepairHistory(input: CreateRepairHistoryInput, now: Time) returns (r: Result<RepairHistory>)
      requires Valid() && ValidCreateRepairHistoryInput(input)
      modifies this
      ensures Valid()
      ensures !HasAsset(old(assets), input.assetId) ==> r == Err(AssetNotFound(input.assetId))
      ensures HasAsset(old(assets), input.assetId) ==> r == Ok(NewHistory(old(nextHistoryId), input, now))
      ensures r.Err? ==> Snapshot() == old(Snapshot())
      ensures r.Ok? ==>
        Snapshot() == old(Snapshot()).(history := old(history) + [r.value], nextHistoryId := old(nextHistoryId) + 1)
    {
      var asset := SelectAsset(assets, input.assetId);
      if |asset| == 0 {
        return Err(AssetNotFound(input.assetId));
      }
      var row := NewHistory(nextHistoryId, input, now);
      ValidAfterHistoryInsert(Snapshot(), row);
      history := history + [row];
      nextHistoryId := nextHistoryId + 1;
      r := Ok(row);
    }

    /** deleteUser: removes the user with this key, reporting whether a row went;
        a missing key is not an error. */
    method DeleteUser(id: Id) returns (success: bool)
      requires Valid()
      modifies this
      ensures Valid()
      ensures success <==> HasUser(old(users), id)
      ensures Snapshot() == old(Snapshot()).(users := Filter(old(users), (u: User) => u.id != id))
      ensures !HasUser(users, id)
      ensures forall u :: u in users <==> u in old(users) && u.id != id
      ensures !success ==> users == old(users)
    {
      var keep := (u: User) => u.id != id;
      var deleted := SelectUser(users, id);
      if |deleted| == 0 {
        FilterKeepsAll(users, keep);
      }
      FilterPairwise(users, keep, (a: User, b: User) => a.id != b.id);
      FilterPairwise(users, keep, (a: User, b: User) => a.username != b.username && a.email != b.email);
      users := Filter(users, keep);
      success := |deleted| > 0;
    }
  }
}
