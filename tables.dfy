/** The five tables of the store: their enums, row shapes (nullability and
    defaults) and the key constraints the database enforces. */
module Tables {
  import opened Wrappers

  type Id = int
  /** A timestamp, as an abstract instant; larger means later. */
  type Time = int
  /** A monetary amount in cents (numeric(10,2) without the floating point). */
  type Cents = int

  // ----- Closed enums (pgEnum) -----

  datatype UserRole = Admin | Regular
  datatype AssetType = MedicalEquipment | Furniture | ItDevice | Vehicle
  datatype AssetStatus = Active | Damaged | UnderRepair | Inactive
  datatype RequestStatus = Pending | InProgress | Completed | Rejected
  /** `Done` is the label "completed"; the name keeps it apart from `RequestStatus.Completed`. */
  datatype MaintenanceStatus = Scheduled | Done | Overdue

  /** The label the database stores for a role; only labels of the enum parse back. */
  function UserRoleName(r: UserRole): (name: string)
    ensures ParseUserRole(name) == Some(r)
  {
    match r
    case Admin => "admin"
    case Regular => "regular"
  }

  function ParseUserRole(name: string): (r: Option<UserRole>)
  {
    if name == "admin" then Some(Admin)
    else if name == "regular" then Some(Regular)
    else None
  }

  function AssetTypeName(t: AssetType): (name: string)
    ensures ParseAssetType(name) == Some(t)
  {
    match t
    case MedicalEquipment => "medical_equipment"
    case Furniture => "furniture"
    case ItDevice => "it_device"
    case Vehicle => "vehicle"
  }

  function ParseAssetType(name: string): (t: Option<AssetType>)
  {
    if name == "medical_equipment" then Some(MedicalEquipment)
    else if name == "furniture" then Some(Furniture)
    else if name == "it_device" then Some(ItDevice)
    else if name == "vehicle" then Some(Vehicle)
    else None
  }

  function AssetStatusName(s: AssetStatus): (name: string)
    ensures ParseAssetStatus(name) == Some(s)
  {
    match s
    case Active => "active"
    case Damaged => "damaged"
    case UnderRepair => "under_repair"
    case Inactive => "inactive"
  }

  function ParseAssetStatus(name: string): (s: Option<AssetStatus>)
  {
    if name == "active" then Some(Active)
    else if name == "damaged" then Some(Damaged)
    else if name == "under_repair" then Some(UnderRepair)
    else if name == "inactive" then Some(Inactive)
    else None
  }

  function RequestStatusName(s: RequestStatus): (name: string)
    ensures ParseRequestStatus(name) == Some(s)
  {
    match s
    case Pending => "pending"
    case InProgress => "in_progress"
    case Completed => "completed"
    case Rejected => "rejected"
  }

  function ParseRequestStatus(name: string): (s: Option<RequestStatus>)
  {
    if name == "pending" then Some(Pending)
    else if name == "in_progress" then Some(InProgress)
    else if name == "completed" then Some(Completed)
    else if name == "rejected" then Some(Rejected)
    else None
  }

  function MaintenanceStatusName(s: MaintenanceStatus): (name: string)
    ensures ParseMaintenanceStatus(name) == Some(s)
  {
    match s
    case Scheduled => "scheduled"
    case Done => "completed"
    case Overdue => "overdue"
  }

  function ParseMaintenanceStatus(name: string): (s: Option<MaintenanceStatus>)
  {
    if name == "scheduled" then Some(Scheduled)
    else if name == "completed" then Some(Done)
    else if name == "overdue" then Some(Overdue)
    else None
  }

  /** Each enum column is closed: a label parses only if it is the label of a member. */
  lemma ClosedEnums(name: string)
    ensures ParseUserRole(name).Some? ==> UserRoleName(ParseUserRole(name).value) == name
    ensures ParseAssetType(name).Some? ==> AssetTypeName(ParseAssetType(name).value) == name
    ensures ParseAssetStatus(name).Some? ==> AssetStatusName(ParseAssetStatus(name).value) == name
    ensures ParseRequestStatus(name).Some? ==> RequestStatusName(ParseRequestStatus(name).value) == name
    ensures ParseMaintenanceStatus(name).Some? ==>
      MaintenanceStatusName(ParseMaintenanceStatus(name).value) == name
  {
  }

  // ----- Rows -----

  datatype User = User(
    id: Id, username: string, email: string, role: UserRole,
    department: string, createdAt: Time)

  /** `assignedUserId` is the one nullable column of an asset. */
  datatype Asset = Asset(
    id: Id, name: string, assetType: AssetType, department: string,
    location: string, serialNumber: string, purchaseDate: Time,
    status: AssetStatus, assignedUserId: Option<Id>,
    createdAt: Time, updatedAt: Time)

  datatype MaintenanceSchedule = MaintenanceSchedule(
    id: Id, assetId: Id, scheduledDate: Time, maintenanceType: string,
    status: MaintenanceStatus, notes: Option<string>,
    completedDate: Option<Time>, createdAt: Time)

  datatype RepairHistory = RepairHistory(
    id: Id, assetId: Id, repairDate: Time, description: string,
    cost: Cents, technician: string, createdAt: Time)

  datatype RepairRequest = RepairRequest(
    id: Id, assetId: Id, requestedByUserId: Id, description: string,
    priority: string, status: RequestStatus, requestedDate: Time,
    completedDate: Option<Time>, adminNotes: Option<string>, createdAt: Time)

  // ----- Key constraints -----

  /** Serial primary keys: positive, below the table's sequence counter, distinct. */
  ghost predicate UserKeys(users: seq<User>, next: Id)
  {
    && 0 < next
    && (forall i :: 0 <= i < |users| ==> 0 < users[i].id < next)
    && (forall i, j :: 0 <= i < j < |users| ==> users[i].id != users[j].id)
  }

  /** username and email are each unique across the users table. */
  ghost predicate UniqueUserNames(users: seq<User>)
  {
    forall i, j :: 0 <= i < j < |users| ==>
      users[i].username != users[j].username && users[i].email != users[j].email
  }

  ghost predicate AssetKeys(assets: seq<Asset>, next: Id)
  {
    && 0 < next
    && (forall i :: 0 <= i < |assets| ==> 0 < assets[i].id < next)
    && (forall i, j :: 0 <= i < j < |assets| ==> assets[i].id != assets[j].id)
  }

  /** serial_number is unique across the assets table. */
  ghost predicate UniqueSerials(assets: seq<Asset>)
  {
    forall i, j :: 0 <= i < j < |assets| ==> assets[i].serialNumber != assets[j].serialNumber
  }

  ghost predicate ScheduleKeys(schedules: seq<MaintenanceSchedule>, next: Id)
  {
    && 0 < next
    && (forall i :: 0 <= i < |schedules| ==> 0 < schedules[i].id < next)
    && (forall i, j :: 0 <= i < j < |schedules| ==> schedules[i].id != schedules[j].id)
  }

  ghost predicate HistoryKeys(history: seq<RepairHistory>, next: Id)
  {
    && 0 < next
    && (forall i :: 0 <= i < |history| ==> 0 < history[i].id < next)
    && (forall i, j :: 0 <= i < j < |history| ==> history[i].id != history[j].id)
  }

  ghost predicate RequestKeys(requests: seq<RepairRequest>, next: Id)
  {
    && 0 < next
    && (forall i :: 0 <= i < |requests| ==> 0 < requests[i].id < next)
    && (forall i, j :: 0 <= i < j < |requests| ==> requests[i].id != requests[j].id)
  }

  // ----- Row lookup by key (select ... where id = ?) -----

  predicate HasUser(users: seq<User>, id: Id)
  {
    exists i :: 0 <= i < |users| && users[i].id == id
  }

  predicate HasAsset(assets: seq<Asset>, id: Id)
  {
    exists i :: 0 <= i < |assets| && assets[i].id == id
  }

  predicate HasRequest(requests: seq<RepairRequest>, id: Id)
  {
    exists i :: 0 <= i < |requests| && requests[i].id == id
  }

  /** The position of the asset row with key `id`, if there is one. */
  function FindAsset(assets: seq<Asset>, id: Id): (r: Option<nat>)
    ensures r.Some? ==> r.value < |assets| && assets[r.value].id == id
    ensures r.None? <==> !HasAsset(assets, id)
  {
    if |assets| == 0 then None
    else if assets[0].id == id then Some(0)
    else
      match FindAsset(assets[1..], id)
      case None => None
      case Some(k) => Some(k + 1)
  }

  /** The position of the repair-request row with key `id`, if there is one. */
  function FindRequest(requests: seq<RepairRequest>, id: Id): (r: Option<nat>)
    ensures r.Some? ==> r.value < |requests| && requests[r.value].id == id
    ensures r.None? <==> !HasRequest(requests, id)
  {
    if |requests| == 0 then None
    else if requests[0].id == id then Some(0)
    else
      match FindRequest(requests[1..], id)
      case None => None
      case Some(k) => Some(k + 1)
  }
}
