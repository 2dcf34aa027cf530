/** The document shapes of the fleet tables. Each value is the body of a
    document; its `_id` lives in `Store.Doc`. References to other documents
    (`v.id("...")`) are the referenced document's id. */
module Schema {
  import opened Common

  datatype MaintenanceRules = MaintenanceRules(kmInterval: Option<int>, timeInterval: Option<int>)

  datatype VehicleType = VehicleType(name: string, description: string, maintenanceRules: MaintenanceRules)

  datatype OwnershipType = Propria | Locada

  datatype ServiceType = Operational | Backup

  datatype Vehicle = Vehicle(
    plate: string,
    brand: string,
    model: string,
    year: int,
    chassisNumber: string,
    renavam: string,
    operationalPrefix: string,
    typeId: nat,
    nextMaintenanceKm: Option<int>,
    color: Option<string>,
    ownershipType: OwnershipType,
    serviceType: ServiceType,
    createdAt: int,
    updatedAt: int)

  /** A stored RG: older documents hold text, the handlers write numbers. */
  datatype Rg = RgText(text: string) | RgNumber(number: int)

  datatype Personnel = Personnel(rank: string, rg: Rg, name: string, active: bool, createdAt: int, updatedAt: int)

  datatype DestinationType = Ocorrencia | Qrf | Ceman | Cal | Outro

  datatype MovementStatus = EmTransito | Concluido

  datatype Movement = Movement(
    vehicleId: nat,
    personnelId: nat,
    destination: string,
    destinationType: Option<DestinationType>,
    departureKm: int,
    departureTime: int,
    arrivalKm: Option<int>,
    arrivalTime: Option<int>,
    status: MovementStatus,
    notes: Option<string>,
    createdAt: int,
    updatedAt: int)

  datatype Reading = Reading(
    vehicleId: nat,
    kmReading: int,
    readingDate: int,
    recordedBy: Option<string>,
    notes: Option<string>,
    createdAt: int)

  datatype MaintenanceType = Preventive | Corrective

  datatype MaintenanceStatus = AwaitingCeman | InProgress | Completed | Cancelled

  datatype MaintenanceRecord = MaintenanceRecord(
    vehicleId: nat,
    kind: MaintenanceType,
    status: MaintenanceStatus,
    seiProcessNumber: Option<string>,
    sentDate: Option<int>,
    returnDate: Option<int>,
    location: Option<string>,
    kmAtMaintenance: int,
    description: string,
    notes: Option<string>,
    createdAt: int,
    updatedAt: int)

  datatype IssueSeverity = Low | Medium | High | Critical

  datatype IssueStatus = Open | InProgress | Resolved | Closed

  datatype Issue = Issue(
    vehicleId: nat,
    title: string,
    description: string,
    severity: IssueSeverity,
    status: IssueStatus,
    reportedDate: int,
    resolvedDate: Option<int>,
    maintenanceRecordId: Option<nat>,
    createdAt: int,
    updatedAt: int)
}
