/** The vehicle-issue handlers: the filtered list joined with each issue's
    vehicle, the detail lookup, the mutations that move an issue through its
    statuses, and the issue statistics. */
module VehicleIssues {
  import opened Common
  import opened Schema
  import opened Store

  /** The vehicle fields joined into an issue view. */
  datatype VehicleBrief = VehicleBrief(id: nat, operationalPrefix: string, plate: string, brand: string, model: string)

  /** An issue with its vehicle, null when the vehicle is gone. */
  datatype IssueView = IssueView(issue: Doc<Issue>, vehicle: Option<VehicleBrief>)

  function Brief(v: Doc<Vehicle>): VehicleBrief {
    VehicleBrief(v.id, v.fields.operationalPrefix, v.fields.plate, v.fields.brand, v.fields.model)
  }

  /** One issue joined with its vehicle; the issue is kept when the vehicle is gone. */
  function ViewOf(d: Doc<Issue>, vehicles: seq<Doc<Vehicle>>): (r: IssueView)
    ensures r.issue == d
    ensures r.vehicle.None? <==> Get(vehicles, d.fields.vehicleId).None?
    ensures r.vehicle.Some? ==> (r.vehicle.value.id == d.fields.vehicleId &&
      r.vehicle.value == Brief(Get(vehicles, d.fields.vehicleId).value))
  {
    match Get(vehicles, d.fields.vehicleId)
    case None => IssueView(d, None)
    case Some(v) => IssueView(d, Some(Brief(v)))
  }

  /** Every issue of `s`, in order, joined with its vehicle. */
  function Views(s: seq<Doc<Issue>>, vehicles: seq<Doc<Vehicle>>): (r: seq<IssueView>)
    ensures |r| == |s|
    ensures forall k :: 0 <= k < |s| ==> r[k] == ViewOf(s[k], vehicles)
    ensures forall d :: d in s ==> ViewOf(d, vehicles) in r
  {
    if s == [] then []
    else Views(s[..|s| - 1], vehicles) + [ViewOf(s[|s| - 1], vehicles)]
  }

  /** The issue satisfies every filter that is supplied. */
  predicate Matches(d: Doc<Issue>, vehicleId: Option<nat>, status: Option<IssueStatus>, severity: Option<IssueSeverity>) {
    (vehicleId.None? || d.fields.vehicleId == vehicleId.value) &&
    (status.None? || d.fields.status == status.value) &&
    (severity.None? || d.fields.severity == severity.value)
  }

  function Matcher(vehicleId: Option<nat>, status: Option<IssueStatus>, severity: Option<IssueSeverity>): Doc<Issue> -> bool {
    (d: Doc<Issue>) => Matches(d, vehicleId, status, severity)
  }

  /** The issues `list` reads before the join: the vehicle index or a full
      scan, then the status filter, then the severity filter. */
  function Selected(t: seq<Doc<Issue>>, vehicleId: Option<nat>, status: Option<IssueStatus>,
                    severity: Option<IssueSeverity>): (r: seq<Doc<Issue>>)
    ensures |r| <= |t|
  {
    var scanned := if vehicleId.Some? then Filter(t, (d: Doc<Issue>) => d.fields.vehicleId == vehicleId.value) else t;
    var byStatus := if status.Some? then Filter(scanned, (d: Doc<Issue>) => d.fields.status == status.value) else scanned;
    if severity.Some? then Filter(byStatus, (d: Doc<Issue>) => d.fields.severity == severity.value) else byStatus
  }

  /** Whichever filters are supplied, the issues read are exactly those
      matching all of them, in insertion order. */
  lemma SelectedMatches(t: seq<Doc<Issue>>, vehicleId: Option<nat>, status: Option<IssueStatus>,
                        severity: Option<IssueSeverity>)
    ensures Selected(t, vehicleId, status, severity) == Filter(t, Matcher(vehicleId, status, severity))
  {
    var m1 := Matcher(vehicleId, None, None);
    var m2 := Matcher(vehicleId, status, None);
    var m3 := Matcher(vehicleId, status, severity);
    var scanned := if vehicleId.Some? then Filter(t, (d: Doc<Issue>) => d.fields.vehicleId == vehicleId.value) else t;
    if vehicleId.Some? {
      FilterCongruent(t, (d: Doc<Issue>) => d.fields.vehicleId == vehicleId.value, m1);
    } else {
      FilterAll(t, m1);
    }
    assert scanned == Filter(t, m1);
    var byStatus := if status.Some? then Filter(scanned, (d: Doc<Issue>) => d.fields.status == status.value) else scanned;
    if status.Some? {
      FilterFilterCongruent(t, m1, (d: Doc<Issue>) => d.fields.status == status.value, m2);
    } else {
      FilterCongruent(t, m1, m2);
    }
    assert byStatus == Filter(t, m2);
    if severity.Some? {
      FilterFilterCongruent(t, m2, (d: Doc<Issue>) => d.fields.severity == severity.value, m3);
      assert Selected(t, vehicleId, status, severity) ==
        Filter(byStatus, (d: Doc<Issue>) => d.fields.severity == severity.value);
    } else {
      FilterCongruent(t, m2, m3);
      assert Selected(t, vehicleId, status, severity) == byStatus;
    }
  }

  /** `list`: every issue matching the supplied filters, in insertion order,
      each with its vehicle or null. */
  function List(issues: seq<Doc<Issue>>, vehicles: seq<Doc<Vehicle>>, vehicleId: Option<nat>,
                status: Option<IssueStatus>, severity: Option<IssueSeverity>): (r: seq<IssueView>)
    ensures r == Views(Filter(issues, Matcher(vehicleId, status, severity)), vehicles)
    ensures |r| == |Filter(issues, Matcher(vehicleId, status, severity))|
    ensures forall k :: 0 <= k < |r| ==> (r[k].issue in issues &&
      Matches(r[k].issue, vehicleId, status, severity) && r[k] == ViewOf(r[k].issue, vehicles))
    ensures forall d :: d in issues && Matches(d, vehicleId, status, severity) ==> ViewOf(d, vehicles) in r
  {
    SelectedMatches(issues, vehicleId, status, severity);
    FilterHas(issues, Matcher(vehicleId, status, severity));
    Views(Selected(issues, vehicleId, status, severity), vehicles)
  }

  /** An issue with its vehicle and linked maintenance record, as `get` returns it. */
  datatype IssueDetail = IssueDetail(
    issue: Doc<Issue>,
    vehicle: Option<VehicleBrief>,
    maintenanceRecord: Option<Doc<MaintenanceRecord>>)

  /** `get`: null for a missing issue; a missing vehicle or maintenance record
      becomes null inside the result. */
  function GetDetail(issues: seq<Doc<Issue>>, vehicles: seq<Doc<Vehicle>>, maintenance: seq<Doc<MaintenanceRecord>>,
                     id: nat): (r: Option<IssueDetail>)
    ensures r.None? <==> Get(issues, id).None?
    ensures r.Some? ==> (r.value.issue == Get(issues, id).value &&
      r.value.vehicle == ViewOf(r.value.issue, vehicles).vehicle)
    ensures r.Some? ==> (r.value.maintenanceRecord.Some? <==>
      (r.value.issue.fields.maintenanceRecordId.Some? &&
       Get(maintenance, r.value.issue.fields.maintenanceRecordId.value).Some?))
    ensures r.Some? && r.value.maintenanceRecord.Some? ==>
      r.value.maintenanceRecord.value.id == r.value.issue.fields.maintenanceRecordId.value
  {
    match Get(issues, id)
    case None => None
    case Some(d) =>
      var linked := d.fields.maintenanceRecordId;
      Some(IssueDetail(d, ViewOf(d, vehicles).vehicle,
                       if linked.Some? then Get(maintenance, linked.value) else None))
  }

  /** A new issue: open, reported and stamped at the creation time, with no
      resolution date and no linked maintenance. */
  function Reported(vehicleId: nat, title: string, description: string, severity: IssueSeverity, now: int): (r: Issue)
    ensures r.status == Open && r.reportedDate == now && r.createdAt == now && r.updatedAt == now
    ensures r.resolvedDate.None? && r.maintenanceRecordId.None?
    ensures r.vehicleId == vehicleId && r.title == title && r.description == description && r.severity == severity
  {
    Issue(vehicleId, title, description, severity, Open, now, None, None, now, now)
  }

  /** `create`: refuses an issue for a missing vehicle. */
  method Create(db: Db, vehicleId: nat, title: string, description: string, severity: IssueSeverity, now: int)
    returns (r: Result<nat>)
    requires db.Valid()
    modifies db`issues, db`nextId
    ensures db.Valid()
    ensures r.Err? <==> Get(db.vehicles, vehicleId).None?
    ensures r.Err? ==> r.error == VehicleNotFound && db.issues == old(db.issues)
    ensures r.Ok? ==> (r.value == old(db.nextId) &&
      db.issues == old(db.issues) + [Doc(r.value, Reported(vehicleId, title, description, severity, now))])
  {
    if Get(db.vehicles, vehicleId).None? {
      return Err(VehicleNotFound);
    }
    var id := db.NewId();
    var f := Reported(vehicleId, title, description, severity, now);
    InsertSpec(db.issues, id, f);
    db.issues := db.issues + [Doc(id, f)];
    r := Ok(id);
  }

  /** `update`: refuses a missing issue, otherwise replaces its title,
      description, severity and status. The resolution date is not touched. */
  method Update(db: Db, id: nat, title: string, description: string, severity: IssueSeverity,
                status: IssueStatus, now: int) returns (r: Result<nat>)
    requires db.Valid()
    modifies db`issues
    ensures db.Valid()
    ensures r.Err? <==> Get(old(db.issues), id).None?
    ensures r.Err? ==> r.error == IssueNotFound && db.issues == old(db.issues)
    ensures r.Ok? ==> (r.value == id &&
      db.issues == Patch(old(db.issues), id, Get(old(db.issues), id).value.fields.(
        title := title, description := description, severity := severity, status := status, updatedAt := now)))
  {
    var existing := Get(db.issues, id);
    if existing.None? {
      return Err(IssueNotFound);
    }
    var f := existing.value.fields.(
      title := title, description := description, severity := severity, status := status, updatedAt := now);
    PatchSpec(db.issues, db.nextId, id, f);
    db.issues := Patch(db.issues, id, f);
    r := Ok(id);
  }

  /** The statuses that close an issue. */
  predicate Finished(status: IssueStatus) {
    status == Resolved || status == Closed
  }

  /** The issue after `updateStatus`: the new status and update time, and the
      resolution date stamped only when the new status finishes the issue. */
  function StatusChanged(prev: Issue, status: IssueStatus, now: int): (r: Issue)
    ensures r.status == status && r.updatedAt == now
    ensures Finished(status) ==> r.resolvedDate == Some(now)
    ensures !Finished(status) ==> r.resolvedDate == prev.resolvedDate
    ensures r.(status := prev.status, updatedAt := prev.updatedAt, resolvedDate := prev.resolvedDate) == prev
  {
    if Finished(status) then prev.(status := status, updatedAt := now, resolvedDate := Some(now))
    else prev.(status := status, updatedAt := now)
  }

  /** `updateStatus`: refuses a missing issue, otherwise applies `StatusChanged`. */
  method UpdateStatus(db: Db, id: nat, status: IssueStatus, now: int) returns (r: Result<nat>)
    requires db.Valid()
    modifies db`issues
    ensures db.Valid()
    ensures r.Err? <==> Get(old(db.issues), id).None?
    ensures r.Err? ==> r.error == IssueNotFound && db.issues == old(db.issues)
    ensures r.Ok? ==> (r.value == id &&
      db.issues == Patch(old(db.issues), id, StatusChanged(Get(old(db.issues), id).value.fields, status, now)))
  {
    var existing := Get(db.issues, id);
    if existing.None? {
      return Err(IssueNotFound);
    }
    var f := StatusChanged(existing.value.fields, status, now);
    PatchSpec(db.issues, db.nextId, id, f);
    db.issues := Patch(db.issues, id, f);
    r := Ok(id);
  }

  /** Reopening a finished issue keeps its old resolution date. */
  lemma ReopenKeepsResolvedDate(prev: Issue, now: int, later: int)
    ensures StatusChanged(StatusChanged(prev, Resolved, now), Open, later).resolvedDate == Some(now)
  {
  }

  /** The issue after `linkToMaintenance`: linked to the record and forced in
      progress; everything else, the resolution date included, unchanged. */
  function Linked(prev: Issue, maintenanceRecordId: nat, now: int): (r: Issue)
    ensures r.maintenanceRecordId == Some(maintenanceRecordId) && r.status == IssueStatus.InProgress
    ensures r.updatedAt == now && r.resolvedDate == prev.resolvedDate
    ensures r.(maintenanceRecordId := prev.maintenanceRecordId, status := prev.status, updatedAt := prev.updatedAt) == prev
  {
    prev.(maintenanceRecordId := Some(maintenanceRecordId), status := IssueStatus.InProgress, updatedAt := now)
  }

  /** `linkToMaintenance`: refuses a missing issue, then a missing maintenance
      record; otherwise applies `Linked`. */
  method LinkToMaintenance(db: Db, id: nat, maintenanceRecordId: nat, now: int) returns (r: Result<nat>)
    requires db.Valid()
    modifies db`issues
    ensures db.Valid()
    ensures r == Err(IssueNotFound) <==> Get(old(db.issues), id).None?
    ensures r == Err(MaintenanceRecordNotFound) <==>
      Get(old(db.issues), id).Some? && Get(db.maintenance, maintenanceRecordId).None?
    ensures r.Ok? <==> Get(old(db.issues), id).Some? && Get(db.maintenance, maintenanceRecordId).Some?
    ensures r.Err? ==> db.issues == old(db.issues)
    ensures r.Ok? ==> (r.value == id &&
      db.issues == Patch(old(db.issues), id, Linked(Get(old(db.issues), id).value.fields, maintenanceRecordId, now)))
  {
    var existing := Get(db.issues, id);
    if existing.None? {
      return Err(IssueNotFound);
    }
    if Get(db.maintenance, maintenanceRecordId).None? {
      return Err(MaintenanceRecordNotFound);
    }
    var f := Linked(existing.value.fields, maintenanceRecordId, now);
    PatchSpec(db.issues, db.nextId, id, f);
    db.issues := Patch(db.issues, id, f);
    r := Ok(id);
  }

  /** `remove`: deletes the issue with no check of its own; a missing id is
      the store's failure. */
  method Remove(db: Db, id: nat) returns (r: Result<nat>)
    requires db.Valid()
    modifies db`issues
    ensures db.Valid()
    ensures r.Err? <==> Get(old(db.issues), id).None?
    ensures r.Err? ==> r.error == DocumentNotFound && db.issues == old(db.issues)
    ensures r.Ok? ==> r.value == id && |db.issues| == |old(db.issues)| - 1
    ensures forall d :: d in db.issues <==> d in old(db.issues) && d.id != id
  {
    if Get(db.issues, id).None? {
      return Err(DocumentNotFound);
    }
    RemoveSpec(db.issues, db.nextId, id);
    db.issues := Store.Remove(db.issues, id);
    r := Ok(id);
  }

  function HasStatus(status: IssueStatus): Doc<Issue> -> bool {
    (d: Doc<Issue>) => d.fields.status == status
  }

  /** Issues of the severity that are still open or in progress. */
  function Pending(severity: IssueSeverity): Doc<Issue> -> bool {
    (d: Doc<Issue>) => d.fields.severity == severity && (d.fields.status.Open? || d.fields.status.InProgress?)
  }

  datatype Stats = Stats(total: nat, open: nat, inProgress: nat, resolved: nat, closed: nat, critical: nat, high: nat)

  /** Every issue has exactly one of the four statuses. */
  lemma {:induction false} StatusCountsSum(s: seq<Doc<Issue>>)
    ensures |Filter(s, HasStatus(Open))| + |Filter(s, HasStatus(IssueStatus.InProgress))| +
            |Filter(s, HasStatus(Resolved))| + |Filter(s, HasStatus(Closed))| == |s|
  {
    if s != [] {
      StatusCountsSum(s[..|s| - 1]);
    }
  }

  /** The critical and high counts only take issues that are open or in progress. */
  lemma {:induction false} PendingBound(s: seq<Doc<Issue>>)
    ensures |Filter(s, Pending(Critical))| + |Filter(s, Pending(High))| <=
            |Filter(s, HasStatus(Open))| + |Filter(s, HasStatus(IssueStatus.InProgress))|
  {
    if s != [] {
      PendingBound(s[..|s| - 1]);
    }
  }

  /** `getStats`: the four status counts partition the issues; the critical and
      high counts are bounded by the unfinished issues. */
  function GetStats(issues: seq<Doc<Issue>>): (r: Stats)
    ensures r.total == |issues|
    ensures r.open + r.inProgress + r.resolved + r.closed == r.total
    ensures r.critical + r.high <= r.open + r.inProgress
    ensures r.open == |Filter(issues, HasStatus(Open))| && r.resolved == |Filter(issues, HasStatus(Resolved))|
    ensures r.inProgress == |Filter(issues, HasStatus(IssueStatus.InProgress))| &&
            r.closed == |Filter(issues, HasStatus(Closed))|
    ensures r.critical == |Filter(issues, Pending(Critical))| && r.high == |Filter(issues, Pending(High))|
  {
    StatusCountsSum(issues);
    PendingBound(issues);
    Stats(|issues|,
          |Filter(issues, HasStatus(Open))|, |Filter(issues, HasStatus(IssueStatus.InProgress))|,
          |Filter(issues, HasStatus(Resolved))|, |Filter(issues, HasStatus(Closed))|,
          |Filter(issues, Pending(Critical))|, |Filter(issues, Pending(High))|)
  }
}
