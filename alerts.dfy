/** The maintenance alert engine: per vehicle, a "too long in maintenance"
    alert from the first open maintenance record and a kilometre-band alert
    from the latest odometer reading, then a stable sort by severity. */
module Alerts {
  import opened Common
  import Schema
  import opened Store
  import opened Text
  import opened VehicleReadings

  /** Milliseconds in a day. */
  const MS_PER_DAY: int := 1000 * 60 * 60 * 24
  /** More whole days than this in maintenance raise an alert. */
  const MAX_DAYS_IN_MAINTENANCE: int := 30
  /** Width of the "overdue" and "soon" kilometre bands. */
  const KM_BAND: int := 1000

  datatype AlertKind = MaintenanceOverdue | MaintenanceSoon | InMaintenanceTooLong

  datatype Severity = Critical | High | Medium | Low

  /** The sort key: critical 0, high 1, medium 2, low 3. */
  function Rank(s: Severity): nat {
    match s
    case Critical => 0
    case High => 1
    case Medium => 2
    case Low => 3
  }

  /** What the `details` text reports: whole days in maintenance, kilometres past
      the due mark, or kilometres left before it. */
  datatype Details = DaysInMaintenance(days: int) | KmAbove(kmAbove: nat) | KmRemaining(kmLeft: int)

  datatype Alert = Alert(
    vehicleId: nat,
    vehiclePrefix: string,
    vehiclePlate: string,
    kind: AlertKind,
    severity: Severity,
    details: Details,
    currentKm: Option<int>,
    nextMaintenanceKm: Option<int>,
    daysInMaintenance: Option<int>)

  /** The alert's `message`, fixed by its kind and severity: each of the four
      texts names exactly one situation. */
  function Message(a: Alert): (r: string)
    ensures r == "Viatura em manutenção há muito tempo" <==> a.kind == InMaintenanceTooLong
    ensures r == "Manutenção preventiva próxima" <==> a.kind == MaintenanceSoon
    ensures r == "Manutenção preventiva muito atrasada" <==> (a.kind == MaintenanceOverdue && a.severity == Critical)
    ensures r == "Manutenção preventiva vencida" <==> (a.kind == MaintenanceOverdue && a.severity != Critical)
  {
    match a.kind
    case InMaintenanceTooLong => "Viatura em manutenção há muito tempo"
    case MaintenanceSoon => "Manutenção preventiva próxima"
    case MaintenanceOverdue =>
      if a.severity == Critical then "Manutenção preventiva muito atrasada" else "Manutenção preventiva vencida"
  }

  /** The decimal digits of `t` read back as `n`. */
  ghost predicate ReadsAs(t: string, n: nat) {
    |t| >= 1 && (forall k :: 0 <= k < |t| ==> IsDigit(t[k])) && ParseDecimal(t) == n
  }

  /** The alert's `details` text: the number it carries, written in decimal
      inside the fixed sentence of its kind. */
  function DetailsText(d: Details): (r: string)
    ensures d.DaysInMaintenance? && d.days >= 0 ==>
      exists t :: ReadsAs(t, d.days) && r == "Em manutenção há " + t + " dias"
    ensures d.KmAbove? ==>
      exists t :: ReadsAs(t, d.kmAbove) && r == t + " km acima da próxima revisão"
    ensures d.KmRemaining? && d.kmLeft >= 0 ==>
      exists t :: ReadsAs(t, d.kmLeft) && r == "Faltam " + t + " km para a próxima revisão"
  {
    match d
    case DaysInMaintenance(days) =>
      assert days >= 0 ==> ReadsAs(IntToString(days), days) by {
        if days >= 0 { ParseNatToString(days); }
      }
      "Em manutenção há " + IntToString(days) + " dias"
    case KmAbove(km) =>
      ParseNatToString(km);
      IntToString(km) + " km acima da próxima revisão"
    case KmRemaining(km) =>
      assert km >= 0 ==> ReadsAs(IntToString(km), km) by {
        if km >= 0 { ParseNatToString(km); }
      }
      "Faltam " + IntToString(km) + " km para a próxima revisão"
  }

  /** Is the record still open: awaiting the workshop or in progress? */
  predicate IsOpen(m: Doc<Schema.MaintenanceRecord>) {
    m.fields.status == Schema.AwaitingCeman || m.fields.status == Schema.MaintenanceStatus.InProgress
  }

  /** The vehicle's first open maintenance record in insertion order. */
  function AlertMaintenance(maintenance: seq<Doc<Schema.MaintenanceRecord>>, vehicleId: nat): (r: Option<Doc<Schema.MaintenanceRecord>>)
    ensures r.Some? ==> r.value in maintenance && r.value.fields.vehicleId == vehicleId && IsOpen(r.value)
    ensures r.None? <==> forall k :: 0 <= k < |maintenance| && maintenance[k].fields.vehicleId == vehicleId ==>
      !IsOpen(maintenance[k])
    ensures r.Some? && IdsIncreasing(maintenance) ==>
      forall k :: 0 <= k < |maintenance| && maintenance[k].fields.vehicleId == vehicleId && IsOpen(maintenance[k]) ==>
        r.value.id <= maintenance[k].id
  {
    match FirstIndex(maintenance, (m: Doc<Schema.MaintenanceRecord>) => m.fields.vehicleId == vehicleId && IsOpen(m))
    case None => None
    case Some(i) =>
      assert forall k :: 0 <= k < |maintenance| && maintenance[k].fields.vehicleId == vehicleId && IsOpen(maintenance[k]) ==>
        i <= k;
      Some(maintenance[i])
  }

  /** `Math.floor(elapsed / MS_PER_DAY)`: the whole days in `elapsed` milliseconds. */
  function WholeDays(elapsed: int): (d: int)
    ensures d * MS_PER_DAY <= elapsed < (d + 1) * MS_PER_DAY
  {
    elapsed / MS_PER_DAY
  }

  function Abs(x: int): (r: nat)
    ensures r == x || r == -x
  {
    if x < 0 then -x else x
  }

  /** The duration alert: the open record was sent more than 30 whole days ago. */
  function DurationAlert(v: Doc<Schema.Vehicle>, maintenance: seq<Doc<Schema.MaintenanceRecord>>, now: int): (r: Option<Alert>)
    ensures r.Some? <==>
      var m := AlertMaintenance(maintenance, v.id);
      m.Some? && Truthy(m.value.fields.sentDate) &&
      (MAX_DAYS_IN_MAINTENANCE + 1) * MS_PER_DAY <= now - m.value.fields.sentDate.value
    ensures r.Some? ==>
      var days := (now - AlertMaintenance(maintenance, v.id).value.fields.sentDate.value) / MS_PER_DAY;
      r.value.vehicleId == v.id && r.value.kind == InMaintenanceTooLong && r.value.severity == High &&
      r.value.daysInMaintenance == Some(days) && days > MAX_DAYS_IN_MAINTENANCE &&
      r.value.details == DaysInMaintenance(days) &&
      r.value.currentKm.None? && r.value.nextMaintenanceKm.None?
  {
    match AlertMaintenance(maintenance, v.id)
    case Some(m) =>
      if Truthy(m.fields.sentDate) then
        var days := WholeDays(now - m.fields.sentDate.value);
        if days > MAX_DAYS_IN_MAINTENANCE then
          Some(Alert(v.id, v.fields.operationalPrefix, v.fields.plate, InMaintenanceTooLong, High,
                     DaysInMaintenance(days), None, None, Some(days)))
        else None
      else None
    case None => None
  }

  /** The kilometre alert from `nextMaintenanceKm - currentKm`. */
  function KmAlert(v: Doc<Schema.Vehicle>, readings: seq<Doc<Schema.Reading>>): (r: Option<Alert>)
    ensures !Truthy(v.fields.nextMaintenanceKm) || GetLatest(readings, v.id).None? ==> r.None?
    ensures Truthy(v.fields.nextMaintenanceKm) && GetLatest(readings, v.id).Some? ==>
      var current := GetLatest(readings, v.id).value.fields.kmReading;
      var next := v.fields.nextMaintenanceKm.value;
      var d := next - current;
      (r.None? <==> d > KM_BAND) &&
      (r.Some? ==>
        r.value.vehicleId == v.id && r.value.currentKm == Some(current) &&
        r.value.nextMaintenanceKm == Some(next) && r.value.daysInMaintenance.None? &&
        (d < 0 ==> r.value.details == KmAbove(-d)) && (0 <= d ==> r.value.details == KmRemaining(d)) &&
        (d < -KM_BAND ==> r.value.kind == MaintenanceOverdue && r.value.severity == Critical) &&
        (-KM_BAND <= d < 0 ==> r.value.kind == MaintenanceOverdue && r.value.severity == High) &&
        (0 <= d <= KM_BAND ==> r.value.kind == MaintenanceSoon && r.value.severity == Medium))
  {
    if !Truthy(v.fields.nextMaintenanceKm) then None
    else match GetLatest(readings, v.id)
      case None => None
      case Some(latest) =>
        var current := latest.fields.kmReading;
        var next := v.fields.nextMaintenanceKm.value;
        var d := next - current;
        if d < -KM_BAND then
          Some(Alert(v.id, v.fields.operationalPrefix, v.fields.plate, MaintenanceOverdue, Critical,
                     KmAbove(Abs(d)), Some(current), Some(next), None))
        else if d < 0 then
          Some(Alert(v.id, v.fields.operationalPrefix, v.fields.plate, MaintenanceOverdue, High,
                     KmAbove(Abs(d)), Some(current), Some(next), None))
        else if d <= KM_BAND then
          Some(Alert(v.id, v.fields.operationalPrefix, v.fields.plate, MaintenanceSoon, Medium,
                     KmRemaining(d), Some(current), Some(next), None))
        else None
  }

  function OptionToSeq<T>(o: Option<T>): seq<T> {
    if o.Some? then [o.value] else []
  }

  /** One vehicle's alerts, in the order the loop body pushes them. */
  function VehicleAlerts(v: Doc<Schema.Vehicle>, maintenance: seq<Doc<Schema.MaintenanceRecord>>,
                         readings: seq<Doc<Schema.Reading>>, now: int): (r: seq<Alert>)
    ensures |r| <= 2
    ensures forall k :: 0 <= k < |r| ==> r[k].vehicleId == v.id && r[k].severity != Low
  {
    OptionToSeq(DurationAlert(v, maintenance, now)) + OptionToSeq(KmAlert(v, readings))
  }

  /** The alerts accumulated over the vehicles, before sorting. */
  function AllAlerts(vehicles: seq<Doc<Schema.Vehicle>>, maintenance: seq<Doc<Schema.MaintenanceRecord>>,
                     readings: seq<Doc<Schema.Reading>>, now: int): (r: seq<Alert>)
    ensures |r| <= 2 * |vehicles|
    ensures forall k :: 0 <= k < |r| ==> r[k].severity != Low
  {
    if vehicles == [] then []
    else
      var n := |vehicles| - 1;
      AllAlerts(vehicles[..n], maintenance, readings, now) + VehicleAlerts(vehicles[n], maintenance, readings, now)
  }

  /** The alerts of the first `i + 1` vehicles extend those of the first `i`. */
  lemma AllAlertsSnoc(vehicles: seq<Doc<Schema.Vehicle>>, i: nat, maintenance: seq<Doc<Schema.MaintenanceRecord>>,
                      readings: seq<Doc<Schema.Reading>>, now: int)
    requires i < |vehicles|
    ensures AllAlerts(vehicles[..i + 1], maintenance, readings, now) ==
            AllAlerts(vehicles[..i], maintenance, readings, now) + VehicleAlerts(vehicles[i], maintenance, readings, now)
  {
    assert vehicles[..i + 1][..i] == vehicles[..i];
  }

  /** The alerts of one severity, in their original order (`filter` on the severity). */
  function OfSeverity(s: seq<Alert>, sev: Severity): (r: seq<Alert>)
    ensures |r| <= |s|
    ensures forall k :: 0 <= k < |r| ==> r[k].severity == sev
  {
    if s == [] then []
    else OfSeverity(s[..|s| - 1], sev) + (if s[|s| - 1].severity == sev then [s[|s| - 1]] else [])
  }

  /** The stable sort by rank, as the concatenation of the four severity buckets. */
  function SortBySeverity(s: seq<Alert>): seq<Alert> {
    OfSeverity(s, Critical) + OfSeverity(s, High) + OfSeverity(s, Medium) + OfSeverity(s, Low)
  }

  ghost predicate RankSorted(s: seq<Alert>) {
    forall i, j :: 0 <= i < j < |s| ==> Rank(s[i].severity) <= Rank(s[j].severity)
  }

  /** Appending one alert extends the bucket of its severity only. */
  lemma Snoc(s: seq<Alert>, x: Alert, sev: Severity)
    ensures OfSeverity(s + [x], sev) == OfSeverity(s, sev) + (if x.severity == sev then [x] else [])
  {
    assert (s + [x])[..|s|] == s;
  }

  /** A bucket of a concatenation is the concatenation of the buckets. */
  lemma {:induction false} AppendBuckets(a: seq<Alert>, b: seq<Alert>, sev: Severity)
    ensures OfSeverity(a + b, sev) == OfSeverity(a, sev) + OfSeverity(b, sev)
    decreases |b|
  {
    if b == [] {
      assert a + b == a;
    } else {
      var b', y := b[..|b| - 1], b[|b| - 1];
      assert a + b == (a + b') + [y];
      assert b == b' + [y];
      AppendBuckets(a, b', sev);
      Snoc(a + b', y, sev);
      Snoc(b', y, sev);
    }
  }

  /** A bucket of a sequence lacking that severity is empty. */
  lemma {:induction false} EmptyBucket(s: seq<Alert>, sev: Severity)
    ensures (forall k :: 0 <= k < |s| ==> s[k].severity != sev) ==> OfSeverity(s, sev) == []
  {
    if s != [] {
      EmptyBucket(s[..|s| - 1], sev);
    }
  }

  /** A bucket of a bucket: the same bucket, or nothing. */
  lemma {:induction false} BucketOfBucket(s: seq<Alert>, sev: Severity, other: Severity)
    ensures OfSeverity(OfSeverity(s, other), sev) == if other == sev then OfSeverity(s, sev) else []
  {
    if s != [] {
      var s', x := s[..|s| - 1], s[|s| - 1];
      BucketOfBucket(s', sev, other);
      var tail := if x.severity == other then [x] else [];
      AppendBuckets(OfSeverity(s', other), tail, sev);
      if x.severity == other {
        Snoc([], x, sev);
        assert tail == [] + [x];
      }
    }
  }

  /** Sorting keeps exactly the alerts it was given. */
  lemma {:induction false} SortBySeverityPermutes(s: seq<Alert>)
    ensures multiset(SortBySeverity(s)) == multiset(s)
  {
    if s != [] {
      var n := |s| - 1;
      var s', x := s[..n], s[n];
      assert s == s' + [x];
      SortBySeverityPermutes(s');
      PermutesStep(s', x);
    }
  }

  lemma PermutesStep(s: seq<Alert>, x: Alert)
    ensures multiset(SortBySeverity(s + [x])) == multiset(SortBySeverity(s)) + multiset{x}
  {
    var t := s + [x];
    BucketStep(s, x, Critical);
    BucketStep(s, x, High);
    BucketStep(s, x, Medium);
    BucketStep(s, x, Low);
    assert multiset(SortBySeverity(t)) == multiset(OfSeverity(t, Critical)) + multiset(OfSeverity(t, High)) +
      multiset(OfSeverity(t, Medium)) + multiset(OfSeverity(t, Low));
    assert multiset(SortBySeverity(s)) == multiset(OfSeverity(s, Critical)) + multiset(OfSeverity(s, High)) +
      multiset(OfSeverity(s, Medium)) + multiset(OfSeverity(s, Low));
    SumStep(multiset(OfSeverity(s, Critical)), multiset(OfSeverity(s, High)), multiset(OfSeverity(s, Medium)),
      multiset(OfSeverity(s, Low)), multiset(OfSeverity(t, Critical)), multiset(OfSeverity(t, High)),
      multiset(OfSeverity(t, Medium)), multiset(OfSeverity(t, Low)), x);
  }

  /** Adding an alert to the bucket of its severity adds it to the union. */
  lemma SumStep(m0: multiset<Alert>, m1: multiset<Alert>, m2: multiset<Alert>, m3: multiset<Alert>,
                n0: multiset<Alert>, n1: multiset<Alert>, n2: multiset<Alert>, n3: multiset<Alert>, x: Alert)
    requires n0 == m0 + if x.severity == Critical then multiset{x} else multiset{}
    requires n1 == m1 + if x.severity == High then multiset{x} else multiset{}
    requires n2 == m2 + if x.severity == Medium then multiset{x} else multiset{}
    requires n3 == m3 + if x.severity == Low then multiset{x} else multiset{}
    ensures n0 + n1 + n2 + n3 == m0 + m1 + m2 + m3 + multiset{x}
  {
  }

  /** Appending an alert adds it to the elements of its own bucket only. */
  lemma BucketStep(s: seq<Alert>, x: Alert, sev: Severity)
    ensures multiset(OfSeverity(s + [x], sev)) ==
      multiset(OfSeverity(s, sev)) + if x.severity == sev then multiset{x} else multiset{}
  {
    Snoc(s, x, sev);
  }

  /** A bucket of four concatenated sequences. */
  lemma AppendBuckets4(b0: seq<Alert>, b1: seq<Alert>, b2: seq<Alert>, b3: seq<Alert>, sev: Severity)
    ensures OfSeverity(b0 + b1 + b2 + b3, sev) ==
            OfSeverity(b0, sev) + OfSeverity(b1, sev) + OfSeverity(b2, sev) + OfSeverity(b3, sev)
  {
    AppendBuckets(b0 + b1 + b2, b3, sev);
    AppendBuckets(b0 + b1, b2, sev);
    AppendBuckets(b0, b1, sev);
  }

  /** The sorted list has the input's buckets: alerts of equal severity keep their order. */
  lemma SortBySeverityStable(s: seq<Alert>, sev: Severity)
    ensures OfSeverity(SortBySeverity(s), sev) == OfSeverity(s, sev)
  {
    var b0, b1, b2, b3 := OfSeverity(s, Critical), OfSeverity(s, High), OfSeverity(s, Medium), OfSeverity(s, Low);
    var c0, c1, c2, c3 := OfSeverity(b0, sev), OfSeverity(b1, sev), OfSeverity(b2, sev), OfSeverity(b3, sev);
    AppendBuckets4(b0, b1, b2, b3, sev);
    assert c0 == if sev == Critical then b0 else [] by { BucketOfBucket(s, sev, Critical); }
    assert c1 == if sev == High then b1 else [] by { BucketOfBucket(s, sev, High); }
    assert c2 == if sev == Medium then b2 else [] by { BucketOfBucket(s, sev, Medium); }
    assert c3 == if sev == Low then b3 else [] by { BucketOfBucket(s, sev, Low); }
    assert OfSeverity(SortBySeverity(s), sev) == c0 + c1 + c2 + c3;
  }

  /** The concatenation of the buckets is ordered by rank. */
  lemma SortBySeveritySorted(s: seq<Alert>)
    ensures RankSorted(SortBySeverity(s))
  {
    var b0, b1, b2, b3 := OfSeverity(s, Critical), OfSeverity(s, High), OfSeverity(s, Medium), OfSeverity(s, Low);
    var r := b0 + b1 + b2 + b3;
    forall i, j | 0 <= i < j < |r| ensures Rank(r[i].severity) <= Rank(r[j].severity) {
      assert r[i].severity == if i < |b0| then Critical else if i < |b0| + |b1| then High
        else if i < |b0| + |b1| + |b2| then Medium else Low;
      assert r[j].severity == if j < |b0| then Critical else if j < |b0| + |b1| then High
        else if j < |b0| + |b1| + |b2| then Medium else Low;
    }
  }

  /** One pass of the sort: appends the alerts of one severity, in order. */
  method AppendBucket(out: seq<Alert>, src: seq<Alert>, sev: Severity) returns (r: seq<Alert>)
    ensures r == out + OfSeverity(src, sev)
  {
    r := out;
    for i := 0 to |src|
      invariant r == out + OfSeverity(src[..i], sev)
    {
      assert src[..i + 1] == src[..i] + [src[i]];
      Snoc(src[..i], src[i], sev);
      if src[i].severity == sev {
        r := r + [src[i]];
      }
    }
    assert src[..|src|] == src;
  }

  /** `alerts.sort(by severity rank)`: a stable sort, in place, here by one pass per
      severity in rank order. */
  method SortInPlace(a: array<Alert>)
    modifies a
    ensures a[..] == SortBySeverity(old(a[..]))
  {
    var src := a[..];
    var out := AppendBucket([], src, Critical);
    out := AppendBucket(out, src, High);
    out := AppendBucket(out, src, Medium);
    out := AppendBucket(out, src, Low);
    assert out == SortBySeverity(src);
    BucketSizes(src);
    forall k | 0 <= k < a.Length {
      a[k] := out[k];
    }
    assert a[..] == out;
  }

  /** The loop of `calculateMaintenanceAlerts`: each vehicle's alerts pushed in vehicle order. */
  method AccumulateAlerts(vehicles: seq<Doc<Schema.Vehicle>>, maintenance: seq<Doc<Schema.MaintenanceRecord>>,
                          readings: seq<Doc<Schema.Reading>>, now: int)
    returns (acc: seq<Alert>)
    ensures acc == AllAlerts(vehicles, maintenance, readings, now)
  {
    acc := [];
    for i := 0 to |vehicles|
      invariant acc == AllAlerts(vehicles[..i], maintenance, readings, now)
    {
      var v := vehicles[i];
      ghost var before := acc;
      var duration := DurationAlert(v, maintenance, now);
      if duration.Some? {
        acc := acc + [duration.value];
      }
      assert acc == before + OptionToSeq(duration);
      var km := KmAlert(v, readings);
      if km.Some? {
        acc := acc + [km.value];
      }
      assert acc == (before + OptionToSeq(duration)) + OptionToSeq(km);
      AppendAssoc(before, OptionToSeq(duration), OptionToSeq(km));
      AllAlertsSnoc(vehicles, i, maintenance, readings, now);
    }
    assert vehicles[..|vehicles|] == vehicles;
  }

  /** `calculateMaintenanceAlerts`: the accumulated alerts, sorted by severity. */
  method CalculateMaintenanceAlerts(vehicles: seq<Doc<Schema.Vehicle>>, maintenance: seq<Doc<Schema.MaintenanceRecord>>,
                                    readings: seq<Doc<Schema.Reading>>, now: int)
    returns (alerts: seq<Alert>)
    ensures alerts == SortBySeverity(AllAlerts(vehicles, maintenance, readings, now))
    ensures RankSorted(alerts)
    ensures multiset(alerts) == multiset(AllAlerts(vehicles, maintenance, readings, now))
    ensures |alerts| <= 2 * |vehicles|
  {
    var acc := AccumulateAlerts(vehicles, maintenance, readings, now);
    var a := new Alert[|acc|](k requires 0 <= k < |acc| => acc[k]);
    assert a[..] == acc;
    SortInPlace(a);
    alerts := a[..];
    SortBySeveritySorted(acc);
    SortBySeverityPermutes(acc);
  }

  datatype Summary = Summary(total: nat, critical: nat, high: nat, medium: nat, hasAlerts: bool)

  /** The bucket sizes add up to the length. */
  lemma BucketSizes(s: seq<Alert>)
    ensures |OfSeverity(s, Critical)| + |OfSeverity(s, High)| + |OfSeverity(s, Medium)| + |OfSeverity(s, Low)| == |s|
  {
    SortBySeverityPermutes(s);
    assert |SortBySeverity(s)| == |multiset(SortBySeverity(s))| == |multiset(s)| == |s|;
  }

  /** The counts of `getAlertsSummary`. With no low alert the three counts make the total. */
  function Summarize(alerts: seq<Alert>): (r: Summary)
    ensures r.total == |alerts| && (r.hasAlerts <==> |alerts| > 0)
    ensures r.critical == |OfSeverity(alerts, Critical)| && r.high == |OfSeverity(alerts, High)| &&
      r.medium == |OfSeverity(alerts, Medium)|
    ensures r.critical + r.high + r.medium <= r.total
    ensures (forall k :: 0 <= k < |alerts| ==> alerts[k].severity != Low) ==>
      r.critical + r.high + r.medium == r.total
  {
    BucketSizes(alerts);
    EmptyBucket(alerts, Low);
    Summary(|alerts|, |OfSeverity(alerts, Critical)|, |OfSeverity(alerts, High)|, |OfSeverity(alerts, Medium)|,
            |alerts| > 0)
  }

  /** `getAlertsSummary`: every alert is critical, high or medium, and each count is
      that severity's count among the accumulated alerts. */
  method GetAlertsSummary(vehicles: seq<Doc<Schema.Vehicle>>, maintenance: seq<Doc<Schema.MaintenanceRecord>>,
                          readings: seq<Doc<Schema.Reading>>, now: int)
    returns (r: Summary)
    ensures var all := AllAlerts(vehicles, maintenance, readings, now);
      r.total == |all| && r.critical == |OfSeverity(all, Critical)| &&
      r.high == |OfSeverity(all, High)| && r.medium == |OfSeverity(all, Medium)|
    ensures r.critical + r.high + r.medium == r.total
    ensures r.hasAlerts <==> r.total > 0
  {
    var alerts := CalculateMaintenanceAlerts(vehicles, maintenance, readings, now);
    var all := AllAlerts(vehicles, maintenance, readings, now);
    SortBySeverityStable(all, Critical);
    SortBySeverityStable(all, High);
    SortBySeverityStable(all, Medium);
    assert forall k :: 0 <= k < |alerts| ==> alerts[k].severity != Low by {
      forall k | 0 <= k < |alerts| ensures alerts[k].severity != Low {
        assert alerts[k] in multiset(all);
      }
    }
    r := Summarize(alerts);
  }
}
