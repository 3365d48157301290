/**
 * The working-day evaluation route (`GET /api/jornadas`): every entry row is judged against the
 * active shift parameters and paired with a same-day exit, the results are kept in a map keyed
 * by employee and day, and that map is folded into per-employee statistics.
 */
module Jornadas {
  import opened Wrappers
  import opened Text
  import opened Seqs
  import opened Clock
  import opened Records
  import opened Parametros

  const NoExitText := "Sin registro"
  const NoParamsMessage := "No se encontraron parámetros de jornada activos"

  /** The expected entry and exit texts read as `HH:MM`; where they do not, the route computes with `NaN`. */
  predicate ShiftTimesParse(p: ShiftParams)
  {
    ClockMinutes(p.expectedEntry).Some? && ClockMinutes(p.expectedExit).Some?
  }

  function ExpectedEntry(p: ShiftParams): int
    requires ShiftTimesParse(p)
  {
    ClockMinutes(p.expectedEntry).value
  }

  function ExpectedExit(p: ShiftParams): int
    requires ShiftTimesParse(p)
  {
    ClockMinutes(p.expectedExit).value
  }

  /** `Math.max(0, actual - (expected + tolerance))`: the minutes past the tolerated arrival. */
  function MinutesLate(actual: int, expected: int, tolerance: int): (r: int)
    ensures r >= 0
    ensures r > 0 <==> actual > expected + tolerance
    ensures r > 0 ==> r == actual - (expected + tolerance)
  {
    if actual - (expected + tolerance) > 0 then actual - (expected + tolerance) else 0
  }

  /** `Math.max(0, expected - actual)`: the minutes left before the expected exit. */
  function MinutesEarly(actual: int, expected: int): (r: int)
    ensures r >= 0
    ensures r > 0 <==> actual < expected
    ensures r > 0 ==> r == expected - actual
  {
    if expected - actual > 0 then expected - actual else 0
  }

  /**
   * `Number((minutes / 60).toFixed(2))` in hundredths of an hour. The exact value is
   * `5 * minutes / 3` hundredths, never half-way between two integers, so the result is within a third of it.
   */
  function HoursHundredths(minutes: int): (r: int)
    ensures -1 <= 3 * r - 5 * minutes <= 1
  {
    (5 * minutes + 1) / 3
  }

  function Abs(x: int): nat
  {
    if x < 0 then -x else x
  }

  /** No number of hundredths lies closer to the exact hours than the one chosen: it is the rounding to nearest. */
  lemma HoursNearest(minutes: int, h: int)
    ensures Abs(3 * HoursHundredths(minutes) - 5 * minutes) <= Abs(3 * h - 5 * minutes)
  {
    var r := HoursHundredths(minutes);
    assert 3 * h - 5 * minutes == 3 * (h - r) + (3 * r - 5 * minutes);
  }

  /** A whole number of three-minute steps is stored exactly. */
  lemma HoursExact(minutes: int)
    requires minutes % 3 == 0
    ensures 3 * HoursHundredths(minutes) == 5 * minutes
  {
    var q, r := minutes / 3, HoursHundredths(minutes);
    assert 3 * r - 5 * minutes == 3 * (r - 5 * q);
  }

  /** One entry of `jornadasPorEmpleado`: an employee's day as the route reports it. */
  datatype DayRecord = DayRecord(
    employee: int,
    day: int,
    entryClock: TimeOfDay,
    exitClock: Option<TimeOfDay>,
    late: bool,
    early: bool,
    minutesLate: int,
    minutesEarly: int,
    hoursHundredths: int,
    meetsShift: bool)
  {
    function Hours(): real
    {
      hoursHundredths as real / 100.0
    }

    /** `hora_entrada`, the `HH:MM:SS` of the entry: it reads back as the entry's minutes since midnight. */
    function EntryText(): (t: string)
      requires entryClock.Valid()
      ensures |t| == 8 && t[2] == ':' && t[5] == ':'
      ensures t[..2] == Pad2(entryClock.hour) && t[3..5] == Pad2(entryClock.minute) && t[6..] == Pad2(entryClock.second)
      ensures ClockMinutes(t) == Some(entryClock.Minutes())
    {
      ClockMinutesOfFormat(entryClock);
      FormatClockFields(entryClock);
      FormatClock(entryClock)
    }

    /** `hora_salida`: the `HH:MM:SS` of the exit, or "Sin registro" when there is none. */
    function ExitText(): (t: string)
      requires exitClock.Some? ==> exitClock.value.Valid()
      ensures t == NoExitText <==> exitClock.None?
    {
      if exitClock.None? then NoExitText else FormatClock(exitClock.value)
    }
  }

  /** The key `${id_empleado}-${fechaKey}`: the employee and the UTC day of `fecha_entrada`. */
  function EntryKey(e: Punch): StatsKey
  {
    (e.employee, DayOf(e.fecha))
  }

  function SameDayExit(employee: int, day: int): Punch -> bool
  {
    (s: Punch) => s.employee == employee && DayOf(s.fecha) == day
  }

  /** `salidas.find(...)`: the first exit row of the employee whose `fecha_salida` falls on the day. */
  function FindExit(salidas: seq<Punch>, employee: int, day: int): (r: Option<Punch>)
    ensures r.Some? ==> exists i :: (0 <= i < |salidas| && salidas[i] == r.value
      && salidas[i].employee == employee && DayOf(salidas[i].fecha) == day
      && forall j :: 0 <= j < i ==> !(salidas[j].employee == employee && DayOf(salidas[j].fecha) == day))
    ensures r.None? <==> forall j :: 0 <= j < |salidas| ==> !(salidas[j].employee == employee && DayOf(salidas[j].fecha) == day)
  {
    First(salidas, SameDayExit(employee, day))
  }

  /**
   * The body of the `entradas.forEach` callback for one entry row. The clock readings are the
   * minutes of the `HH:MM:SS` texts, seconds dropped (`TimeTextMinutes`).
   */
  function EvaluateEntry(e: Punch, salidas: seq<Punch>, p: ShiftParams): (r: DayRecord)
    requires ShiftTimesParse(p)
    ensures r.employee == e.employee && r.day == DayOf(e.fecha) && r.entryClock == TimeOf(e.hora)
    ensures r.minutesLate >= 0 && (r.late <==> r.minutesLate > 0)
    ensures r.late <==> TimeOf(e.hora).Minutes() > ExpectedEntry(p) + p.tolerance
    ensures r.late ==> r.minutesLate == TimeOf(e.hora).Minutes() - (ExpectedEntry(p) + p.tolerance)
    ensures FindExit(salidas, e.employee, DayOf(e.fecha)).None? ==>
      r.exitClock.None? && r.hoursHundredths == 0 && r.minutesEarly == 0 && !r.early
    ensures FindExit(salidas, e.employee, DayOf(e.fecha)).Some? ==>
      var x := FindExit(salidas, e.employee, DayOf(e.fecha)).value;
      && r.exitClock == Some(TimeOf(x.hora))
      && -1 <= 3 * r.hoursHundredths - 5 * (TimeOf(x.hora).Minutes() - TimeOf(e.hora).Minutes()) <= 1
      && r.minutesEarly >= 0
      && (r.minutesEarly > 0 <==> TimeOf(x.hora).Minutes() < ExpectedExit(p))
      && (r.minutesEarly > 0 ==> r.minutesEarly == ExpectedExit(p) - TimeOf(x.hora).Minutes())
      && (r.early <==> r.minutesEarly > p.tolerance)
    ensures r.meetsShift <==> r.Hours() >= p.requiredHours && !r.late && !r.early
  {
    var day := DayOf(e.fecha);
    var entryMinutes := TimeOf(e.hora).Minutes();
    var minutesLate := MinutesLate(entryMinutes, ExpectedEntry(p), p.tolerance);
    var late := minutesLate > 0;
    var (exitClock, hours, minutesEarly, early) :=
      match FindExit(salidas, e.employee, day)
      case None => (None, 0, 0, false)
      case Some(x) =>
        var exitMinutes := TimeOf(x.hora).Minutes();
        var early := MinutesEarly(exitMinutes, ExpectedExit(p));
        (Some(TimeOf(x.hora)), HoursHundredths(exitMinutes - entryMinutes), early, early > p.tolerance);
    var r := DayRecord(e.employee, day, TimeOf(e.hora), exitClock, late, early, minutesLate, minutesEarly, hours, false);
    r.(meetsShift := r.Hours() >= p.requiredHours && !late && !early)
  }

  /** An arrival exactly at the tolerated time is on time; one minute later is late by one minute. */
  lemma ToleranceBoundary(expected: int, tolerance: int)
    ensures MinutesLate(expected + tolerance, expected, tolerance) == 0
    ensures MinutesLate(expected + tolerance + 1, expected, tolerance) == 1
  {
  }

  /** Leaving early by exactly the tolerance is not an early departure: the threshold is strict and not offset. */
  lemma EarlyThreshold(e: Punch, salidas: seq<Punch>, p: ShiftParams)
    requires ShiftTimesParse(p) && p.tolerance > 0
    requires FindExit(salidas, e.employee, DayOf(e.fecha)).Some?
    requires TimeOf(FindExit(salidas, e.employee, DayOf(e.fecha)).value.hora).Minutes() == ExpectedExit(p) - p.tolerance
    ensures !EvaluateEntry(e, salidas, p).early && EvaluateEntry(e, salidas, p).minutesEarly == p.tolerance
  {
  }

  /** A late arrival or an early departure never meets the shift, whatever the hours. */
  lemma LateOrEarlyFails(e: Punch, salidas: seq<Punch>, p: ShiftParams)
    requires ShiftTimesParse(p)
    requires TimeOf(e.hora).Minutes() > ExpectedEntry(p) + p.tolerance || EvaluateEntry(e, salidas, p).early
    ensures !EvaluateEntry(e, salidas, p).meetsShift
  {
  }

  /**
   * `jornadasPorEmpleado`, a JavaScript `Map`: its keys in insertion order and the record under
   * each key.
   */
  datatype Evaluation = Evaluation(order: seq<StatsKey>, records: map<StatsKey, DayRecord>)
  {
    /** Every key is listed once, and the listed keys are exactly the keys with a record. */
    predicate Valid()
    {
      && (forall i, j :: 0 <= i < j < |order| ==> order[i] != order[j])
      && (forall i :: 0 <= i < |order| ==> order[i] in records)
      && (forall k :: k in records ==> k in order)
    }

    /** `Map.prototype.set`: a new key goes last, an existing key keeps its place and takes the new value. */
    function Set(k: StatsKey, v: DayRecord): (r: Evaluation)
      ensures r.records == records[k := v]
      ensures Valid() ==> r.Valid() && |r.order| == |order| + (if k in records then 0 else 1)
      ensures |r.order| >= |order| && forall i :: 0 <= i < |order| ==> r.order[i] == order[i]
    {
      Evaluation(if k in records then order else order + [k], records[k := v])
    }

    /** `Array.from(map.values())`. */
    function Values(): (r: seq<DayRecord>)
      requires forall i :: 0 <= i < |order| ==> order[i] in records
      ensures |r| == |order| && forall i :: 0 <= i < |order| ==> r[i] == records[order[i]]
    {
      seq(|order|, i requires 0 <= i < |order| => records[order[i]])
    }
  }

  const EmptyMap := Evaluation([], map[])

  /**
   * The fold the `entradas.forEach` loop performs over a prefix of the entry rows: the map it has
   * built, and `llegadasTardeHoy`, the number of late entries whose day is `today`.
   */
  function EvaluateAll(es: seq<Punch>, salidas: seq<Punch>, p: ShiftParams, today: int): (Evaluation, nat)
    requires ShiftTimesParse(p)
    decreases |es|
  {
    if |es| == 0 then (EmptyMap, 0)
    else
      var acc := EvaluateAll(es[..|es| - 1], salidas, p, today);
      var e := es[|es| - 1];
      var rec := EvaluateEntry(e, salidas, p);
      (acc.0.Set(EntryKey(e), rec), if rec.late && DayOf(e.fecha) == today then acc.1 + 1 else acc.1)
  }

  /** One more entry row: one more `set`, and one more late arrival today when it is one. */
  lemma EvaluateAllSnoc(es: seq<Punch>, e: Punch, salidas: seq<Punch>, p: ShiftParams, today: int)
    requires ShiftTimesParse(p)
    ensures EvaluateAll(es + [e], salidas, p, today).0
      == EvaluateAll(es, salidas, p, today).0.Set(EntryKey(e), EvaluateEntry(e, salidas, p))
    ensures EvaluateAll(es + [e], salidas, p, today).1
      == EvaluateAll(es, salidas, p, today).1 + if EvaluateEntry(e, salidas, p).late && DayOf(e.fecha) == today then 1 else 0
  {
    var xs := es + [e];
    assert xs[..|es|] == es;
    assert xs[|xs| - 1] == e;
  }

  lemma EvaluateAllPrefix(es: seq<Punch>, i: nat, salidas: seq<Punch>, p: ShiftParams, today: int)
    requires ShiftTimesParse(p) && i < |es|
    ensures EvaluateAll(es[..i + 1], salidas, p, today).0
      == EvaluateAll(es[..i], salidas, p, today).0.Set(EntryKey(es[i]), EvaluateEntry(es[i], salidas, p))
    ensures EvaluateAll(es[..i + 1], salidas, p, today).1
      == EvaluateAll(es[..i], salidas, p, today).1 + if EvaluateEntry(es[i], salidas, p).late && DayOf(es[i].fecha) == today then 1 else 0
  {
    assert es[..i + 1][..i] == es[..i];
    assert es[..i + 1][i] == es[i];
  }

  /** The entry loop: one `set` per row, a later row of the same key overwriting the earlier one. */
  method EvaluateEntries(entradas: seq<Punch>, salidas: seq<Punch>, p: ShiftParams, today: int)
    returns (jornadas: Evaluation, lateToday: nat)
    requires ShiftTimesParse(p)
    ensures jornadas == EvaluateAll(entradas, salidas, p, today).0
    ensures lateToday == EvaluateAll(entradas, salidas, p, today).1
  {
    jornadas, lateToday := EmptyMap, 0;
    var i := 0;
    while i < |entradas|
      invariant 0 <= i <= |entradas|
      invariant jornadas == EvaluateAll(entradas[..i], salidas, p, today).0
      invariant lateToday == EvaluateAll(entradas[..i], salidas, p, today).1
    {
      var e := entradas[i];
      EvaluateAllPrefix(entradas, i, salidas, p, today);
      var rec := EvaluateEntry(e, salidas, p);
      if rec.late && DayOf(e.fecha) == today {
        lateToday := lateToday + 1;
      }
      jornadas := jornadas.Set(EntryKey(e), rec);
      i := i + 1;
    }
    assert entradas[..i] == entradas;
  }

  /** The keys the entry rows carry. */
  function EntryKeys(es: seq<Punch>): set<StatsKey>
  {
    set i | 0 <= i < |es| :: EntryKey(es[i])
  }

  lemma EntryKeysSnoc(ps: seq<Punch>, e: Punch)
    ensures EntryKeys(ps + [e]) == EntryKeys(ps) + {EntryKey(e)}
  {
    var es := ps + [e];
    assert EntryKey(es[|ps|]) in EntryKeys(es);
    forall k | k in EntryKeys(es)
      ensures k in EntryKeys(ps) + {EntryKey(e)}
    {
      var i :| 0 <= i < |es| && EntryKey(es[i]) == k;
      if i < |ps| {
        assert es[i] == ps[i];
      }
    }
    forall k | k in EntryKeys(ps)
      ensures k in EntryKeys(es)
    {
      var i :| 0 <= i < |ps| && EntryKey(ps[i]) == k;
      assert es[i] == ps[i];
    }
  }

  /** The map is well formed and holds no more records than there are entry rows; no more late arrivals today than rows either. */
  lemma {:induction false} EvaluateAllValid(es: seq<Punch>, salidas: seq<Punch>, p: ShiftParams, today: int)
    requires ShiftTimesParse(p)
    ensures EvaluateAll(es, salidas, p, today).0.Valid()
    ensures |EvaluateAll(es, salidas, p, today).0.order| <= |es|
    ensures EvaluateAll(es, salidas, p, today).1 <= |es|
    decreases |es|
  {
    if |es| > 0 {
      var n := |es| - 1;
      EvaluateAllValid(es[..n], salidas, p, today);
      EvaluateAllPrefix(es, n, salidas, p, today);
      assert es[..n + 1] == es;
    }
  }

  /** The map holds a record exactly for the keys the entry rows carry. */
  lemma {:induction false} EvaluateAllDomain(es: seq<Punch>, salidas: seq<Punch>, p: ShiftParams, today: int)
    requires ShiftTimesParse(p)
    ensures EvaluateAll(es, salidas, p, today).0.records.Keys == EntryKeys(es)
    decreases |es|
  {
    if |es| > 0 {
      var n := |es| - 1;
      var ps, e := es[..n], es[n];
      EvaluateAllDomain(ps, salidas, p, today);
      assert es == ps + [e];
      EvaluateAllSnoc(ps, e, salidas, p, today);
      EntryKeysSnoc(ps, e);
      var prev := EvaluateAll(ps, salidas, p, today).0;
      assert EvaluateAll(es, salidas, p, today).0.records == prev.records[EntryKey(e) := EvaluateEntry(e, salidas, p)];
    }
  }

  /** Every record is filed under its own employee and day. */
  lemma {:induction false} EvaluateAllFiled(es: seq<Punch>, salidas: seq<Punch>, p: ShiftParams, today: int)
    requires ShiftTimesParse(p)
    ensures var m := EvaluateAll(es, salidas, p, today).0.records;
      forall k :: k in m ==> m[k].employee == k.0 && m[k].day == k.1
    decreases |es|
  {
    if |es| > 0 {
      var n := |es| - 1;
      EvaluateAllFiled(es[..n], salidas, p, today);
      EvaluateAllPrefix(es, n, salidas, p, today);
      assert es[..n + 1] == es;
    }
  }

  /** The record under a key is the evaluation of the last entry row with that key. */
  lemma {:induction false} EvaluateAllLast(es: seq<Punch>, salidas: seq<Punch>, p: ShiftParams, today: int, i: nat)
    requires ShiftTimesParse(p)
    requires i < |es|
    requires forall j :: i < j < |es| ==> EntryKey(es[j]) != EntryKey(es[i])
    ensures EntryKey(es[i]) in EvaluateAll(es, salidas, p, today).0.records
    ensures EvaluateAll(es, salidas, p, today).0.records[EntryKey(es[i])] == EvaluateEntry(es[i], salidas, p)
    decreases |es|
  {
    var ps, e := es[..|es| - 1], es[|es| - 1];
    assert es == ps + [e];
    EvaluateAllSnoc(ps, e, salidas, p, today);
    if i < |es| - 1 {
      assert ps[i] == es[i];
      EvaluateAllLast(ps, salidas, p, today, i);
    }
  }

  /** Two entry rows of one employee on one day leave a single record: the later one's. */
  lemma DuplicateEntryOverwrites(es: seq<Punch>, salidas: seq<Punch>, p: ShiftParams, today: int, a: Punch, b: Punch)
    requires ShiftTimesParse(p)
    requires EntryKey(a) == EntryKey(b)
    ensures var m := EvaluateAll(es + [a, b], salidas, p, today).0;
      && m.records[EntryKey(a)] == EvaluateEntry(b, salidas, p)
      && |m.order| <= |es| + 1
  {
    var m0 := EvaluateAll(es, salidas, p, today).0;
    var m1 := m0.Set(EntryKey(a), EvaluateEntry(a, salidas, p));
    var m2 := m1.Set(EntryKey(b), EvaluateEntry(b, salidas, p));
    assert EvaluateAll(es + [a, b], salidas, p, today).0 == m2 by {
      assert es + [a, b] == (es + [a]) + [b];
      EvaluateAllSnoc(es + [a], b, salidas, p, today);
      EvaluateAllSnoc(es, a, salidas, p, today);
    }
    EvaluateAllValid(es, salidas, p, today);
    SetTwice(m0, EntryKey(a), EvaluateEntry(a, salidas, p), EvaluateEntry(b, salidas, p));
  }

  /** Setting one key twice leaves the second value, and adds at most one key to the order. */
  lemma SetTwice(m: Evaluation, k: StatsKey, first: DayRecord, second: DayRecord)
    requires m.Valid()
    ensures m.Set(k, first).Set(k, second).records[k] == second
    ensures |m.Set(k, first).Set(k, second).order| <= |m.order| + 1
  {
  }

  /** The per-employee counters of `estadisticasPorEmpleado`. */
  datatype EmployeeStats = EmployeeStats(
    employee: int,
    lateArrivals: nat,
    earlyDepartures: nat,
    lateMinutes: int,
    earlyMinutes: int,
    meanHours: real,
    daysWorked: nat,
    completeDays: nat)

  function NewStats(employee: int): EmployeeStats
  {
    EmployeeStats(employee, 0, 0, 0, 0, 0.0, 0, 0)
  }

  /** One step of the statistics loop: the counters bumped and the mean reweighted with the count before the increment. */
  function Accumulate(s: EmployeeStats, r: DayRecord): EmployeeStats
  {
    EmployeeStats(
      s.employee,
      if r.late then s.lateArrivals + 1 else s.lateArrivals,
      if r.early then s.earlyDepartures + 1 else s.earlyDepartures,
      s.lateMinutes + r.minutesLate,
      s.earlyMinutes + r.minutesEarly,
      (s.meanHours * s.daysWorked as real + r.Hours()) / (s.daysWorked as real + 1.0),
      s.daysWorked + 1,
      if r.meetsShift then s.completeDays + 1 else s.completeDays)
  }

  /** The statistics loop over a prefix of the records, in map order. */
  function StatsOf(rs: seq<DayRecord>): map<int, EmployeeStats>
    decreases |rs|
  {
    if |rs| == 0 then map[]
    else
      var m := StatsOf(rs[..|rs| - 1]);
      var r := rs[|rs| - 1];
      var s := if r.employee in m then m[r.employee] else NewStats(r.employee);
      m[r.employee := Accumulate(s, r)]
  }

  /** `jornadasPorEmpleado.forEach(...)`: the statistics, built one record at a time. */
  method ComputeStats(rs: seq<DayRecord>) returns (stats: map<int, EmployeeStats>)
    ensures stats == StatsOf(rs)
  {
    stats := map[];
    var i := 0;
    while i < |rs|
      invariant 0 <= i <= |rs|
      invariant stats == StatsOf(rs[..i])
    {
      var r := rs[i];
      if r.employee !in stats {
        stats := stats[r.employee := NewStats(r.employee)];
      }
      stats := stats[r.employee := Accumulate(stats[r.employee], r)];
      assert rs[..i + 1][..i] == rs[..i];
      i := i + 1;
    }
    assert rs[..i] == rs;
  }

  /** How many records satisfy `p`. */
  function CountWhere(rs: seq<DayRecord>, p: DayRecord -> bool): (n: nat)
    ensures n <= |rs|
    decreases |rs|
  {
    if |rs| == 0 then 0 else CountWhere(rs[..|rs| - 1], p) + if p(rs[|rs| - 1]) then 1 else 0
  }

  function SumWhere(rs: seq<DayRecord>, f: DayRecord -> int): int
    decreases |rs|
  {
    if |rs| == 0 then 0 else SumWhere(rs[..|rs| - 1], f) + f(rs[|rs| - 1])
  }

  function HoursSum(rs: seq<DayRecord>): real
    decreases |rs|
  {
    if |rs| == 0 then 0.0 else HoursSum(rs[..|rs| - 1]) + rs[|rs| - 1].Hours()
  }

  function IsLate(r: DayRecord): bool { r.late }
  function IsEarly(r: DayRecord): bool { r.early }
  function MeetsShift(r: DayRecord): bool { r.meetsShift }
  function LateMinutesOf(r: DayRecord): int { r.minutesLate }
  function EarlyMinutesOf(r: DayRecord): int { r.minutesEarly }

  function OfEmployee(employee: int): DayRecord -> bool
  {
    (r: DayRecord) => r.employee == employee
  }

  /** The statistics of one employee read off its records directly: counts, sums, and the plain mean of the hours. */
  function Summary(employee: int, rs: seq<DayRecord>): EmployeeStats
  {
    EmployeeStats(
      employee,
      CountWhere(rs, IsLate),
      CountWhere(rs, IsEarly),
      SumWhere(rs, LateMinutesOf),
      SumWhere(rs, EarlyMinutesOf),
      if |rs| == 0 then 0.0 else HoursSum(rs) / |rs| as real,
      |rs|,
      CountWhere(rs, MeetsShift))
  }

  /** Reweighting the mean of `n` values by `n` and adding one more value gives the mean of `n + 1` values. */
  lemma MeanStep(sum: real, n: nat, h: real)
    requires n == 0 ==> sum == 0.0
    ensures var mean := if n == 0 then 0.0 else sum / n as real;
      (mean * n as real + h) / (n as real + 1.0) == (sum + h) / (n + 1) as real
  {
    assert (n + 1) as real == n as real + 1.0;
    if n > 0 {
      var mean := sum / n as real;
      assert mean * n as real == sum;
    }
  }

  /** The counts and sums of one more record. */
  lemma SumsSnoc(rs: seq<DayRecord>, r: DayRecord)
    ensures var xs := rs + [r];
      && CountWhere(xs, IsLate) == CountWhere(rs, IsLate) + (if r.late then 1 else 0)
      && CountWhere(xs, IsEarly) == CountWhere(rs, IsEarly) + (if r.early then 1 else 0)
      && CountWhere(xs, MeetsShift) == CountWhere(rs, MeetsShift) + (if r.meetsShift then 1 else 0)
      && SumWhere(xs, LateMinutesOf) == SumWhere(rs, LateMinutesOf) + r.minutesLate
      && SumWhere(xs, EarlyMinutesOf) == SumWhere(rs, EarlyMinutesOf) + r.minutesEarly
      && HoursSum(xs) == HoursSum(rs) + r.Hours()
  {
    var xs := rs + [r];
    assert xs[..|rs|] == rs && xs[|xs| - 1] == r;
  }

  lemma SummaryMean(employee: int, rs: seq<DayRecord>)
    ensures Summary(employee, rs).daysWorked == |rs|
    ensures Summary(employee, rs).meanHours == if |rs| == 0 then 0.0 else HoursSum(rs) / |rs| as real
  {
  }

  /** The mean of one more value, as the loop reweights it, for summaries given by their fields. */
  lemma MeanSnoc(s: EmployeeStats, next: EmployeeStats, sum: real, h: real, n: nat)
    requires s.daysWorked == n
    requires s.meanHours == if n == 0 then 0.0 else sum / n as real
    requires n == 0 ==> sum == 0.0
    requires next.meanHours == (sum + h) / (n + 1) as real
    ensures (s.meanHours * s.daysWorked as real + h) / (s.daysWorked as real + 1.0) == next.meanHours
  {
    if n > 0 {
      MeanTimesCount(sum, n);
    }
    assert (n + 1) as real == n as real + 1.0;
  }

  /** The mean times the count is the sum. */
  lemma MeanTimesCount(sum: real, n: nat)
    requires n > 0
    ensures (sum / n as real) * n as real == sum
  {
  }

  /** One more record moves a summary exactly as one step of the loop does. */
  lemma AccumulateSummary(employee: int, rs: seq<DayRecord>, r: DayRecord)
    ensures Accumulate(Summary(employee, rs), r) == Summary(employee, rs + [r])
  {
    var xs := rs + [r];
    SumsSnoc(rs, r);
    SummaryMean(employee, rs);
    SummaryMean(employee, xs);
    assert |xs| == |rs| + 1;
    MeanSnoc(Summary(employee, rs), Summary(employee, xs), HoursSum(rs), r.Hours(), |rs|);
  }

  /** Folding one more record into the statistics touches that record's employee only. */
  lemma StatsOfSnoc(ps: seq<DayRecord>, r: DayRecord)
    ensures var m := StatsOf(ps);
      StatsOf(ps + [r]) == m[r.employee := Accumulate(if r.employee in m then m[r.employee] else NewStats(r.employee), r)]
  {
    assert (ps + [r])[..|ps|] == ps;
  }

  lemma SummaryOfNothing(employee: int)
    ensures Summary(employee, []) == NewStats(employee)
  {
  }

  /** The step of `StatsOfSummary` for a record of the employee itself. */
  lemma StatsOfSummaryHit(ps: seq<DayRecord>, r: DayRecord)
    requires r.employee in StatsOf(ps) <==> Filter(ps, OfEmployee(r.employee)) != []
    requires r.employee in StatsOf(ps) ==> StatsOf(ps)[r.employee] == Summary(r.employee, Filter(ps, OfEmployee(r.employee)))
    ensures r.employee in StatsOf(ps + [r])
    ensures StatsOf(ps + [r])[r.employee] == Summary(r.employee, Filter(ps + [r], OfEmployee(r.employee)))
  {
    var employee := r.employee;
    var f := Filter(ps, OfEmployee(employee));
    StatsOfSnoc(ps, r);
    assert (ps + [r])[..|ps|] == ps;
    assert Filter(ps + [r], OfEmployee(employee)) == f + [r];
    SummaryOfNothing(employee);
    var m := StatsOf(ps);
    assert (if employee in m then m[employee] else NewStats(employee)) == Summary(employee, f);
    AccumulateSummary(employee, f, r);
  }

  /**
   * The loop's statistics agree with the direct summary: an employee has an entry exactly when
   * it has a record, and its counters are the counts, sums and mean of its own records.
   */
  lemma {:induction false} StatsOfSummary(rs: seq<DayRecord>, employee: int)
    ensures employee in StatsOf(rs) <==> Filter(rs, OfEmployee(employee)) != []
    ensures employee in StatsOf(rs) ==> StatsOf(rs)[employee] == Summary(employee, Filter(rs, OfEmployee(employee)))
    decreases |rs|
  {
    if |rs| > 0 {
      var ps, r := rs[..|rs| - 1], rs[|rs| - 1];
      assert rs == ps + [r];
      StatsOfSummary(ps, employee);
      if r.employee == employee {
        StatsOfSummaryHit(ps, r);
      } else {
        StatsOfSnoc(ps, r);
        assert (ps + [r])[..|ps|] == ps;
        assert Filter(rs, OfEmployee(employee)) == Filter(ps, OfEmployee(employee));
      }
    }
  }

  /** No employee has more late days or complete days than days worked, and the mean times the days is the total hours. */
  lemma SummaryBounds(employee: int, rs: seq<DayRecord>)
    ensures var s := Summary(employee, rs);
      && s.lateArrivals <= s.daysWorked && s.earlyDepartures <= s.daysWorked && s.completeDays <= s.daysWorked
      && s.meanHours * s.daysWorked as real == HoursSum(rs)
  {
  }

  /** A total of non-negative minutes is non-negative: `total_minutos_tarde` and `total_minutos_temprano` never fall below 0. */
  lemma {:induction false} SumWhereNonNegative(rs: seq<DayRecord>, f: DayRecord -> int)
    requires forall i :: 0 <= i < |rs| ==> f(rs[i]) >= 0
    ensures SumWhere(rs, f) >= 0
    decreases |rs|
  {
    if |rs| > 0 {
      SumWhereNonNegative(rs[..|rs| - 1], f);
    }
  }

  /** The reply of the route. */
  datatype JornadasReply =
    | Failure(message: string)
    | Report(parametros: ShiftParams, jornadas: seq<DayRecord>, stats: map<int, EmployeeStats>, lateToday: nat)

  /**
   * `GET`: with no active parameters the reply is the error; otherwise every entry row is
   * evaluated and the statistics are folded in map order. `today` is the UTC day of `now`.
   */
  method JornadasGet(db: Database, now: int) returns (reply: JornadasReply)
    requires GetParametros(db.parametros).Some? ==> ShiftTimesParse(GetParametros(db.parametros).value)
    ensures GetParametros(db.parametros).None? ==> reply == Failure(NoParamsMessage)
    ensures GetParametros(db.parametros).Some? ==>
      var p := GetParametros(db.parametros).value;
      var acc := EvaluateAll(db.entradas, db.salidas, p, DayOf(now));
      acc.0.Valid() && reply == Report(p, acc.0.Values(), StatsOf(acc.0.Values()), acc.1)
  {
    var found := GetParametros(db.parametros);
    if found.None? {
      return Failure(NoParamsMessage);
    }
    var p := found.value;
    var jornadas, lateToday := EvaluateEntries(db.entradas, db.salidas, p, DayOf(now));
    EvaluateAllValid(db.entradas, db.salidas, p, DayOf(now));
    var stats := ComputeStats(jornadas.Values());
    reply := Report(p, jornadas.Values(), stats, lateToday);
  }
}
