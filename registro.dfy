/**
 * The punch-clock route `/api/jornadas/registro`. `POST` records an entry (`tipo_registro`
 * "entrada") or an exit ("salida") for an employee and keeps the day's `estadisticas` row in
 * step; `GET` lists the employees that have both an entry and an exit on one day.
 *
 * The `POST` handler moves its one `Date` to midnight and then to 23:59:59.999 while building
 * its look-ups, and afterwards stores and measures that same mutated instant. The timing of a
 * request is therefore separated out as a `Window`: `WrittenWindow` is what the handler computes,
 * `IntendedWindow` what it evidently means to compute.
 */
module Registro {
  import opened Wrappers
  import opened Seqs
  import opened Clock
  import opened Records
  import opened Jornadas

  /** The JSON body: `id_empleado` and `tipo_registro` (`None` where it is absent). */
  datatype RegistroBody = RegistroBody(employee: int, tipo: Option<string>)

  const AlreadyEnteredMessage := "Ya registraste tu entrada hoy"
  const EntryRecordedMessage := "Entrada registrada exitosamente"
  const NoEntryMessage := "No has registrado entrada hoy"
  const AlreadyLeftMessage := "Ya registraste tu salida hoy"
  const ExitRecordedMessage := "Salida registrada exitosamente"
  const InvalidTypeMessage := "Tipo de registro inválido"
  const ListedMessage := "Registros obtenidos exitosamente"

  /**
   * The instants one `POST` works with: the day named by `fechaStr` (the key of the
   * statistics row), the instant stored as `hora`/`fecha` of the new row and used for the
   * clock readings, and the `[gte, lt)` bounds of the two look-ups.
   */
  datatype Window = Window(day: int, stamp: int, lo: int, hi: int)

  /**
   * The window as the handler computes it: the day of Managua's `now`, the look-ups from
   * midnight up to but excluding 23:59:59.999, and that last instant stored and read.
   */
  function WrittenWindow(now: int): (w: Window)
    ensures w.day == DayOf(Managua(now)) && w.lo == StartOfDay(w.day)
    ensures w.stamp == w.hi && DayOf(w.stamp) == w.day
    ensures TimeOf(w.stamp) == TimeOfDay(23, 59, 59, 999)
  {
    var day := DayOf(Managua(now));
    EndOfDayTime(day);
    DayOfWithin(day, DayMs - 1);
    Window(day, StartOfDay(day) + DayMs - 1, StartOfDay(day), StartOfDay(day) + DayMs - 1)
  }

  /** The window as evidently intended: Managua's `now` stored and read, the look-ups over its whole day. */
  function IntendedWindow(now: int): (w: Window)
    ensures w.stamp == Managua(now) && w.day == DayOf(w.stamp)
    ensures forall t :: w.lo <= t < w.hi <==> DayOf(t) == w.day
  {
    var day := DayOf(Managua(now));
    MsOfDaySplit(Managua(now));
    forall t
      ensures StartOfDay(day) <= t < StartOfDay(day) + DayMs <==> DayOf(t) == day
    {
      MsOfDaySplit(t);
    }
    Window(day, Managua(now), StartOfDay(day), StartOfDay(day) + DayMs)
  }

  function IsActive(p: ShiftParams): bool
  {
    p.active
  }

  /** `findFirst({ where: { activo: true } })`, with no ordering: the first active record in table order. */
  function FirstActive(ps: seq<ShiftParams>): (r: Option<ShiftParams>)
    ensures r.Some? ==> exists i :: (0 <= i < |ps| && ps[i] == r.value && ps[i].active && forall j :: 0 <= j < i ==> !ps[j].active)
    ensures r.None? <==> forall i :: 0 <= i < |ps| ==> !ps[i].active
  {
    First(ps, IsActive)
  }

  /**
   * `minutosTarde` for an instant: the minutes of its clock past the expected entry and the
   * tolerance; `None` where the expected entry does not read as `HH:MM` and the value is `NaN`.
   */
  function EntryLateness(p: ShiftParams, stamp: int): (r: Option<int>)
    ensures r.None? <==> ClockMinutes(p.expectedEntry).None?
    ensures r.Some? ==> r.value >= 0
    ensures r.Some? ==> (r.value > 0 <==> TimeOf(stamp).Minutes() > ClockMinutes(p.expectedEntry).value + p.tolerance)
    ensures r.Some? && r.value > 0 ==> r.value == TimeOf(stamp).Minutes() - (ClockMinutes(p.expectedEntry).value + p.tolerance)
  {
    match ClockMinutes(p.expectedEntry)
    case None => None
    case Some(expected) => Some(MinutesLate(TimeOf(stamp).Minutes(), expected, p.tolerance))
  }

  /**
   * The entry's `estadisticas.upsert`: the row of the key takes the lateness; a new row starts
   * with no early departure and no hours. No other row changes.
   */
  function UpsertLateness(st: map<StatsKey, DayStats>, key: StatsKey, minutesLate: int): (r: map<StatsKey, DayStats>)
    ensures r.Keys == st.Keys + {key}
    ensures forall k :: k in st && k != key ==> r[k] == st[k]
    ensures r[key].lateArrivals == (if minutesLate > 0 then 1 else 0) && r[key].lateMinutes == minutesLate
    ensures key in st ==> (r[key].earlyDepartures == st[key].earlyDepartures
      && r[key].earlyMinutes == st[key].earlyMinutes && r[key].hoursHundredths == st[key].hoursHundredths)
    ensures key !in st ==> r[key].earlyDepartures == 0 && r[key].earlyMinutes == 0 && r[key].hoursHundredths == 0
  {
    var late := if minutesLate > 0 then 1 else 0;
    if key in st then st[key := st[key].(lateArrivals := late, lateMinutes := minutesLate)]
    else st[key := DayStats(late, minutesLate, 0, 0, 0)]
  }

  /**
   * `Number((ms / 3600000).toFixed(2))` in hundredths of an hour: the nearest hundredth, a
   * half-way value rounded away from zero as `toFixed` rounds the magnitude.
   */
  function RoundedHours(ms: int): (r: int)
    ensures -18000 <= 36000 * r - ms <= 18000
    ensures 36000 * r - ms == 18000 ==> ms > 0
    ensures 36000 * r - ms == -18000 ==> ms < 0
  {
    if ms >= 0 then (ms + 18000) / 36000 else -((-ms + 18000) / 36000)
  }

  /** No number of hundredths lies closer to the elapsed time than the one stored. */
  lemma RoundedHoursNearest(ms: int, h: int)
    ensures Abs(36000 * RoundedHours(ms) - ms) <= Abs(36000 * h - ms)
  {
    var r := RoundedHours(ms);
    assert 36000 * h - ms == 36000 * (h - r) + (36000 * r - ms);
  }

  /** `POST`'s effect on the tables and its reply, for a request timed by `w`; `err` is the message of an error thrown on the way. */
  function RegistroOutcome(t: Tables, body: Option<RegistroBody>, w: Window, err: string): (Tables, Response)
  {
    if body.None? then (t, Response(ServerError, err))
    else
      var id := body.value.employee;
      var entry := FindInRange(t.entradas, id, w.lo, w.hi);
      var exit := FindInRange(t.salidas, id, w.lo, w.hi);
      match FirstActive(t.parametros)
      case None => (t, Response(BadRequest, NoParamsMessage))
      case Some(p) =>
        if body.value.tipo == Some("entrada") then
          if entry.Some? then (t, Response(BadRequest, AlreadyEnteredMessage))
          else
            var inserted := t.(entradas := t.entradas + [Punch(id, w.stamp, w.stamp)]);
            match EntryLateness(p, w.stamp)
            case None => (inserted, Response(ServerError, err))
            case Some(m) =>
              (inserted.(estadisticas := UpsertLateness(t.estadisticas, (id, w.day), m)), Response(Ok, EntryRecordedMessage))
        else if body.value.tipo == Some("salida") then
          if entry.None? then (t, Response(BadRequest, NoEntryMessage))
          else if exit.Some? then (t, Response(BadRequest, AlreadyLeftMessage))
          else
            var inserted := t.(salidas := t.salidas + [Punch(id, w.stamp, w.stamp)]);
            var key := (id, w.day);
            if key !in t.estadisticas then (inserted, Response(ServerError, err))
            else
              var hours := RoundedHours(w.stamp - entry.value.hora);
              (inserted.(estadisticas := t.estadisticas[key := t.estadisticas[key].(hoursHundredths := hours)]), Response(Ok, ExitRecordedMessage))
        else (t, Response(BadRequest, InvalidTypeMessage))
  }

  /** `POST`, timed by `w`: the look-ups, the guards, the insert and the statistics write, in the handler's order. */
  method RegistroPost(db: Database, body: Option<RegistroBody>, w: Window, err: string) returns (resp: Response)
    modifies db
    ensures db.entradas == RegistroOutcome(old(db.Snapshot()), body, w, err).0.entradas
    ensures db.salidas == RegistroOutcome(old(db.Snapshot()), body, w, err).0.salidas
    ensures db.parametros == old(db.parametros)
    ensures db.estadisticas == RegistroOutcome(old(db.Snapshot()), body, w, err).0.estadisticas
    ensures resp == RegistroOutcome(old(db.Snapshot()), body, w, err).1
  {
    if body.None? {
      return Response(ServerError, err);
    }
    var id := body.value.employee;
    var entry := FindInRange(db.entradas, id, w.lo, w.hi);
    var exit := FindInRange(db.salidas, id, w.lo, w.hi);
    var found := FirstActive(db.parametros);
    if found.None? {
      return Response(BadRequest, NoParamsMessage);
    }
    if body.value.tipo == Some("entrada") {
      if entry.Some? {
        return Response(BadRequest, AlreadyEnteredMessage);
      }
      var late := EntryLateness(found.value, w.stamp);
      db.entradas := db.entradas + [Punch(id, w.stamp, w.stamp)];
      if late.None? {
        return Response(ServerError, err);
      }
      db.estadisticas := UpsertLateness(db.estadisticas, (id, w.day), late.value);
      resp := Response(Ok, EntryRecordedMessage);
    } else if body.value.tipo == Some("salida") {
      if entry.None? {
        return Response(BadRequest, NoEntryMessage);
      }
      if exit.Some? {
        return Response(BadRequest, AlreadyLeftMessage);
      }
      db.salidas := db.salidas + [Punch(id, w.stamp, w.stamp)];
      var key := (id, w.day);
      if key !in db.estadisticas {
        return Response(ServerError, err);
      }
      var hours := RoundedHours(w.stamp - entry.value.hora);
      db.estadisticas := db.estadisticas[key := db.estadisticas[key].(hoursHundredths := hours)];
      resp := Response(Ok, ExitRecordedMessage);
    } else {
      resp := Response(BadRequest, InvalidTypeMessage);
    }
  }

  /** Every 400 answer comes before any write: the tables are left as they were. */
  lemma RejectionsWriteNothing(t: Tables, body: Option<RegistroBody>, w: Window, err: string)
    ensures RegistroOutcome(t, body, w, err).1.status == BadRequest ==> RegistroOutcome(t, body, w, err).0 == t
  {
  }

  /** An accepted entry appends exactly one row, stamped by the window, and upserts the statistics of its day. */
  lemma AcceptedEntry(t: Tables, body: RegistroBody, w: Window, err: string)
    requires body.tipo == Some("entrada")
    requires RegistroOutcome(t, Some(body), w, err).1.status == Ok
    ensures var after := RegistroOutcome(t, Some(body), w, err).0;
      && FindInRange(t.entradas, body.employee, w.lo, w.hi).None?
      && after.entradas == t.entradas + [Punch(body.employee, w.stamp, w.stamp)]
      && after.salidas == t.salidas && after.parametros == t.parametros
      && after.estadisticas == UpsertLateness(t.estadisticas, (body.employee, w.day), EntryLateness(FirstActive(t.parametros).value, w.stamp).value)
  {
  }

  /** An accepted exit needs an entry in the window and none of its exits; it stores the time elapsed since that entry. */
  lemma AcceptedExit(t: Tables, body: RegistroBody, w: Window, err: string)
    requires body.tipo == Some("salida")
    requires RegistroOutcome(t, Some(body), w, err).1.status == Ok
    ensures var after := RegistroOutcome(t, Some(body), w, err).0;
      var key := (body.employee, w.day);
      && FindInRange(t.entradas, body.employee, w.lo, w.hi).Some?
      && FindInRange(t.salidas, body.employee, w.lo, w.hi).None?
      && key in t.estadisticas
      && after.salidas == t.salidas + [Punch(body.employee, w.stamp, w.stamp)]
      && after.entradas == t.entradas && after.parametros == t.parametros
      && after.estadisticas.Keys == t.estadisticas.Keys
      && after.estadisticas[key].hoursHundredths == RoundedHours(w.stamp - FindInRange(t.entradas, body.employee, w.lo, w.hi).value.hora)
      && after.estadisticas[key].(hoursHundredths := t.estadisticas[key].hoursHundredths) == t.estadisticas[key]
      && forall k :: k in t.estadisticas && k != key ==> after.estadisticas[k] == t.estadisticas[k]
  {
  }

  /**
   * The guards in the handler's order, each with the reply it gives and the state it leaves:
   * a body that is not JSON, then no active parameters, then for an entry one already in the
   * window or an unreadable expected entry (after the insert), for an exit no entry, then an exit
   * already in the window, then a missing statistics row (after the insert), and any other type.
   */
  lemma RegistroGuards(t: Tables, body: Option<RegistroBody>, w: Window, err: string)
    ensures body.None? ==> RegistroOutcome(t, body, w, err) == (t, Response(ServerError, err))
    ensures body.Some? && FirstActive(t.parametros).None? ==>
      RegistroOutcome(t, body, w, err) == (t, Response(BadRequest, NoParamsMessage))
    ensures body.Some? && FirstActive(t.parametros).Some? && body.value.tipo == Some("entrada") ==>
      var id := body.value.employee;
      && (FindInRange(t.entradas, id, w.lo, w.hi).Some? ==>
           RegistroOutcome(t, body, w, err) == (t, Response(BadRequest, AlreadyEnteredMessage)))
      && (FindInRange(t.entradas, id, w.lo, w.hi).None? && ClockMinutes(FirstActive(t.parametros).value.expectedEntry).None? ==>
           RegistroOutcome(t, body, w, err) == (t.(entradas := t.entradas + [Punch(id, w.stamp, w.stamp)]), Response(ServerError, err)))
    ensures body.Some? && FirstActive(t.parametros).Some? && body.value.tipo == Some("salida") ==>
      var id := body.value.employee;
      && (FindInRange(t.entradas, id, w.lo, w.hi).None? ==>
           RegistroOutcome(t, body, w, err) == (t, Response(BadRequest, NoEntryMessage)))
      && (FindInRange(t.entradas, id, w.lo, w.hi).Some? && FindInRange(t.salidas, id, w.lo, w.hi).Some? ==>
           RegistroOutcome(t, body, w, err) == (t, Response(BadRequest, AlreadyLeftMessage)))
      && (FindInRange(t.entradas, id, w.lo, w.hi).Some? && FindInRange(t.salidas, id, w.lo, w.hi).None? && (id, w.day) !in t.estadisticas ==>
           RegistroOutcome(t, body, w, err) == (t.(salidas := t.salidas + [Punch(id, w.stamp, w.stamp)]), Response(ServerError, err)))
    ensures body.Some? && FirstActive(t.parametros).Some? && body.value.tipo != Some("entrada") && body.value.tipo != Some("salida") ==>
      RegistroOutcome(t, body, w, err) == (t, Response(BadRequest, InvalidTypeMessage))
  {
  }

  /** An entry is accepted exactly when parameters are active, none of its entries lies in the window and the expected entry reads as a clock. */
  lemma EntryAcceptedIff(t: Tables, body: RegistroBody, w: Window, err: string)
    requires body.tipo == Some("entrada")
    ensures RegistroOutcome(t, Some(body), w, err).1.status == Ok <==>
      && FirstActive(t.parametros).Some?
      && FindInRange(t.entradas, body.employee, w.lo, w.hi).None?
      && ClockMinutes(FirstActive(t.parametros).value.expectedEntry).Some?
  {
  }

  /** An exit is accepted exactly when parameters are active, an entry and no exit lie in the window, and its day has a statistics row. */
  lemma ExitAcceptedIff(t: Tables, body: RegistroBody, w: Window, err: string)
    requires body.tipo == Some("salida")
    ensures RegistroOutcome(t, Some(body), w, err).1.status == Ok <==>
      && FirstActive(t.parametros).Some?
      && FindInRange(t.entradas, body.employee, w.lo, w.hi).Some?
      && FindInRange(t.salidas, body.employee, w.lo, w.hi).None?
      && (body.employee, w.day) in t.estadisticas
  {
  }

  /** As written, the row an entry stores lies outside every look-up of its day: no later request of that day finds it. */
  lemma WrittenEntryInvisible(t: Tables, id: int, now: int, later: int)
    requires DayOf(Managua(later)) == DayOf(Managua(now))
    ensures var w, v := WrittenWindow(now), WrittenWindow(later);
      FindInRange(t.entradas + [Punch(id, w.stamp, w.stamp)], id, v.lo, v.hi) == FindInRange(t.entradas, id, v.lo, v.hi)
  {
    var w := WrittenWindow(now);
    FindInRangeSnocMiss(t.entradas, Punch(id, w.stamp, w.stamp), id, WrittenWindow(later).lo, WrittenWindow(later).hi);
  }

  /** As written, a second entry on the same day is accepted again: the duplicate guard never fires on this route's own rows. */
  lemma WrittenDuplicateAccepted(t: Tables, body: RegistroBody, now: int, later: int, err: string)
    requires body.tipo == Some("entrada")
    requires DayOf(Managua(later)) == DayOf(Managua(now))
    requires RegistroOutcome(t, Some(body), WrittenWindow(now), err).1.status == Ok
    ensures var after := RegistroOutcome(t, Some(body), WrittenWindow(now), err).0;
      var again := RegistroOutcome(after, Some(body), WrittenWindow(later), err);
      && again.1 == Response(Ok, EntryRecordedMessage)
      && |again.0.entradas| == |t.entradas| + 2
  {
    WrittenEntryInvisible(t, body.employee, now, later);
    AcceptedEntry(t, body, WrittenWindow(now), err);
  }

  /** As written, an exit can never follow an entry made through this route: the exit's look-up misses that entry. */
  lemma WrittenExitMissesEntry(t: Tables, body: RegistroBody, now: int, later: int, err: string)
    requires body.tipo == Some("entrada")
    requires DayOf(Managua(later)) == DayOf(Managua(now))
    requires RegistroOutcome(t, Some(body), WrittenWindow(now), err).1.status == Ok
    ensures var after := RegistroOutcome(t, Some(body), WrittenWindow(now), err).0;
      RegistroOutcome(after, Some(body.(tipo := Some("salida"))), WrittenWindow(later), err).1 == Response(BadRequest, NoEntryMessage)
  {
    WrittenEntryInvisible(t, body.employee, now, later);
    AcceptedEntry(t, body, WrittenWindow(now), err);
  }

  /** As written, the lateness is read off 23:59, whatever the time of the request. */
  lemma WrittenLatenessAtMidnight(t: Tables, body: RegistroBody, now: int, err: string)
    requires body.tipo == Some("entrada")
    requires RegistroOutcome(t, Some(body), WrittenWindow(now), err).1.status == Ok
    ensures var p := FirstActive(t.parametros).value;
      var key := (body.employee, DayOf(Managua(now)));
      RegistroOutcome(t, Some(body), WrittenWindow(now), err).0.estadisticas[key].lateMinutes
        == MinutesLate(23 * 60 + 59, ClockMinutes(p.expectedEntry).value, p.tolerance)
  {
    AcceptedEntry(t, body, WrittenWindow(now), err);
  }

  /** Corrected: once an entry is accepted, every further entry of that employee on that day is refused and writes nothing. */
  lemma IntendedDuplicateRejected(t: Tables, body: RegistroBody, now: int, later: int, err: string)
    requires body.tipo == Some("entrada")
    requires DayOf(Managua(later)) == DayOf(Managua(now))
    requires RegistroOutcome(t, Some(body), IntendedWindow(now), err).1.status == Ok
    ensures var after := RegistroOutcome(t, Some(body), IntendedWindow(now), err).0;
      RegistroOutcome(after, Some(body), IntendedWindow(later), err) == (after, Response(BadRequest, AlreadyEnteredMessage))
  {
    var w, v := IntendedWindow(now), IntendedWindow(later);
    AcceptedEntry(t, body, w, err);
    var after := RegistroOutcome(t, Some(body), w, err).0;
    assert InRange(body.employee, v.lo, v.hi)(after.entradas[|t.entradas|]);
    assert FindInRange(after.entradas, body.employee, v.lo, v.hi).Some?;
  }

  /** Corrected: the lateness is that of the request's own clock. */
  lemma IntendedLateness(t: Tables, body: RegistroBody, now: int, err: string)
    requires body.tipo == Some("entrada")
    requires RegistroOutcome(t, Some(body), IntendedWindow(now), err).1.status == Ok
    ensures var p := FirstActive(t.parametros).value;
      var key := (body.employee, DayOf(Managua(now)));
      RegistroOutcome(t, Some(body), IntendedWindow(now), err).0.estadisticas[key].lateMinutes
        == MinutesLate(TimeOf(Managua(now)).Minutes(), ClockMinutes(p.expectedEntry).value, p.tolerance)
  {
    AcceptedEntry(t, body, IntendedWindow(now), err);
  }

  /**
   * Corrected: an entry and then an exit on the same day, with no exit recorded before, are both
   * accepted; the hours stored are the time between the two requests, and a second exit is refused.
   */
  lemma IntendedEntryThenExit(t: Tables, id: int, now: int, later: int, err: string)
    requires DayOf(Managua(later)) == DayOf(Managua(now))
    requires RegistroOutcome(t, Some(RegistroBody(id, Some("entrada"))), IntendedWindow(now), err).1.status == Ok
    requires FindInRange(t.salidas, id, IntendedWindow(now).lo, IntendedWindow(now).hi).None?
    ensures var entered := RegistroOutcome(t, Some(RegistroBody(id, Some("entrada"))), IntendedWindow(now), err).0;
      var left := RegistroOutcome(entered, Some(RegistroBody(id, Some("salida"))), IntendedWindow(later), err);
      && left.1 == Response(Ok, ExitRecordedMessage)
      && left.0.estadisticas[(id, DayOf(Managua(now)))].hoursHundredths == RoundedHours(later - now)
      && RegistroOutcome(left.0, Some(RegistroBody(id, Some("salida"))), IntendedWindow(later), err).1 == Response(BadRequest, AlreadyLeftMessage)
  {
    var w, v := IntendedWindow(now), IntendedWindow(later);
    var entry := Punch(id, w.stamp, w.stamp);
    AcceptedEntry(t, RegistroBody(id, Some("entrada")), w, err);
    var entered := RegistroOutcome(t, Some(RegistroBody(id, Some("entrada"))), w, err).0;
    assert entered.entradas == t.entradas + [entry];
    FindInRangeSnocHit(t.entradas, entry, id, v.lo, v.hi);
    var left := RegistroOutcome(entered, Some(RegistroBody(id, Some("salida"))), v, err);
    assert left.0.salidas == entered.salidas + [Punch(id, v.stamp, v.stamp)];
    assert InRange(id, v.lo, v.hi)(left.0.salidas[|entered.salidas|]);
  }

  /** An employee as the listing shows it: `nombre` is the name and the first surname. */
  datatype EmployeeView = EmployeeView(id: int, nombre: string, cedula: string, idDepartamento: int, idCargo: string)

  /** The `hora` (`HH:MM:SS`) and the day of a punch in the listing. */
  datatype StampView = StampView(hora: string, fecha: int)

  /** One listed employee. */
  datatype RegistroRow = RegistroRow(empleado: EmployeeView, fecha: int, entrada: Option<StampView>, salida: Option<StampView>, estado: string)

  /** The reply of `GET`. */
  datatype RegistroListing = RegistroListing(message: string, data: seq<RegistroRow>, totalEmpleados: nat, totalRegistros: nat)

  /**
   * `findMany({ where: { fecha in [lo, hi) }, orderBy: { hora: 'asc' } })` followed by `find` for
   * one employee: its row in the range with the earliest `hora`, the first in table order among equals.
   */
  function Earliest(rows: seq<Punch>, employee: int, lo: int, hi: int): (r: Option<Punch>)
    ensures r.Some? ==> r.value in rows && r.value.employee == employee && lo <= r.value.fecha < hi
    ensures r.Some? ==> forall x :: x in rows && x.employee == employee && lo <= x.fecha < hi ==> r.value.hora <= x.hora
    ensures r.None? <==> FindInRange(rows, employee, lo, hi).None?
    decreases |rows|
  {
    if |rows| == 0 then None
    else
      var rest := Earliest(rows[1..], employee, lo, hi);
      assert forall x :: x in rows ==> x == rows[0] || x in rows[1..];
      assert forall i :: 0 < i < |rows| ==> rows[i] == rows[1..][i - 1];
      if rows[0].employee == employee && lo <= rows[0].fecha < hi && (rest.None? || rows[0].hora <= rest.value.hora) then Some(rows[0])
      else rest
  }

  function Complete(entradas: seq<Punch>, salidas: seq<Punch>, lo: int, hi: int): Employee -> bool
  {
    (e: Employee) => FindInRange(entradas, e.id, lo, hi).Some? && FindInRange(salidas, e.id, lo, hi).Some?
  }

  function ViewOf(e: Employee): EmployeeView
  {
    EmployeeView(e.id, e.name + " " + e.primerApellido, e.cedula, e.idDepartamento, e.idCargo)
  }

  function StampOf(x: Option<Punch>): Option<StampView>
  {
    match x
    case None => None
    case Some(r) => Some(StampView(TimeText(r.hora), DayOf(r.fecha)))
  }

  /** The listing's row for one employee: its earliest entry and exit in `[lo, hi)`. */
  function RowFor(e: Employee, entradas: seq<Punch>, salidas: seq<Punch>, day: int, lo: int, hi: int): (r: RegistroRow)
    ensures r.empleado == ViewOf(e) && r.fecha == day && r.estado == "Completo"
    ensures Complete(entradas, salidas, lo, hi)(e) ==> r.entrada.Some? && r.salida.Some?
    ensures r.entrada.Some? ==> exists x :: (x in entradas && x.employee == e.id && lo <= x.fecha < hi
      && r.entrada == Some(StampView(TimeText(x.hora), DayOf(x.fecha)))
      && forall y :: y in entradas && y.employee == e.id && lo <= y.fecha < hi ==> x.hora <= y.hora)
    ensures r.salida.Some? ==> exists x :: (x in salidas && x.employee == e.id && lo <= x.fecha < hi
      && r.salida == Some(StampView(TimeText(x.hora), DayOf(x.fecha)))
      && forall y :: y in salidas && y.employee == e.id && lo <= y.fecha < hi ==> x.hora <= y.hora)
  {
    RegistroRow(ViewOf(e), day, StampOf(Earliest(entradas, e.id, lo, hi)), StampOf(Earliest(salidas, e.id, lo, hi)), "Completo")
  }

  /** The bounds of `GET`'s look-ups for a day: from midnight up to but excluding 23:59:59.999. */
  function ListingLo(day: int): int
  {
    StartOfDay(day)
  }

  function ListingHi(day: int): int
  {
    StartOfDay(day) + DayMs - 1
  }

  /** The employees `GET` lists for a day: those of the directory with both punches in the range, in directory order. */
  function CompleteEmployees(employees: seq<Employee>, entradas: seq<Punch>, salidas: seq<Punch>, day: int): seq<Employee>
  {
    Filter(employees, Complete(entradas, salidas, ListingLo(day), ListingHi(day)))
  }

  /** `GET` for one day. */
  function RegistroGet(employees: seq<Employee>, entradas: seq<Punch>, salidas: seq<Punch>, day: int): RegistroListing
  {
    var complete := CompleteEmployees(employees, entradas, salidas, day);
    var data := seq(|complete|, i requires 0 <= i < |complete| =>
      RowFor(complete[i], entradas, salidas, day, ListingLo(day), ListingHi(day)));
    RegistroListing(ListedMessage, data, |complete|, |data|)
  }

  /** Both totals count the listed employees, and every row is "Completo", of the day, with both punches. */
  lemma RegistroGetShape(employees: seq<Employee>, entradas: seq<Punch>, salidas: seq<Punch>, day: int)
    ensures var g := RegistroGet(employees, entradas, salidas, day);
      && g.totalEmpleados == g.totalRegistros == |g.data|
      && forall i :: 0 <= i < |g.data| ==>
           g.data[i].entrada.Some? && g.data[i].salida.Some? && g.data[i].estado == "Completo" && g.data[i].fecha == day
  {
    var keep := Complete(entradas, salidas, ListingLo(day), ListingHi(day));
    FilterSpec(employees, keep);
  }

  /** Each employee of the directory with both punches on the day is listed. */
  lemma RegistroGetListsEvery(employees: seq<Employee>, entradas: seq<Punch>, salidas: seq<Punch>, day: int, e: Employee)
    requires e in employees
    requires FindInRange(entradas, e.id, ListingLo(day), ListingHi(day)).Some?
    requires FindInRange(salidas, e.id, ListingLo(day), ListingHi(day)).Some?
    ensures var g := RegistroGet(employees, entradas, salidas, day);
      exists i :: 0 <= i < |g.data| && g.data[i].empleado == ViewOf(e)
  {
    var keep := Complete(entradas, salidas, ListingLo(day), ListingHi(day));
    var complete := CompleteEmployees(employees, entradas, salidas, day);
    FilterSpec(employees, keep);
    assert keep(e);
    var i :| 0 <= i < |complete| && complete[i] == e;
    assert RegistroGet(employees, entradas, salidas, day).data[i].empleado == ViewOf(e);
  }

  /** Each listed row is an employee of the directory with both punches on the day. */
  lemma RegistroGetListsOnly(employees: seq<Employee>, entradas: seq<Punch>, salidas: seq<Punch>, day: int, i: nat)
    requires i < |RegistroGet(employees, entradas, salidas, day).data|
    ensures var row := RegistroGet(employees, entradas, salidas, day).data[i];
      exists e :: (e in employees && row.empleado == ViewOf(e)
        && FindInRange(entradas, e.id, ListingLo(day), ListingHi(day)).Some?
        && FindInRange(salidas, e.id, ListingLo(day), ListingHi(day)).Some?)
  {
    var keep := Complete(entradas, salidas, ListingLo(day), ListingHi(day));
    var complete := CompleteEmployees(employees, entradas, salidas, day);
    FilterSpec(employees, keep);
    assert keep(complete[i]) && complete[i] in complete;
  }

  /** The listing keeps the directory's order: its rows are those of a subsequence of the employees, one row each. */
  lemma RegistroGetOrder(employees: seq<Employee>, entradas: seq<Punch>, salidas: seq<Punch>, day: int)
    ensures var g := RegistroGet(employees, entradas, salidas, day);
      var complete := CompleteEmployees(employees, entradas, salidas, day);
      && IsSubsequence(complete, employees)
      && |g.data| == |complete|
      && forall i :: 0 <= i < |g.data| ==> g.data[i].empleado == ViewOf(complete[i])
  {
    FilterSpec(employees, Complete(entradas, salidas, ListingLo(day), ListingHi(day)));
  }

  /** As written, the listing of a day never shows the entry `POST` stores that day: it lies on the excluded last instant. */
  lemma WrittenEntryUnlisted(t: Tables, id: int, now: int)
    ensures var w := WrittenWindow(now);
      FindInRange(t.entradas + [Punch(id, w.stamp, w.stamp)], id, ListingLo(w.day), ListingHi(w.day))
        == FindInRange(t.entradas, id, ListingLo(w.day), ListingHi(w.day))
  {
    var w := WrittenWindow(now);
    FindInRangeSnocMiss(t.entradas, Punch(id, w.stamp, w.stamp), id, ListingLo(w.day), ListingHi(w.day));
  }
}
