/**
 * The attendance store: its four tables as the routes read and write them, the employee
 * records of the personnel directory, and the replies the routes send.
 */
module Records {
  import opened Wrappers
  import opened Clock
  import opened Seqs

  /**
   * A row of the `entradas` or of the `salidas` table: the employee and the instant
   * stored as `hora_entrada`/`hora_salida` and as `fecha_entrada`/`fecha_salida`.
   */
  datatype Punch = Punch(employee: int, hora: int, fecha: int)

  /** A row of `parametrosJornada`. The expected times are the `HH:MM` texts as stored. */
  datatype ShiftParams = ShiftParams(
    expectedEntry: string,
    expectedExit: string,
    tolerance: int,
    requiredHours: real,
    lunchMinutes: int,
    active: bool,
    createdAt: int)

  /** A row of `estadisticas`; `horas_trabajadas` is held in hundredths of an hour. */
  datatype DayStats = DayStats(
    lateArrivals: int,
    lateMinutes: int,
    earlyDepartures: int,
    earlyMinutes: int,
    hoursHundredths: int)

  /** The unique key `id_empleado_fecha` of `estadisticas`: employee and day. */
  type StatsKey = (int, int)

  /** An employee as the personnel directory returns it. */
  datatype Employee = Employee(
    id: int,
    name: string,
    primerApellido: string,
    cedula: string,
    idDepartamento: int,
    idCargo: string,
    inss: string)

  /** The status and message a route answers with. */
  datatype Response = Response(status: nat, message: string)

  const Ok: nat := 200
  const BadRequest: nat := 400
  const ServerError: nat := 500

  /** The JSON body of the entry and exit routes: `id_empleado`, `None` where it is absent or `null`. */
  datatype IdBody = IdBody(employee: Option<int>)

  /** `!id_empleado`: an absent, `null` or zero id. */
  predicate Falsy(id: Option<int>)
  {
    id.None? || id.value == 0
  }

  const IdRequiredMessage := "ID de empleado es requerido"

  /** A snapshot of the store. */
  datatype Tables = Tables(
    entradas: seq<Punch>,
    salidas: seq<Punch>,
    parametros: seq<ShiftParams>,
    estadisticas: map<StatsKey, DayStats>)

  /** The store the routes share; each route changes these tables in place. */
  class Database {
    var entradas: seq<Punch>
    var salidas: seq<Punch>
    var parametros: seq<ShiftParams>
    var estadisticas: map<StatsKey, DayStats>

    constructor ()
      ensures entradas == [] && salidas == [] && parametros == [] && estadisticas == map[]
    {
      entradas, salidas, parametros, estadisticas := [], [], [], map[];
    }

    function Snapshot(): Tables
      reads this
    {
      Tables(entradas, salidas, parametros, estadisticas)
    }
  }

  /** The `where` of the routes' `findFirst` on a punch table: the employee, and a date in `[lo, hi)`. */
  function InRange(employee: int, lo: int, hi: int): Punch -> bool
  {
    (r: Punch) => r.employee == employee && lo <= r.fecha < hi
  }

  /** `findFirst({ where: { id_empleado, fecha: { gte: lo, lt: hi } } })`: the first such row in table order. */
  function FindInRange(rows: seq<Punch>, employee: int, lo: int, hi: int): (r: Option<Punch>)
    ensures r.Some? ==> r.value in rows && r.value.employee == employee && lo <= r.value.fecha < hi
    ensures r.None? <==> forall i :: 0 <= i < |rows| ==> !(rows[i].employee == employee && lo <= rows[i].fecha < hi)
  {
    First(rows, InRange(employee, lo, hi))
  }

  /** A row outside the range does not change what the look-up finds. */
  lemma FindInRangeSnocMiss(rows: seq<Punch>, x: Punch, employee: int, lo: int, hi: int)
    requires !(x.employee == employee && lo <= x.fecha < hi)
    ensures FindInRange(rows + [x], employee, lo, hi) == FindInRange(rows, employee, lo, hi)
  {
    FirstSnocMiss(rows, x, InRange(employee, lo, hi));
  }

  /** A row inside the range, appended where there was none, is what the look-up finds. */
  lemma FindInRangeSnocHit(rows: seq<Punch>, x: Punch, employee: int, lo: int, hi: int)
    requires FindInRange(rows, employee, lo, hi).None?
    requires x.employee == employee && lo <= x.fecha < hi
    ensures FindInRange(rows + [x], employee, lo, hi) == Some(x)
  {
    FirstSnocHit(rows, x, InRange(employee, lo, hi));
  }

  /** A row with its time formatted as `HH:MM:SS` and its date as a day, as the listing routes send it. */
  datatype PunchView = PunchView(employee: int, hora: string, fecha: int)

  /** The `GET` formatting of `registrar_entrada` and `registrar_salida`: every row, in order, its time as `HH:MM:SS`. */
  function FormatPunches(rows: seq<Punch>): (r: seq<PunchView>)
    ensures |r| == |rows|
    ensures forall i :: 0 <= i < |rows| ==>
      && r[i].employee == rows[i].employee
      && r[i].fecha == DayOf(rows[i].fecha)
      && forall date :: IsoDateShaped(date) ==> IsoTimePrefix(IsoText(date, TimeOf(rows[i].hora))) == Some(r[i].hora)
  {
    forall i, date | 0 <= i < |rows| && IsoDateShaped(date)
      ensures IsoTimePrefix(IsoText(date, TimeOf(rows[i].hora))) == Some(TimeText(rows[i].hora))
    {
      IsoTimePrefixOfIso(date, TimeOf(rows[i].hora));
    }
    seq(|rows|, i requires 0 <= i < |rows| => PunchView(rows[i].employee, TimeText(rows[i].hora), DayOf(rows[i].fecha)))
  }
}
