/**
 * The route `/api/registrar_salida`: `POST` records an employee's exit, at most one in the
 * window the handler checks; `GET` lists every exit with its time as `HH:MM:SS`.
 */
module RegistrarSalida {
  import opened Wrappers
  import opened Clock
  import opened Records

  const DuplicateMessage := "Ya se registró la salida para este empleado el día de hoy"
  const RecordedMessage := "Salida registrada exitosamente"
  const FailedMessage := "Error al registrar salida"
  const ListedMessage := "Salidas obtenidas exitosamente"

  /**
   * The bounds of the duplicate look-up: `gte` is the date part of Managua's `now` read back as
   * UTC midnight, `lt` is Managua's `now` one day later (`setDate(getDate() + 1)`).
   */
  function WindowLo(now: int): int
  {
    StartOfDay(DayOf(Managua(now)))
  }

  function WindowHi(now: int): int
  {
    Managua(now) + DayMs
  }

  /** `POST`'s effect on the `salidas` table and its reply; a body that is not JSON answers 500. */
  function SalidaOutcome(salidas: seq<Punch>, body: Option<IdBody>, now: int): (seq<Punch>, Response)
  {
    if body.None? then (salidas, Response(ServerError, FailedMessage))
    else if Falsy(body.value.employee) then (salidas, Response(BadRequest, IdRequiredMessage))
    else
      var id, m := body.value.employee.value, Managua(now);
      if FindInRange(salidas, id, WindowLo(now), WindowHi(now)).Some? then (salidas, Response(BadRequest, DuplicateMessage))
      else (salidas + [Punch(id, m, m)], Response(Ok, RecordedMessage))
  }

  /** `POST`: the id guard, the duplicate look-up, then the insert. No entry is required. */
  method RegistrarSalidaPost(db: Database, body: Option<IdBody>, now: int) returns (resp: Response)
    modifies db
    ensures db.salidas == SalidaOutcome(old(db.salidas), body, now).0
    ensures resp == SalidaOutcome(old(db.salidas), body, now).1
    ensures db.entradas == old(db.entradas) && db.parametros == old(db.parametros) && db.estadisticas == old(db.estadisticas)
  {
    if body.None? {
      return Response(ServerError, FailedMessage);
    }
    if Falsy(body.value.employee) {
      return Response(BadRequest, IdRequiredMessage);
    }
    var id := body.value.employee.value;
    var m := Managua(now);
    var existing := FindInRange(db.salidas, id, WindowLo(now), WindowHi(now));
    if existing.Some? {
      return Response(BadRequest, DuplicateMessage);
    }
    db.salidas := db.salidas + [Punch(id, m, m)];
    resp := Response(Ok, RecordedMessage);
  }

  /**
   * A `POST` is accepted exactly when the id is given and the employee has no exit in the
   * window; then one row stamped with Managua's `now` is appended, otherwise nothing changes.
   */
  lemma SalidaAccepted(salidas: seq<Punch>, body: Option<IdBody>, now: int)
    ensures var (after, resp) := SalidaOutcome(salidas, body, now);
      && (resp.status == Ok <==>
           && body.Some? && !Falsy(body.value.employee)
           && (forall i :: 0 <= i < |salidas| ==> !(salidas[i].employee == body.value.employee.value && WindowLo(now) <= salidas[i].fecha < WindowHi(now))))
      && (resp.status == Ok ==> (resp.message == RecordedMessage
           && after == salidas + [Punch(body.value.employee.value, Managua(now), Managua(now))]))
      && (resp.status != Ok ==> after == salidas)
  {
  }

  /** Once an exit is accepted, every other `POST` of the employee on the same Managua day, before or after it, is refused. */
  lemma SalidaOncePerDay(salidas: seq<Punch>, id: int, now: int, later: int)
    requires id != 0
    requires DayOf(Managua(later)) == DayOf(Managua(now))
    requires SalidaOutcome(salidas, Some(IdBody(Some(id))), now).1.status == Ok
    ensures var after := SalidaOutcome(salidas, Some(IdBody(Some(id))), now).0;
      SalidaOutcome(after, Some(IdBody(Some(id))), later).1.status == BadRequest
  {
    var after := SalidaOutcome(salidas, Some(IdBody(Some(id))), now).0;
    var m := Managua(now);
    MsOfDaySplit(m);
    MsOfDaySplit(Managua(later));
    assert after[|salidas|] == Punch(id, m, m);
    assert WindowLo(later) <= m < WindowHi(later);
  }

  /**
   * The window reaches a day past `now`, but while no exit of the employee is stamped after
   * `now`, the look-up finds one exactly when the employee has an exit on the Managua day.
   */
  lemma SalidaWindowIsToday(salidas: seq<Punch>, id: int, now: int)
    requires forall i :: 0 <= i < |salidas| && salidas[i].employee == id ==> salidas[i].fecha <= Managua(now)
    ensures FindInRange(salidas, id, WindowLo(now), WindowHi(now)).Some?
      <==> exists i :: 0 <= i < |salidas| && salidas[i].employee == id && DayOf(salidas[i].fecha) == DayOf(Managua(now))
  {
    MsOfDaySplit(Managua(now));
    forall i | 0 <= i < |salidas| && salidas[i].employee == id
      ensures WindowLo(now) <= salidas[i].fecha < WindowHi(now) <==> DayOf(salidas[i].fecha) == DayOf(Managua(now))
    {
      MsOfDaySplit(salidas[i].fecha);
    }
  }

  /** `GET`: every row in table order, its time as `HH:MM:SS` and its date as a day. */
  function SalidaGet(salidas: seq<Punch>): (seq<PunchView>, string)
  {
    (FormatPunches(salidas), ListedMessage)
  }
}
