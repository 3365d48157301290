/**
 * The route `/api/registrar_entrada`: `POST` records an employee's entry for the day, before
 * noon Managua time and at most once; `GET` lists every entry with its time as `HH:MM:SS`.
 */
module RegistrarEntrada {
  import opened Wrappers
  import opened Clock
  import opened Records

  const AfterNoonMessage := "No se pueden registrar entradas después de las 12 PM"
  const DuplicateMessage := "Ya registraste tu entrada el día de hoy"
  const RecordedMessage := "Entrada registrada exitosamente"
  const FailedMessage := "Error al registrar entrada"
  const ListedMessage := "Entradas obtenidas exitosamente"

  /** `inicioDelDia` and `finDelDia`: midnight of the Managua day of `now`, and 23:59:59.999 of it. */
  function DayStartOf(now: int): int
  {
    StartOfDay(DayOf(Managua(now)))
  }

  function DayEndOf(now: int): int
  {
    StartOfDay(DayOf(Managua(now))) + DayMs - 1
  }

  /** `POST`'s effect on the `entradas` table and its reply; a body that is not JSON answers 500. */
  function EntradaOutcome(entradas: seq<Punch>, body: Option<IdBody>, now: int): (seq<Punch>, Response)
  {
    if body.None? then (entradas, Response(ServerError, FailedMessage))
    else if Falsy(body.value.employee) then (entradas, Response(BadRequest, IdRequiredMessage))
    else
      var id, m := body.value.employee.value, Managua(now);
      if TimeOf(m).hour >= 12 then (entradas, Response(BadRequest, AfterNoonMessage))
      else if FindInRange(entradas, id, DayStartOf(now), DayEndOf(now)).Some? then (entradas, Response(BadRequest, DuplicateMessage))
      else (entradas + [Punch(id, m, m)], Response(Ok, RecordedMessage))
  }

  /** `POST`: the guards in the handler's order, then the insert. */
  method RegistrarEntradaPost(db: Database, body: Option<IdBody>, now: int) returns (resp: Response)
    modifies db
    ensures db.entradas == EntradaOutcome(old(db.entradas), body, now).0
    ensures resp == EntradaOutcome(old(db.entradas), body, now).1
    ensures db.salidas == old(db.salidas) && db.parametros == old(db.parametros) && db.estadisticas == old(db.estadisticas)
  {
    if body.None? {
      return Response(ServerError, FailedMessage);
    }
    if Falsy(body.value.employee) {
      return Response(BadRequest, IdRequiredMessage);
    }
    var id := body.value.employee.value;
    var m := Managua(now);
    if TimeOf(m).hour >= 12 {
      return Response(BadRequest, AfterNoonMessage);
    }
    var existing := FindInRange(db.entradas, id, DayStartOf(now), DayEndOf(now));
    if existing.Some? {
      return Response(BadRequest, DuplicateMessage);
    }
    db.entradas := db.entradas + [Punch(id, m, m)];
    resp := Response(Ok, RecordedMessage);
  }

  /**
   * A `POST` is accepted exactly when the id is given, it is before noon in Managua and the
   * employee has no entry yet that day; then one row stamped with Managua's `now` is appended,
   * otherwise the table is left as it was.
   */
  lemma EntradaAccepted(entradas: seq<Punch>, body: Option<IdBody>, now: int)
    ensures var (after, resp) := EntradaOutcome(entradas, body, now);
      && (resp.status == Ok <==>
           && body.Some? && !Falsy(body.value.employee)
           && TimeOf(Managua(now)).hour < 12
           && (forall i :: 0 <= i < |entradas| ==> !(entradas[i].employee == body.value.employee.value && DayStartOf(now) <= entradas[i].fecha < DayEndOf(now))))
      && (resp.status == Ok ==> (resp.message == RecordedMessage
           && after == entradas + [Punch(body.value.employee.value, Managua(now), Managua(now))]))
      && (resp.status != Ok ==> after == entradas)
  {
  }

  /** Every entry this route stores is stamped before noon of its Managua day. */
  lemma EntradaBeforeNoon(entradas: seq<Punch>, body: Option<IdBody>, now: int)
    requires EntradaOutcome(entradas, body, now).1.status == Ok
    ensures var after := EntradaOutcome(entradas, body, now).0;
      TimeOf(after[|after| - 1].hora).hour < 12 && MsOfDay(after[|after| - 1].fecha) < 12 * HourMs
  {
    TimeOfSplit(Managua(now));
  }

  /** Once an entry is accepted, every later `POST` of the employee on the same Managua day is refused. */
  lemma EntradaOncePerDay(entradas: seq<Punch>, id: int, now: int, later: int)
    requires id != 0
    requires DayOf(Managua(later)) == DayOf(Managua(now))
    requires EntradaOutcome(entradas, Some(IdBody(Some(id))), now).1.status == Ok
    ensures var after := EntradaOutcome(entradas, Some(IdBody(Some(id))), now).0;
      EntradaOutcome(after, Some(IdBody(Some(id))), later).1.status == BadRequest
  {
    var after := EntradaOutcome(entradas, Some(IdBody(Some(id))), now).0;
    var m := Managua(now);
    TimeOfSplit(m);
    MsOfDaySplit(m);
    assert after[|entradas|] == Punch(id, m, m);
    assert DayStartOf(later) <= m < DayEndOf(later);
  }

  /** `GET`: every row in table order, its time as `HH:MM:SS` and its date as a day. */
  function EntradaGet(entradas: seq<Punch>): (seq<PunchView>, string)
  {
    (FormatPunches(entradas), ListedMessage)
  }
}
