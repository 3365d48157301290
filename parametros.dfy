/**
 * The shift-parameter route: `POST` switches every active record off and then appends the
 * new one; `GET` answers with the most recent active record.
 */
module Parametros {
  import opened Wrappers
  import opened Text
  import opened JsNumbers
  import opened Records

  /** The request body: each field as the client sent it, `None` where it is absent. */
  datatype ParamsBody = ParamsBody(
    expectedEntry: Option<string>,
    expectedExit: Option<string>,
    tolerance: Option<string>,
    requiredHours: Option<string>,
    lunchMinutes: Option<string>)

  const CreatedMessage := "Parámetros creados exitosamente"
  const CreateErrorMessage := "Error al crear los parámetros"

  /**
   * `findFirst({ where: { activo: true }, orderBy: { fecha_creacion: 'desc' } })`: the index of
   * an active record created no earlier than any other active one (the first such in table order).
   */
  function LatestActiveIndex(ps: seq<ShiftParams>): (r: Option<nat>)
    ensures r.Some? ==> r.value < |ps| && ps[r.value].active
    ensures r.Some? ==> forall j :: 0 <= j < |ps| && ps[j].active ==> ps[j].createdAt <= ps[r.value].createdAt
    ensures r.Some? ==> forall j :: 0 <= j < r.value && ps[j].active ==> ps[j].createdAt < ps[r.value].createdAt
    ensures r.None? <==> forall j :: 0 <= j < |ps| ==> !ps[j].active
    decreases |ps|
  {
    if |ps| == 0 then None
    else
      var rest := LatestActiveIndex(ps[1..]);
      if ps[0].active && (rest.None? || ps[1..][rest.value].createdAt <= ps[0].createdAt) then Some(0)
      else if rest.None? then None
      else Some(rest.value + 1)
  }

  /** `GET`: the latest active record, `null` when none is active. */
  function GetParametros(ps: seq<ShiftParams>): (r: Option<ShiftParams>)
    ensures r.Some? ==> r.value in ps && r.value.active
    ensures r.Some? ==> forall q :: q in ps && q.active ==> q.createdAt <= r.value.createdAt
    ensures r.None? <==> forall q :: q in ps ==> !q.active
  {
    match LatestActiveIndex(ps)
    case None => None
    case Some(i) => Some(ps[i])
  }

  /** `updateMany({ where: { activo: true }, data: { activo: false } })`: every record switched off, nothing else changed. */
  function Deactivated(ps: seq<ShiftParams>): (r: seq<ShiftParams>)
    ensures |r| == |ps|
    ensures forall i :: 0 <= i < |ps| ==> !r[i].active && r[i].(active := ps[i].active) == ps[i]
    decreases |ps|
  {
    if |ps| == 0 then [] else [ps[0].(active := false)] + Deactivated(ps[1..])
  }

  /**
   * The record `create` builds from a body, once the numbers are parsed; `None` where the
   * insert fails: an expected time is absent, or a number reads as `NaN`. The record is
   * active and stamped with the creation instant, the table's defaults.
   */
  function NewParams(body: ParamsBody, now: int): Option<ShiftParams>
  {
    // `parseInt(undefined)` reads the text "undefined".
    var tolerance := ParseInt(body.tolerance.GetOr("undefined"));
    var hours := ParseFloat(body.requiredHours.GetOr("undefined"));
    var lunch := ParseInt(body.lunchMinutes.GetOr("undefined"));
    if body.expectedEntry.None? || body.expectedExit.None? || tolerance.None? || hours.None? || lunch.None? then None
    else Some(ShiftParams(body.expectedEntry.value, body.expectedExit.value, tolerance.value, hours.value, lunch.value, true, now))
  }

  /**
   * `POST`'s effect on the table and its reply. A body that is not JSON fails before any write;
   * otherwise the records are switched off first and a failed insert leaves them off.
   */
  function PostOutcome(ps: seq<ShiftParams>, body: Option<ParamsBody>, now: int): (seq<ShiftParams>, Response)
  {
    if body.None? then (ps, Response(ServerError, CreateErrorMessage))
    else
      match NewParams(body.value, now)
      case None => (Deactivated(ps), Response(ServerError, CreateErrorMessage))
      case Some(p) => (Deactivated(ps) + [p], Response(Ok, CreatedMessage))
  }

  /** `POST`: one `updateMany` switches the active records off, then `create` appends the new record. */
  method PostParametros(db: Database, body: Option<ParamsBody>, now: int) returns (resp: Response)
    modifies db
    ensures db.parametros == PostOutcome(old(db.parametros), body, now).0
    ensures resp == PostOutcome(old(db.parametros), body, now).1
    ensures db.entradas == old(db.entradas) && db.salidas == old(db.salidas) && db.estadisticas == old(db.estadisticas)
  {
    if body.None? {
      return Response(ServerError, CreateErrorMessage);
    }
    var switchedOff := Deactivated(db.parametros);
    db.parametros := switchedOff;
    var created := NewParams(body.value, now);
    if created.None? {
      return Response(ServerError, CreateErrorMessage);
    }
    db.parametros := switchedOff + [created.value];
    resp := Response(Ok, CreatedMessage);
  }

  /** Every record that exists before a `POST` whose body is JSON is inactive after it. */
  lemma PostDeactivatesOld(ps: seq<ShiftParams>, body: ParamsBody, now: int)
    ensures var after := PostOutcome(ps, Some(body), now).0;
      |after| >= |ps| && forall i :: 0 <= i < |ps| ==> !after[i].active
  {
  }

  /** After a `POST` the only record that can be active is the one it created, and only when it answered 200. */
  lemma PostOnlyNewActive(ps: seq<ShiftParams>, body: ParamsBody, now: int)
    ensures var (after, resp) := PostOutcome(ps, Some(body), now);
      forall i :: 0 <= i < |after| && after[i].active ==> i == |ps| && resp.status == Ok
  {
  }

  /** A `POST` answers 200 exactly when every field is present and every number parses; any failure answers 500 "Error al crear los parámetros". */
  lemma PostStatus(ps: seq<ShiftParams>, body: Option<ParamsBody>, now: int)
    ensures var (after, resp) := PostOutcome(ps, body, now);
      && (resp.status == Ok <==> body.Some? && NewParams(body.value, now).Some?)
      && (resp.status == Ok ==> resp.message == CreatedMessage && after == Deactivated(ps) + [NewParams(body.value, now).value])
      && (resp.status != Ok ==> resp == Response(ServerError, CreateErrorMessage) && |after| == |ps|)
  {
  }

  /** A successful `POST` makes the new record the one `GET` returns, whatever the table held before. */
  lemma {:induction false} PostThenGet(ps: seq<ShiftParams>, body: ParamsBody, now: int)
    requires NewParams(body, now).Some?
    ensures GetParametros(PostOutcome(ps, Some(body), now).0) == NewParams(body, now)
  {
    var after := PostOutcome(ps, Some(body), now).0;
    PostOnlyNewActive(ps, body, now);
    assert after[|ps|] == NewParams(body, now).value;
    var r := LatestActiveIndex(after);
    assert r.Some? by {
      assert after[|ps|].active;
    }
  }

  /** A `POST` whose insert fails leaves no record active: `GET` then returns `null`. */
  lemma PostFailedThenGet(ps: seq<ShiftParams>, body: ParamsBody, now: int)
    requires NewParams(body, now).None?
    ensures GetParametros(PostOutcome(ps, Some(body), now).0).None?
  {
    PostOnlyNewActive(ps, body, now);
  }

  /** The record built once the three numbers are known. */
  lemma NewParamsOf(body: ParamsBody, tol: int, hours: real, lunch: int, now: int)
    requires body.expectedEntry.Some? && body.expectedExit.Some?
    requires ParseInt(body.tolerance.GetOr("undefined")) == Some(tol)
    requires ParseFloat(body.requiredHours.GetOr("undefined")) == Some(hours)
    requires ParseInt(body.lunchMinutes.GetOr("undefined")) == Some(lunch)
    ensures NewParams(body, now) == Some(ShiftParams(body.expectedEntry.value, body.expectedExit.value, tol, hours, lunch, true, now))
  {
  }

  /** An integer field sent as decimal digits, with or without a minus sign, and a tail `parseInt` stops at. */
  lemma IntegerField(field: Option<string>, negative: bool, n: nat, rest: string)
    requires field == Some((if negative then "-" else "") + DecimalText(n) + rest) && DecimalEnd(DecimalText(n), rest)
    ensures ParseInt(field.GetOr("undefined")) == Some(if negative then -(n as int) else n)
  {
    ParseIntDecimal(n, rest);
    if !negative {
      assert "" + DecimalText(n) + rest == DecimalText(n) + rest;
    }
  }

  /**
   * A body with both expected times and numeric texts stores the texts as sent, the signed
   * decimal value of the leading digits of tolerance and lunch time (what follows them, such as
   * `".7"` in `"15.7"`, is dropped), and the `parseFloat` value of the hours text (for a text
   * `a.b` that is the decimal value, `ParseFloatPoint`); the record is active and stamped with the
   * creation instant.
   */
  lemma NewParamsStored(body: ParamsBody, tolNegative: bool, tol: nat, tolRest: string,
                        lunchNegative: bool, lunch: nat, lunchRest: string, hours: real, now: int)
    requires body.expectedEntry.Some? && body.expectedExit.Some?
    requires body.tolerance == Some((if tolNegative then "-" else "") + DecimalText(tol) + tolRest)
    requires DecimalEnd(DecimalText(tol), tolRest)
    requires body.lunchMinutes == Some((if lunchNegative then "-" else "") + DecimalText(lunch) + lunchRest)
    requires DecimalEnd(DecimalText(lunch), lunchRest)
    requires ParseFloat(body.requiredHours.GetOr("undefined")) == Some(hours)
    ensures NewParams(body, now) == Some(ShiftParams(body.expectedEntry.value, body.expectedExit.value,
      if tolNegative then -(tol as int) else tol, hours, if lunchNegative then -(lunch as int) else lunch, true, now))
  {
    IntegerField(body.tolerance, tolNegative, tol, tolRest);
    IntegerField(body.lunchMinutes, lunchNegative, lunch, lunchRest);
    NewParamsOf(body, if tolNegative then -(tol as int) else tol, hours, if lunchNegative then -(lunch as int) else lunch, now);
  }

  /**
   * The insert fails when an expected time is absent, or when tolerance, hours or lunch time is
   * absent (read as the text `"undefined"`), empty, or starts with something no number starts with.
   */
  lemma NewParamsRejected(body: ParamsBody, now: int)
    requires || body.expectedEntry.None? || body.expectedExit.None?
             || body.tolerance.None? || body.requiredHours.None? || body.lunchMinutes.None?
             || (body.tolerance.Some? && (body.tolerance.value == [] || NotNumberStart(body.tolerance.value[0])))
             || (body.requiredHours.Some? && (body.requiredHours.value == [] || NotNumberStart(body.requiredHours.value[0])))
             || (body.lunchMinutes.Some? && (body.lunchMinutes.value == [] || NotNumberStart(body.lunchMinutes.value[0])))
    ensures NewParams(body, now).None?
  {
    ParseNaN("undefined");
    if body.tolerance.Some? && (body.tolerance.value == [] || NotNumberStart(body.tolerance.value[0])) {
      ParseNaN(body.tolerance.value);
    }
    if body.requiredHours.Some? && (body.requiredHours.value == [] || NotNumberStart(body.requiredHours.value[0])) {
      ParseNaN(body.requiredHours.value);
    }
    if body.lunchMinutes.Some? && (body.lunchMinutes.value == [] || NotNumberStart(body.lunchMinutes.value[0])) {
      ParseNaN(body.lunchMinutes.value);
    }
  }
}
