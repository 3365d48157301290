# Attendance rules of the ControlAsistencias dashboard, in Dafny

This project models the attendance core of a Next.js dashboard that records employees' entries
and exits. The system's parts are:

- the working-day evaluation route `GET /api/jornadas`, which judges each entry against the active
  shift parameters and folds the results into per-employee statistics;
- the punch-clock route `/api/jornadas/registro`: `POST` records an entry or an exit and
  keeps the day's statistics row in step, and `GET` lists the employees with both punches on
  a day;
- the standalone routes `/api/registrar_entrada` and `/api/registrar_salida`;
- the shift-parameter route `/api/parametros-jornada`, whose `POST` deactivates every record and
  then appends the new one, and whose `GET` returns the latest active record;
- the request middleware and its path matcher;
- the date-range filter of the working-day table;
- the employee search and the registration guard of the movements page.

The database is a `Records.Database` class with the four tables as fields:
- `entradas` and `salidas`, sequences of `Punch` rows;
- `parametros`, a sequence of `ShiftParams`;
- `estadisticas`, a map from the unique key (employee, day) to `DayStats`.

Each route's `POST` is a method that changes these fields. The method is proved equal to a pure
outcome function (`RegistroOutcome`, `EntradaOutcome`, `SalidaOutcome`, `PostOutcome`), and the
promises of the route are lemmas about that function.

Time conventions:
- An instant is an integer count of milliseconds read in UTC; the server runs in UTC.
- A day is `t / DayMs`.
- Managua time is the instant less six hours (`Clock.Managua`).
- `NaN` is `None`.

The `entradas.forEach` and `jornadasPorEmpleado.forEach` loops of the evaluation route are
methods with loop invariants (`Jornadas.EvaluateEntries`, `Jornadas.ComputeStats`). Each is proved
against a fold function, and the properties of the fold are lemmas.

Files:
- `text.dfy`: splitting, digits, padding, white space, filter and find;
- `numbers.dfy`: `Number`, `parseInt`, `parseFloat`;
- `clock.dfy`: instants, days, ISO texts and `extraerHora`;
- `records.dfy`: rows, the database class, range look-ups;
- `parametros.dfy`;
- `jornadas.dfy`;
- `registro.dfy`;
- `entrada.dfy`;
- `salida.dfy`;
- `middleware.dfy`;
- `jornadas_table.dfy`;
- `movimientos.dfy`.

## Model

| member | source | states |
|---|---|---|
| Clock.TimeOf | src/app/api/jornadas/route.tsx:77-80 | the hour, minute, second and millisecond of an instant are in range |
| Clock.TimeOfSplit | src/app/api/jornadas/route.tsx:77-80 | the four readings of an instant add up to the milliseconds elapsed since its midnight |
| Clock.EndOfDayTime | src/app/api/jornadas/registro/route.tsx:80 | `setHours(23,59,59,999)` gives the last millisecond of the day, which reads 23:59:59.999 |
| Clock.MsOfDaySplit | src/app/api/jornadas/registro/route.tsx:79 | an instant is the midnight of its day plus the milliseconds since |
| Clock.FormatClockFields | src/app/api/jornadas/route.tsx:77-80 | an `HH:MM:SS` text holds the two-digit hour, minute and second at positions 0, 3 and 6, with colons at 2 and 5 |
| Clock.ExtractTimeOfIso | src/app/api/jornadas/route.tsx:77-80 | `extraerHora` of an ISO instant is its `HH:MM:SS`: the text after `T`, cut at `.` |
| Clock.IsoTimePrefixOfIso | src/app/api/registrar_entrada/route.tsx:34 | the first eight characters after the `T` of an ISO instant are its `HH:MM:SS` too |
| Clock.ClockMinutesOfFormat | src/app/api/jornadas/route.tsx:138-142 | `split(':').map(Number)` of an `HH:MM:SS` text, then `HH*60+MM`, is the minutes since midnight; the seconds are ignored |
| Clock.ClockMinutesOfHourMinute | src/app/api/jornadas/route.tsx:139-142 | an expected time `HH:MM` reads back as `HH*60+MM` |
| Clock.ClockMinutesOfHourOnly | src/app/api/jornadas/registro/route.tsx:116-123 | an expected time `HH:` with an empty minute field reads as `HH*60`, since `Number("")` is 0 |
| Clock.TimeTextMinutes | src/app/api/jornadas/route.tsx:134-141 | the minutes the evaluation reads off an entry are those of its clock |
| JsNumbers.Number | src/app/api/jornadas/route.tsx:138 | `Number` of a field, when defined, is non-negative |
| JsNumbers.NumberPadded | src/app/api/jornadas/route.tsx:138 | a run of digits with white space on either side reads as its decimal value |
| JsNumbers.NumberDigits | src/app/api/jornadas/route.tsx:138 | a bare run of digits reads as its decimal value |
| JsNumbers.NumberBlank | src/app/api/jornadas/registro/route.tsx:116 | an empty or blank field reads as 0, not as `NaN` |
| JsNumbers.NumberNaN | src/app/api/jornadas/registro/route.tsx:116 | a field holding any character that is neither a digit nor white space is `NaN` |
| JsNumbers.ParseNaN | src/app/api/parametros-jornada/route.tsx:60-62 | an empty text, or one starting with a character no number starts with (such as the `"undefined"` of an absent field), is `NaN` to both `parseInt` and `parseFloat` |
| JsNumbers.UnsignedIntDecimal | src/app/api/parametros-jornada/route.tsx:60 | the digits after white space and sign read as their decimal value up to the first non-digit |
| JsNumbers.ParseIntUnsigned | src/app/api/parametros-jornada/route.tsx:60 | with no white space or sign in front, `parseInt` is the unsigned reading, and a leading `-` negates it |
| JsNumbers.ParseIntDecimal | src/app/api/parametros-jornada/route.tsx:60-62 | `parseInt` reads a number's decimal text back, ignores what follows it (`"15.7"` gives 15), and negates it after `-` |
| JsNumbers.ParseIntNaN | src/app/api/parametros-jornada/route.tsx:60 | `parseInt` of a text with no digit after the optional sign is `NaN` |
| JsNumbers.UnsignedFloatPoint | src/app/api/parametros-jornada/route.tsx:61 | the literal `a.b` reads as `a + b/10^n`, `n` the number of digits of `b` |
| JsNumbers.ParseFloatPoint | src/app/api/parametros-jornada/route.tsx:61 | `parseFloat("a.b")` is the exact decimal value `a + b/10^n`, `n` the number of digits of `b` |
| JsNumbers.UnsignedFloatDigits | src/app/api/parametros-jornada/route.tsx:61 | a plain run of digits reads as its decimal value |
| JsNumbers.ParseFloatWhole | src/app/api/parametros-jornada/route.tsx:61 | `parseFloat` of a whole number's decimal text is that number |
| Records.FindInRange | src/app/api/registrar_entrada/route.tsx:92-100 | `findFirst` over `[gte, lt)` returns a row of the employee in the range, and returns none exactly when no such row exists |
| Records.FindInRangeSnocMiss | src/app/api/jornadas/registro/route.tsx:75-93 | a row outside the range does not change what the look-up finds |
| Records.FindInRangeSnocHit | src/app/api/jornadas/registro/route.tsx:75-93 | a row inside the range, appended where none was, is what the look-up finds |
| Records.FormatPunches | src/app/api/registrar_entrada/route.tsx:32-40 | the `GET` listing keeps every row in order with its employee, shows the time as the `HH:MM:SS` the ISO text starts with, and shows the date as its day |
| Parametros.LatestActiveIndex | src/app/api/parametros-jornada/route.tsx:21-24 | the index of an active record with the greatest creation instant, the first in table order among equals; none exactly when no record is active |
| Parametros.GetParametros | src/app/api/parametros-jornada/route.tsx:15-29 | `GET` returns an active record created no earlier than any other active one, or `null` exactly when none is active |
| Parametros.Deactivated | src/app/api/parametros-jornada/route.tsx:50-53 | `updateMany` switches every record off and changes no other field |
| Parametros.PostParametros | src/app/api/parametros-jornada/route.tsx:41-79 | the table after `POST` and the reply are those of `PostOutcome`: deactivate all, then append; the other tables are unchanged |
| Parametros.PostDeactivatesOld | src/app/api/parametros-jornada/route.tsx:49-53 | every record that existed before a `POST` is inactive after it |
| Parametros.PostOnlyNewActive | src/app/api/parametros-jornada/route.tsx:49-64 | after a `POST` the only record that can be active is the new one, and only when the reply is 200 |
| Parametros.PostStatus | src/app/api/parametros-jornada/route.tsx:66-75 | the reply is 200 exactly when the body is JSON and the insert succeeds; every failure is 500 "Error al crear los parámetros" |
| Parametros.PostThenGet | src/app/api/parametros-jornada/route.tsx:15-64 | after a successful `POST`, `GET` returns the new record, whatever the table held |
| Parametros.PostFailedThenGet | src/app/api/parametros-jornada/route.tsx:15-75 | after a `POST` whose insert fails, `GET` returns `null` |
| Parametros.IntegerField | src/app/api/parametros-jornada/route.tsx:60-62 | a field sent as an optional `-`, decimal digits and a tail that does not continue the number reads as the signed value of the digits |
| Parametros.NewParamsStored | src/app/api/parametros-jornada/route.tsx:56-64 | with both expected times present, the record holds the two texts as sent, the signed decimal value of the leading digits of tolerance and lunch time (`"15.7"` stores 15), the `parseFloat` value of the hours, and is active and stamped with the creation instant |
| Parametros.NewParamsRejected | src/app/api/parametros-jornada/route.tsx:56-64 | the insert fails when an expected time or a number field is absent, or a number field is empty or starts with a character no number starts with |
| Jornadas.MinutesLate | src/app/api/jornadas/route.tsx:141-145 | minutes late are never negative; they are positive exactly when the arrival is after `expected + tolerance`, and then they are the difference |
| Jornadas.MinutesEarly | src/app/api/jornadas/route.tsx:181-184 | minutes early are never negative; they are positive exactly when the exit is before the expected one, and then they are the difference |
| Jornadas.HoursHundredths | src/app/api/jornadas/route.tsx:172-176 | the hundredths of an hour stored are within a third of a hundredth of `minutes/60` |
| Jornadas.HoursNearest | src/app/api/jornadas/route.tsx:176 | no other number of hundredths lies closer to the exact hours: `toFixed(2)` rounds to nearest |
| Jornadas.HoursExact | src/app/api/jornadas/route.tsx:176 | a whole number of three-minute steps is stored exactly |
| Jornadas.DayRecord.EntryText | src/app/api/jornadas/route.tsx:195 | `hora_entrada` is eight characters: the two-digit hour, minute and second of the entry separated by colons, and it reads back as the entry's minutes since midnight |
| Jornadas.DayRecord.ExitText | src/app/api/jornadas/route.tsx:161-166 | `hora_salida` is "Sin registro" exactly when there is no exit |
| Jornadas.FindExit | src/app/api/jornadas/route.tsx:153-156 | `salidas.find` gives the first exit of the employee on the entry's day, and none exactly when there is no such exit |
| Jornadas.EvaluateEntry | src/app/api/jornadas/route.tsx:130-203 | the record of one entry: its key is the employee and day; late exactly when past the tolerated arrival; with no exit, 0 hours, 0 minutes early, not early; with an exit, hours from the clock minutes, early exactly when more than the tolerance before the expected exit; meets the shift exactly when the hours are enough and it is neither late nor early |
| Jornadas.ToleranceBoundary | src/app/api/jornadas/route.tsx:143-145 | an arrival exactly at `expected + tolerance` is on time; one minute later is one minute late |
| Jornadas.EarlyThreshold | src/app/api/jornadas/route.tsx:184-185 | leaving exactly `tolerance` minutes early is not an early departure |
| Jornadas.LateOrEarlyFails | src/app/api/jornadas/route.tsx:188-190 | a late arrival or an early departure never meets the shift |
| Jornadas.Evaluation.Set | src/app/api/jornadas/route.tsx:192 | `Map.set` puts a new key last, keeps an existing key's place and replaces its value, and keeps the map well formed |
| Jornadas.Evaluation.Values | src/app/api/jornadas/route.tsx:238 | `Array.from(map.values())` lists the records in key insertion order |
| Jornadas.EvaluateEntries | src/app/api/jornadas/route.tsx:130-204 | the entry loop computes the fold `EvaluateAll`: the map and `llegadasTardeHoy` |
| Jornadas.EvaluateAllValid | src/app/api/jornadas/route.tsx:124-204 | the map lists each key once, has no more keys than there are entry rows, and the late-today count is at most the rows |
| Jornadas.EvaluateAllDomain | src/app/api/jornadas/route.tsx:158-192 | the map holds a record exactly for the (employee, day) keys of the entry rows |
| Jornadas.EvaluateAllFiled | src/app/api/jornadas/route.tsx:158-193 | every record is filed under its own employee and day |
| Jornadas.EvaluateAllLast | src/app/api/jornadas/route.tsx:158-203 | the record under a key is the evaluation of the last entry row with that key |
| Jornadas.DuplicateEntryOverwrites | src/app/api/jornadas/route.tsx:158-203 | two entries of one employee on one day leave one record, the later one's |
| Jornadas.ComputeStats | src/app/api/jornadas/route.tsx:207-233 | the statistics loop computes the fold `StatsOf` |
| Jornadas.CountWhere | src/app/api/jornadas/route.tsx:224-228 | a counter never exceeds the number of records |
| Jornadas.MeanStep | src/app/api/jornadas/route.tsx:229-231 | reweighting the running mean by the pre-increment count and adding one value gives the mean of one more value |
| Jornadas.AccumulateSummary | src/app/api/jornadas/route.tsx:223-232 | one step of the fold turns the summary of an employee's records into the summary with one more record |
| Jornadas.StatsOfSnoc | src/app/api/jornadas/route.tsx:209-233 | folding one more record changes only its employee's entry |
| Jornadas.StatsOfSummary | src/app/api/jornadas/route.tsx:207-233 | an employee has statistics exactly when it has records; they are then the counts and sums of its records, `dias_trabajados` the number of records and the mean of the hours their plain mean |
| Jornadas.SummaryBounds | src/app/api/jornadas/route.tsx:224-232 | late arrivals, early departures and complete days are at most the days worked; the mean times the days is the sum of the hours |
| Jornadas.SumWhereNonNegative | src/app/api/jornadas/route.tsx:226-227 | a total of non-negative minutes is non-negative |
| Jornadas.JornadasGet | src/app/api/jornadas/route.tsx:92-241 | with no active parameters the reply is their error; otherwise it is the evaluated map's values, their statistics and the late-today count |
| Registro.WrittenWindow | src/app/api/jornadas/registro/route.tsx:69-93 | as written: the day of Managua's now; the look-ups from midnight to 23:59:59.999 exclusive; the stored and read instant 23:59:59.999 itself |
| Registro.IntendedWindow | src/app/api/jornadas/registro/route.tsx:69-93 | corrected: the stored instant is Managua's now, and the look-ups cover exactly the instants of its day |
| Registro.FirstActive | src/app/api/jornadas/registro/route.tsx:96-98 | `findFirst` with no ordering gives the first active record, and none exactly when no record is active |
| Registro.EntryLateness | src/app/api/jornadas/registro/route.tsx:116-125 | minutes late are `NaN` exactly when the expected entry does not read as a clock time; otherwise they are non-negative, positive exactly when past the tolerated arrival, and then the difference |
| Registro.UpsertLateness | src/app/api/jornadas/registro/route.tsx:137-157 | the day's row takes `llegadas_tarde` 1 or 0 and the minutes late; a new row starts with no early departure and no hours; an existing row keeps them; no other row changes |
| Registro.RoundedHours | src/app/api/jornadas/registro/route.tsx:189-191 | hours in hundredths within half a hundredth of the elapsed milliseconds; a half-way value is rounded away from zero |
| Registro.RoundedHoursNearest | src/app/api/jornadas/registro/route.tsx:189-191 | no other number of hundredths lies closer to the elapsed time |
| Registro.RegistroPost | src/app/api/jornadas/registro/route.tsx:65-226 | the tables after `POST` and the reply are those of `RegistroOutcome`, with the parameters table unchanged |
| Registro.RejectionsWriteNothing | src/app/api/jornadas/registro/route.tsx:100-215 | every 400 reply (no parameters, duplicate entry, no entry, duplicate exit, unknown type) leaves all tables as they were |
| Registro.AcceptedEntry | src/app/api/jornadas/registro/route.tsx:107-162 | an accepted entry had no entry in the window; it appends one row stamped by the window and upserts the day's statistics |
| Registro.AcceptedExit | src/app/api/jornadas/registro/route.tsx:164-210 | an accepted exit had an entry and no exit in the window and a statistics row; it appends one row and sets the row's hours to the time since the entry, leaving all else |
| Registro.RegistroGuards | src/app/api/jornadas/registro/route.tsx:100-215 | in the handler's order: no active parameters gives 400 for either type; an entry already in the window gives 400 "Ya registraste tu entrada hoy"; an unreadable expected entry gives 500 after the row is inserted; for an exit, no entry gives 400 before an existing exit gives 400 "Ya registraste tu salida hoy"; a missing statistics row gives 500 after the row is inserted; any other type gives 400 "Tipo de registro inválido"; each with the tables it leaves |
| Registro.EntryAcceptedIff | src/app/api/jornadas/registro/route.tsx:96-162 | an entry is accepted exactly when parameters are active, no entry of the employee lies in the window and the expected entry reads as a clock time |
| Registro.ExitAcceptedIff | src/app/api/jornadas/registro/route.tsx:96-210 | an exit is accepted exactly when parameters are active, an entry and no exit lie in the window, and the day's statistics row exists |
| Registro.WrittenEntryInvisible | src/app/api/jornadas/registro/route.tsx:75-93 | as written, the row an entry stores is missed by every later look-up of that day |
| Registro.WrittenDuplicateAccepted | src/app/api/jornadas/registro/route.tsx:107-134 | as written, a second entry on the same day is accepted again and adds a second row |
| Registro.WrittenExitMissesEntry | src/app/api/jornadas/registro/route.tsx:164-170 | as written, an exit after an entry made through this route is refused with "No has registrado entrada hoy" |
| Registro.WrittenLatenessAtMidnight | src/app/api/jornadas/registro/route.tsx:116-146 | as written, the minutes late are those of 23:59, whatever the time of the request |
| Registro.IntendedDuplicateRejected | src/app/api/jornadas/registro/route.tsx:107-113 | corrected: after an accepted entry, a further entry that day is refused with 400 and writes nothing |
| Registro.IntendedLateness | src/app/api/jornadas/registro/route.tsx:116-146 | corrected: the minutes late are those of the request's own Managua clock |
| Registro.IntendedEntryThenExit | src/app/api/jornadas/registro/route.tsx:107-210 | corrected: an entry and then an exit on one day are both accepted; the stored hours are the rounded time between the requests, and a second exit is refused |
| Registro.Earliest | src/app/api/jornadas/registro/route.tsx:239-269 | `orderBy hora asc` then `find` gives the employee's row in the range with the earliest `hora`, and none exactly when there is no such row |
| Registro.RowFor | src/app/api/jornadas/registro/route.tsx:267-290 | a listed row shows the employee, the day and "Completo"; its entry and exit are the earliest in the range, both present for a complete employee |
| Registro.RegistroGetShape | src/app/api/jornadas/registro/route.tsx:267-296 | `total_empleados == total_registros ==` the rows listed; every row is "Completo", of the day, with both punches |
| Registro.RegistroGetListsEvery | src/app/api/jornadas/registro/route.tsx:261-265 | every employee of the directory with an entry and an exit on the day is listed |
| Registro.RegistroGetListsOnly | src/app/api/jornadas/registro/route.tsx:261-265 | every listed row is an employee of the directory with an entry and an exit on the day |
| Registro.RegistroGetOrder | src/app/api/jornadas/registro/route.tsx:261-290 | the listed employees are a subsequence of the directory, in its order, with one row each |
| Registro.WrittenEntryUnlisted | src/app/api/jornadas/registro/route.tsx:240-258 | as written, the listing of a day never shows the entry `POST` stored that day |
| RegistrarEntrada.RegistrarEntradaPost | src/app/api/registrar_entrada/route.tsx:60-131 | the entries after `POST` and the reply are those of `EntradaOutcome`; the other tables are unchanged |
| RegistrarEntrada.EntradaAccepted | src/app/api/registrar_entrada/route.tsx:65-115 | 200 exactly when the id is given, it is before noon in Managua and there is no entry that day; then exactly one row `hora == fecha ==` Managua's now is appended, otherwise nothing is written |
| RegistrarEntrada.EntradaBeforeNoon | src/app/api/registrar_entrada/route.tsx:75-83 | every stored entry is before noon of its day |
| RegistrarEntrada.EntradaOncePerDay | src/app/api/registrar_entrada/route.tsx:86-107 | after an accepted entry, every later entry of the employee that Managua day is refused |
| RegistrarSalida.RegistrarSalidaPost | src/app/api/registrar_salida/route.tsx:65-122 | the exits after `POST` and the reply are those of `SalidaOutcome`; the other tables are unchanged |
| RegistrarSalida.SalidaAccepted | src/app/api/registrar_salida/route.tsx:68-106 | 200 exactly when the id is given and there is no exit in the window, with no entry required; then exactly one row `hora == fecha ==` Managua's now is appended, otherwise nothing is written |
| RegistrarSalida.SalidaOncePerDay | src/app/api/registrar_salida/route.tsx:83-98 | after an accepted exit, any further exit of the employee on that Managua day (whatever its clock time) is refused |
| RegistrarSalida.SalidaWindowIsToday | src/app/api/registrar_salida/route.tsx:86-89 | while no exit is stamped after now, the look-up window `[day start, now + 1 day)` finds an exit exactly when there is one on the day |
| Middleware.AnyPrefix | src/middleware.ts:18-20 | `some(startsWith)` holds exactly when some route is a prefix of the path |
| Middleware.Token | src/middleware.ts:16 | a missing cookie reads as the empty token |
| Middleware.DecisionTable | src/middleware.ts:15-38 | public paths pass; otherwise sign-in exactly when there is no token outside `/auth`, home exactly when there is a token on `/auth`, pass otherwise |
| Middleware.RedirectsExclusive | src/middleware.ts:27-35 | the sign-in redirect needs no token and the home redirect a token: they never both apply |
| Middleware.MissingCookieIsEmptyToken | src/middleware.ts:16-30 | a missing cookie and an empty one decide alike, redirecting protected pages to sign-in |
| Middleware.RedirectsSettle | src/middleware.ts:28-37 | the page a redirect leads to is let through for the same request: no redirect loop |
| Middleware.ApiRoutesExcluded | src/middleware.ts:7-11 | every public API route starts, after its `/`, with the matcher's excluded `api` |
| Middleware.MatchedPublicIsMovimientos | src/middleware.ts:41-53 | of the public routes, only `/movimientos` paths reach the middleware |
| JornadasTable.FilterJornadasSingle | src/app/components/JornadasTable.tsx:74-90 | the two successive filters are the one filter on both bounds |
| JornadasTable.FilterJornadasSpec | src/app/components/JornadasTable.tsx:74-90 | the result is an order-preserving subsequence whose records' day numbers lie within the inclusive bounds, and it misses none within them |
| JornadasTable.FilterJornadasNoBounds | src/app/components/JornadasTable.tsx:75-89 | with both date fields empty the result is the input |
| JornadasTable.FilterJornadasIdempotent | src/app/components/JornadasTable.tsx:74-90 | filtering the result again with the same bounds changes nothing |
| Movimientos.StripSeparatorsSpec | src/app/movimientos/page.tsx:44 | `replace(/[-\s]/g, '')` leaves no separator, keeps every other character in order and drops nothing else |
| Movimientos.StripSeparatorsIdempotent | src/app/movimientos/page.tsx:44 | stripping twice strips nothing more |
| Movimientos.BuscarEmpleado | src/app/movimientos/page.tsx:43-53 | the first matching employee in directory order with the error cleared; no employee and "Empleado no encontrado" exactly when none matches |
| Movimientos.SeparatorsIgnored | src/app/movimientos/page.tsx:43-46 | an ID number typed with or without dashes and spaces finds the same employee |
| Movimientos.RegistrarMovimiento | src/app/movimientos/page.tsx:69-82 | nothing is sent without a selected employee; otherwise its id is posted to `/api/registrar_<tipo>` |

## Left out

- The `fecha` of a stored `Punch` is the exact instant passed to `create`, to the millisecond. The column types of `fecha_entrada` and `fecha_salida` are not part of this model. If the columns kept only the date, the stored 23:59:59.999 would become that day's midnight, which the look-ups find. Then Registro.WrittenEntryInvisible, Registro.WrittenDuplicateAccepted, Registro.WrittenExitMissesEntry and Registro.WrittenEntryUnlisted would not describe the route; Registro.WrittenLatenessAtMidnight holds either way.
- `Date`, `toISOString` and `toLocaleDateString`: instants are integers read in UTC. The server is taken to run in UTC, so `setHours(getHours() - 6)` is a six-hour subtraction. The date part of an ISO text is abstracted to a day number, and the `employee-date` text key to an (employee, day) pair.
- The `fecha` shown by the evaluation and by the listings, which is `toLocaleDateString('es-ES')` text, is kept as a day number.
- Floating point: hours are integer hundredths (`toFixed(2)`), and the mean of the hours and `horas_laborales` are exact reals. Rounding error in the mean is not modelled. Registro.RoundedHours: an exact half-way value follows exact arithmetic and rounds away from zero. `toFixed(2)` rounds the nearest double, which can lie below the tie: 54000 ms is 0.01499… h as a double and prints "0.01", where the model stores 2 hundredths.
- Jornadas.JornadasGet, Jornadas.EvaluateEntry: require that the active parameters' expected times read as `HH:MM` (`ShiftTimesParse`); the route's arithmetic with `NaN` for malformed times is not modelled.
- JsNumbers.Number: models white space at both ends and the empty text (0), and digits; it reads a fraction (`"8.5"`), a sign, an exponent, a `0x`/`0o`/`0b` prefix and `"Infinity"` as `NaN`, where JavaScript gives a number. The clock texts the routes read hold only digits.
- Registro.EntryLateness: inherits this from `Number`; an expected entry such as `"08.5:00"` or `"-1:00"`, which JavaScript reads as a number, is `NaN` here.
- JsNumbers.ParseFloat: `"Infinity"` and `"-Infinity"`, which `parseFloat` accepts, are `NaN` here; there is no infinite real.
- Parametros.NewParamsStored: tolerance and lunch time are unbounded integers. The 32-bit width of the database's integer columns, which refuses larger values, is not modelled.
- JornadasTable.FilterJornadasSpec: the bounds are compared as day numbers, so the property holds of the dates the records and fields mean. The source compares `new Date(jornada.fecha)`, `fecha` being `toLocaleDateString('es-ES')` text `d/M/yyyy`, with `new Date("YYYY-MM-DD")`. How `new Date` parses `d/M/yyyy` is engine-defined: common engines read it month first, and give an invalid date (every comparison false) for days above 12. That parsing is not modelled.
- Jornadas.EvaluateAll: the skip of an entry row with no `fecha_entrada` or no `hora_entrada` (src/app/api/jornadas/route.tsx:131) is not modelled; a `Punch` always has both.
- Database failures other than the ones the code provokes (a `NaN` in an insert, an `update` of a missing statistics row) are not modelled. In the punch-clock route, the message of such an error is the parameter `err`.
- Row ids, defaults the database adds and the rows `create` returns are left out.
- The check-then-insert race between concurrent requests is left out.
- The punch-clock route does not validate `id_empleado`; an absent id is not modelled there, and the body always carries one.
- A `GET` of the punch-clock listing with an invalid `fecha` is not modelled. The employee directory it fetches over HTTP is a parameter.
- The order among records with the same `fecha_creacion` (parameters) or the same `hora` (listing) is unspecified by the database; the model takes the first in table order.
- Non-numeric `id_empleado` values in the entry and exit routes are left out: the id is an optional integer, and `!id` is "absent or 0".
- The React pages, their state setters, timers and the fetch calls around the search and the registration are left out.
- The login, directory and department proxies, the placeholder statistics routes and `src/app/api/jornadas/parametros/route.tsx` are not part of this model.

## Findings

| source | as written | input that shows it | evidently intended | confidence | as-written member | corrected member |
|---|---|---|---|---|---|---|
| src/app/api/jornadas/registro/route.tsx:79-134 | `setHours(0,0,0,0)` and then `setHours(23,59,59,999)` mutate `fechaActual` itself while the look-ups are built. The row is then stored at 23:59:59.999, and the lookups use `lt` that same instant, so they exclude it. This assumes the `fecha_*` columns keep the instant to the millisecond; the lateness read at 23:59 does not depend on it. | an employee posts `entrada` twice on one day, or posts `entrada` then `salida` | the request's own time is stored and read, and the look-ups cover the whole day | not executed; the duplicate and missed-exit part assumes millisecond `fecha_*` columns | Registro.WrittenDuplicateAccepted, Registro.WrittenExitMissesEntry, Registro.WrittenLatenessAtMidnight, Registro.WrittenEntryUnlisted | Registro.IntendedDuplicateRejected, Registro.IntendedEntryThenExit, Registro.IntendedLateness |
