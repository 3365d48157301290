/**
 * The movement page's employee search and registration guard: an employee is found by an ID
 * number typed with or without separators, or by the social-security number as typed.
 */
module Movimientos {
  import opened Wrappers
  import opened Text
  import opened Seqs
  import opened Records

  const NotFoundMessage := "Empleado no encontrado"

  /** The characters of `/[-\s]/`. */
  predicate IsSeparator(c: char)
  {
    c == '-' || IsJsWhitespace(c)
  }

  function KeepChar(c: char): bool
  {
    !IsSeparator(c)
  }

  /** `s.replace(/[-\s]/g, '')`. */
  function StripSeparators(s: string): string
  {
    Filter(s, KeepChar)
  }

  /** What is left has no separator, keeps every other character in order, and drops nothing else. */
  lemma StripSeparatorsSpec(s: string)
    ensures var r := StripSeparators(s);
      && IsSubsequence(r, s)
      && (forall i :: 0 <= i < |r| ==> !IsSeparator(r[i]))
      && (forall c :: c in s && !IsSeparator(c) ==> c in r)
  {
    FilterSpec(s, KeepChar);
  }

  /** Stripping twice strips nothing more. */
  lemma StripSeparatorsIdempotent(s: string)
    ensures StripSeparators(StripSeparators(s)) == StripSeparators(s)
  {
    FilterSpec(s, KeepChar);
    FilterAll(StripSeparators(s), KeepChar);
  }

  /** The `data.find` predicate of `buscarEmpleado`. */
  function Matches(query: string): Employee -> bool
  {
    (e: Employee) => StripSeparators(e.cedula) == StripSeparators(query) || e.inss == query
  }

  /** The employee and the error text `buscarEmpleado` leaves on the page. */
  datatype Search = Search(empleado: Option<Employee>, error: string)

  /** `buscarEmpleado` on the directory it fetched. */
  function BuscarEmpleado(roster: seq<Employee>, query: string): (r: Search)
    ensures r.empleado.Some? ==> r.error == "" && exists i :: (0 <= i < |roster| && roster[i] == r.empleado.value
      && Matches(query)(roster[i]) && forall j :: 0 <= j < i ==> !Matches(query)(roster[j]))
    ensures r.empleado.None? <==> forall i :: 0 <= i < |roster| ==> !Matches(query)(roster[i])
    ensures r.empleado.None? ==> r.error == NotFoundMessage
  {
    match First(roster, Matches(query))
    case Some(e) => Search(Some(e), "")
    case None => Search(None, NotFoundMessage)
  }

  /** An ID number typed with dashes or spaces finds the employee whose stored number differs only in those. */
  lemma SeparatorsIgnored(roster: seq<Employee>, query: string, typed: string)
    requires StripSeparators(typed) == StripSeparators(query)
    requires forall i :: 0 <= i < |roster| ==> roster[i].inss != query && roster[i].inss != typed
    ensures BuscarEmpleado(roster, typed) == BuscarEmpleado(roster, query)
  {
    forall i | 0 <= i < |roster|
      ensures Matches(typed)(roster[i]) == Matches(query)(roster[i])
    {
    }
    FirstSame(roster, Matches(typed), Matches(query));
  }

  lemma FirstSame<T>(xs: seq<T>, p: T -> bool, q: T -> bool)
    requires forall i :: 0 <= i < |xs| ==> p(xs[i]) == q(xs[i])
    ensures First(xs, p) == First(xs, q)
  {
    match FirstIndex(xs, q)
    case None =>
    case Some(i) => FirstIndexUnique(xs, p, i);
  }

  /** The request `registrarMovimiento` sends: the route and the body. */
  datatype Movement = Movement(path: string, body: IdBody)

  /** `registrarMovimiento`: nothing is sent without a selected employee; otherwise its id goes to the route of the kind. */
  function RegistrarMovimiento(empleado: Option<Employee>, tipo: string): (r: Option<Movement>)
    ensures r.None? <==> empleado.None?
    ensures r.Some? ==> r.value.path == "/api/registrar_" + tipo && r.value.body == IdBody(Some(empleado.value.id))
  {
    match empleado
    case None => None
    case Some(e) => Some(Movement("/api/registrar_" + tipo, IdBody(Some(e.id))))
  }
}
