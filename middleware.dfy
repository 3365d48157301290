/**
 * The request middleware: public routes pass, a request without a session token is sent to the
 * sign-in page, a signed-in request for a sign-in page is sent home; the matcher decides which
 * paths the middleware sees at all.
 */
module Middleware {
  import opened Wrappers

  /** `publicRoutes`. */
  const PublicRoutes: seq<string> := [
    "/movimientos",
    "/api/departamentos",
    "/api/lista_empleados",
    "/api/jornadas",
    "/api/registrar_entrada",
    "/api/registrar_salida"
  ]

  const SignInPath := "/auth/signin"
  const HomePath := "/"

  /** `NextResponse.next()` or `NextResponse.redirect(...)`. */
  datatype Action = Next | Redirect(target: string)

  /** `s.startsWith(prefix)`. */
  predicate StartsWith(s: string, prefix: string)
  {
    |prefix| <= |s| && s[..|prefix|] == prefix
  }

  /** `routes.some(route => path.startsWith(route))`. */
  function AnyPrefix(routes: seq<string>, path: string): (r: bool)
    ensures r <==> exists i :: 0 <= i < |routes| && StartsWith(path, routes[i])
    decreases |routes|
  {
    if |routes| == 0 then false
    else StartsWith(path, routes[0]) || AnyPrefix(routes[1..], path)
  }

  predicate IsPublic(path: string)
  {
    AnyPrefix(PublicRoutes, path)
  }

  predicate IsAuthPage(path: string)
  {
    StartsWith(path, "/auth")
  }

  /** `request.cookies.get('token')?.value || ''`: an absent cookie reads as the empty token. */
  function Token(cookie: Option<string>): (t: string)
    ensures cookie.None? ==> t == ""
    ensures cookie.Some? ==> t == cookie.value
  {
    cookie.GetOr("")
  }

  /** `middleware`: the decision for a path and the value of the `token` cookie. */
  function Decide(path: string, cookie: Option<string>): Action
  {
    var token := Token(cookie);
    if IsPublic(path) then Next
    else if token == "" && !IsAuthPage(path) then Redirect(SignInPath)
    else if token != "" && IsAuthPage(path) then Redirect(HomePath)
    else Next
  }

  /**
   * The decision table: a public path always passes; otherwise a missing token outside `/auth`
   * goes to sign-in, a token on an `/auth` page goes home, and everything else passes.
   */
  lemma DecisionTable(path: string, cookie: Option<string>)
    ensures IsPublic(path) ==> Decide(path, cookie) == Next
    ensures !IsPublic(path) ==>
      (Decide(path, cookie) == Redirect(SignInPath) <==> Token(cookie) == "" && !IsAuthPage(path))
    ensures !IsPublic(path) ==>
      (Decide(path, cookie) == Redirect(HomePath) <==> Token(cookie) != "" && IsAuthPage(path))
    ensures Decide(path, cookie) == Next || Decide(path, cookie) == Redirect(SignInPath) || Decide(path, cookie) == Redirect(HomePath)
  {
  }

  /** The two redirects never apply to the same request: one needs a token and the other its absence. */
  lemma RedirectsExclusive(path: string, cookie: Option<string>)
    ensures Decide(path, cookie) == Redirect(SignInPath) ==> Token(cookie) == "" && !IsAuthPage(path)
    ensures Decide(path, cookie) == Redirect(HomePath) ==> Token(cookie) != "" && IsAuthPage(path)
  {
  }

  /** A missing cookie and an empty one lead to the same decision. */
  lemma MissingCookieIsEmptyToken(path: string)
    ensures Decide(path, None) == Decide(path, Some(""))
    ensures !IsPublic(path) && !IsAuthPage(path) ==> Decide(path, None) == Redirect(SignInPath)
  {
  }

  /** A redirect leads to a page the same request lets through: the middleware never loops. */
  lemma RedirectsSettle(path: string, cookie: Option<string>)
    requires Decide(path, cookie).Redirect?
    ensures Decide(Decide(path, cookie).target, cookie) == Next
  {
    assert !StartsWith(HomePath, "/movimientos");
    assert StartsWith(SignInPath, "/auth");
    if Decide(path, cookie) == Redirect(HomePath) {
      assert !IsPublic(HomePath) by {
        forall i | 0 <= i < |PublicRoutes|
          ensures !StartsWith(HomePath, PublicRoutes[i])
        {
        }
      }
    } else {
      assert !IsPublic(SignInPath) by {
        forall i | 0 <= i < |PublicRoutes|
          ensures !StartsWith(SignInPath, PublicRoutes[i])
        {
          assert SignInPath[1] == 'a' && SignInPath[2] == 'u';
        }
      }
    }
  }

  /** The prefixes the matcher's negative look-ahead excludes after the leading `/`; the `.` of `favicon.ico` stands for any character. */
  const ExcludedPatterns: seq<string> := ["api", "_next/static", "_next/image", "favicon.ico", "public"]

  /** `s` begins with `pattern`, where a `.` in the pattern matches any one character. */
  predicate StartsWithPattern(s: string, pattern: string)
  {
    |pattern| <= |s| && forall i :: 0 <= i < |pattern| ==> pattern[i] == '.' || s[i] == pattern[i]
  }

  /** `/((?!api|_next/static|_next/image|favicon.ico|public).*)`: the paths the middleware runs on. */
  predicate Matched(path: string)
  {
    |path| >= 1 && path[0] == '/' && forall i :: 0 <= i < |ExcludedPatterns| ==> !StartsWithPattern(path[1..], ExcludedPatterns[i])
  }

  /** A path under one of the API routes begins, after its `/`, with the matcher's first excluded pattern. */
  lemma ApiPrefixed(path: string, i: nat)
    requires 1 <= i < |PublicRoutes| && StartsWith(path, PublicRoutes[i])
    ensures StartsWithPattern(path[1..], ExcludedPatterns[0])
  {
    assert PublicRoutes[i][..4] == "/api";
    assert path[..4] == PublicRoutes[i][..4];
    assert path[1..][..3] == path[..4][1..];
  }

  lemma ApiRoutesExcluded(path: string)
    ensures forall i :: 1 <= i < |PublicRoutes| && StartsWith(path, PublicRoutes[i]) ==> StartsWithPattern(path[1..], ExcludedPatterns[0])
  {
    forall i | 1 <= i < |PublicRoutes| && StartsWith(path, PublicRoutes[i])
      ensures StartsWithPattern(path[1..], ExcludedPatterns[0])
    {
      ApiPrefixed(path, i);
    }
  }

  /** Of the public routes, only `/movimientos` is ever seen by the middleware: the API routes are excluded by the matcher. */
  lemma MatchedPublicIsMovimientos(path: string)
    requires Matched(path) && IsPublic(path)
    ensures StartsWith(path, "/movimientos")
  {
    ApiRoutesExcluded(path);
  }
}
