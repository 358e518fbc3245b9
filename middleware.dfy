/**
 * The edge middleware that runs before every page and API route: public paths
 * pass through; a request for `/` without a session cookie is redirected to
 * sign-in; everything else passes through as well.
 */
module Middleware {
  import opened Text

  /** The paths listed as public by name. */
  const PublicPaths: set<string> := {
    "/api/auth/signin",
    "/api/auth/callback/workos",
    "/api/auth/signout",
    "/api/auth/session",
    "/api/auth/csrf",
    "/api/auth/providers",
    "/api/auth/error",
    "/auth/error"
  }

  /** The prefix and suffix rules: Next.js assets, auth routes, images and `/public/`. */
  predicate MatchesPublicPattern(path: string) {
    || StartsWith(path, "/_next")
    || StartsWith(path, "/api/auth/")
    || EndsWith(path, ".ico")
    || EndsWith(path, ".png")
    || EndsWith(path, ".jpg")
    || EndsWith(path, ".jpeg")
    || EndsWith(path, ".svg")
    || StartsWith(path, "/public/")
  }

  /** isPublicPath: a member of the set, or a path matching one of the patterns. */
  predicate IsPublicPath(path: string) {
    path in PublicPaths || MatchesPublicPattern(path)
  }

  /** The two responses the middleware can give. */
  datatype Decision =
    | PassThrough
      /** A redirect to `signInPath`, carrying the original URL as `callbackUrl`. */
    | RedirectToSignIn(signInPath: string, callbackUrl: string)

  const SignInPath: string := "/api/auth/signin"

  /**
   * middleware: `path` is the request's pathname, `hasSessionCookie` whether a
   * `fit1-session` cookie came with it, and `requestUrl` the full request URL.
   */
  function Decide(path: string, hasSessionCookie: bool, requestUrl: string): Decision
  {
    if IsPublicPath(path) then PassThrough
    else if !hasSessionCookie && path == "/" then RedirectToSignIn(SignInPath, requestUrl)
    else PassThrough
  }

  /** The root path is not public. */
  lemma RootIsNotPublic()
    ensures !IsPublicPath("/")
  {
  }

  /**
   * A request is redirected exactly when it is for `/` and carries no session
   * cookie, and the redirect goes to the sign-in route with the original URL
   * as the callback.
   */
  lemma RedirectIffRootWithoutSession(path: string, hasSessionCookie: bool, requestUrl: string)
    ensures Decide(path, hasSessionCookie, requestUrl).RedirectToSignIn?
      <==> !hasSessionCookie && path == "/"
    ensures Decide(path, hasSessionCookie, requestUrl).RedirectToSignIn? ==>
      Decide(path, hasSessionCookie, requestUrl) == RedirectToSignIn("/api/auth/signin", requestUrl)
  {
    RootIsNotPublic();
  }

  /**
   * A named public path, or one matching a prefix or suffix rule, always passes
   * through, session or not.
   */
  lemma PublicPathsPassThrough(path: string, hasSessionCookie: bool, requestUrl: string)
    requires path in PublicPaths || MatchesPublicPattern(path)
    ensures IsPublicPath(path)
    ensures Decide(path, hasSessionCookie, requestUrl) == PassThrough
  {
  }

  /** Every path under `/api/auth/` is public, so no auth route is ever redirected. */
  lemma AuthRoutesPassThrough(path: string, hasSessionCookie: bool, requestUrl: string)
    requires StartsWith(path, "/api/auth/")
    ensures Decide(path, hasSessionCookie, requestUrl) == PassThrough
  {
  }

  lemma AuthErrorIsNotAPattern()
    ensures !MatchesPublicPattern("/auth/error")
  {
    var p := "/auth/error";
    assert p[..6] == "/auth/" != "/_next";
    assert p[..8] == "/auth/er" != "/public/";
    assert p[..10] == "/auth/erro" != "/api/auth/";
    assert p[|p| - 4..] == "rror";
    assert p[|p| - 5..] == "error";
  }

  lemma UnderApiAuth(p: string)
    requires |p| >= 10 && p[..10] == "/api/auth/"
    ensures MatchesPublicPattern(p)
  {
  }

  /**
   * `/auth/error` is the only named public path that the prefix and suffix
   * rules do not already cover.
   */
  lemma OnlyAuthErrorNeedsTheSet()
    ensures forall p :: p in PublicPaths ==> (MatchesPublicPattern(p) <==> p != "/auth/error")
  {
    AuthErrorIsNotAPattern();
    forall p | p in PublicPaths && p != "/auth/error"
      ensures MatchesPublicPattern(p)
    {
      UnderApiAuth(p);
    }
  }
}
