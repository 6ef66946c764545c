/** The route gate that runs before every matched page request. */
module Middleware {
  import opened Text

  /** The decoded session token, reduced to the role it carries (absent if the token has none). */
  datatype Token = Token(role: Option<string>)

  /** What the gate answers: let the request through, or redirect it. */
  datatype Outcome = Next | RedirectToSignIn | RedirectToHome

  const SignInPath := "/auth/signin"
  const PublicPaths: seq<string> := [SignInPath, "/auth/signup"]
  const AdminArea := "/admin"

  /** `publicPaths.some(path => pathname.startsWith(path))`. */
  predicate IsPublicPath(pathname: string)
  {
    exists i :: 0 <= i < |PublicPaths| && StartsWith(pathname, PublicPaths[i])
  }

  /** `middleware`: public prefixes pass, a missing token goes to sign-in, and the admin area
      sends anyone whose token role is not `ADMIN` back to `/`. Each outcome is stated by the
      conditions that lead to it. */
  function Decide(pathname: string, token: Option<Token>): (r: Outcome)
    ensures r == Next <==>
      IsPublicPath(pathname) ||
      (token.Some? && (!StartsWith(pathname, AdminArea) || token.value.role == Some("ADMIN")))
    ensures r == RedirectToSignIn <==> !IsPublicPath(pathname) && token.None?
    ensures r == RedirectToHome <==>
      !IsPublicPath(pathname) && token.Some? && StartsWith(pathname, AdminArea) &&
      token.value.role != Some("ADMIN")
  {
    if IsPublicPath(pathname) then Next
    else if token.None? then RedirectToSignIn
    else if StartsWith(pathname, AdminArea) && token.value.role != Some("ADMIN") then RedirectToHome
    else Next
  }

  /** Sign-in and sign-up pages, and anything that extends their path, pass with or without a token. */
  lemma PublicPathsPass(pathname: string, token: Option<Token>)
    requires StartsWith(pathname, "/auth/signin") || StartsWith(pathname, "/auth/signup")
    ensures Decide(pathname, token) == Next
  {
    if StartsWith(pathname, "/auth/signin") {
      assert StartsWith(pathname, PublicPaths[0]);
    } else {
      assert StartsWith(pathname, PublicPaths[1]);
    }
  }

  /** The public test is a prefix test: a path that merely begins like a public page is public too. */
  lemma PrefixMakesPublic()
    ensures Decide("/auth/signupX", None) == Next
    ensures Decide("/auth/signin-help", None) == Next
  {
    PublicPathsPass("/auth/signupX", None);
    PublicPathsPass("/auth/signin-help", None);
  }

  /** Without a token every non-public path is redirected to sign-in. */
  lemma NoTokenGoesToSignIn(pathname: string)
    requires !IsPublicPath(pathname)
    ensures Decide(pathname, None) == RedirectToSignIn
  {
  }

  /** An `ADMIN` token is never redirected. */
  lemma AdminNeverRedirected(pathname: string, token: Token)
    requires token.role == Some("ADMIN")
    ensures Decide(pathname, Some(token)) == Next
  {
  }

  /** Any token reaches every path outside the admin area. */
  lemma TokenReachesNonAdminPaths(pathname: string, token: Token)
    requires !StartsWith(pathname, AdminArea)
    ensures Decide(pathname, Some(token)) == Next
  {
  }

  /** In the admin area, a token without the `ADMIN` role (or without a role) is sent to `/`. */
  lemma AdminAreaNeedsAdminRole(pathname: string, token: Token)
    requires StartsWith(pathname, AdminArea)
    ensures Decide(pathname, Some(token)) == RedirectToHome <==> token.role != Some("ADMIN")
  {
    assert !IsPublicPath(pathname) by {
      forall i | 0 <= i < |PublicPaths| ensures !StartsWith(pathname, PublicPaths[i]) {
        assert pathname[1] == 'a';
        assert PublicPaths[i][1] == 'a';
        assert pathname[2] == 'd';
        assert PublicPaths[i][2] == 'u';
      }
    }
  }

  /** The segments the `config.matcher` pattern excludes, right after the leading `/`. */
  const ExcludedPrefixes: seq<string> :=
    ["api/auth", "_next", "fonts", "icons", "images", "favicon.ico", "sitemap.xml"]

  /** `pattern`, read as a regular expression whose one special character is `.`, matches the
      start of `s`. */
  predicate PatternPrefix(s: string, pattern: string)
  {
    |pattern| <= |s| && forall k :: 0 <= k < |pattern| ==> pattern[k] == '.' || s[k] == pattern[k]
  }

  /** `config.matcher`: `/((?!api/auth|_next|fonts|icons|images|favicon.ico|sitemap.xml).*)`:
      the path starts with `/` and what follows does not begin with an excluded segment. */
  predicate Matched(pathname: string)
  {
    && |pathname| >= 1 && pathname[0] == '/'
    && forall i :: 0 <= i < |ExcludedPrefixes| ==> !PatternPrefix(pathname[1..], ExcludedPrefixes[i])
  }

  /** The gate as the framework applies it: paths the matcher excludes are never gated, so a
      redirect happens only on a matched path. */
  function Route(pathname: string, token: Option<Token>): (r: Outcome)
    ensures r == RedirectToSignIn <==> Matched(pathname) && !IsPublicPath(pathname) && token.None?
    ensures r == RedirectToHome <==>
      && Matched(pathname) && !IsPublicPath(pathname) && token.Some?
      && StartsWith(pathname, AdminArea) && token.value.role != Some("ADMIN")
  {
    if Matched(pathname) then Decide(pathname, token) else Next
  }

  /** The matcher's exclusion is a prefix test: a path it excludes stays excluded whatever is
      appended to it. */
  lemma {:induction false} ExclusionSurvivesExtension(pathname: string, suffix: string)
    requires |pathname| >= 1 && !Matched(pathname)
    ensures !Matched(pathname + suffix)
  {
    var longer := pathname + suffix;
    assert longer[0] == pathname[0];
    if pathname[0] == '/' {
      var i :| 0 <= i < |ExcludedPrefixes| && PatternPrefix(pathname[1..], ExcludedPrefixes[i]);
      var pattern := ExcludedPrefixes[i];
      forall k | 0 <= k < |pattern| ensures pattern[k] == '.' || longer[1..][k] == pattern[k] {
        assert longer[1..][k] == pathname[1..][k];
      }
      assert PatternPrefix(longer[1..], pattern);
    }
  }

  /** A path the matcher excludes passes even without a token. */
  lemma ExcludedPathsPass(pathname: string, i: nat)
    requires i < |ExcludedPrefixes|
    requires |pathname| >= 1 && PatternPrefix(pathname[1..], ExcludedPrefixes[i])
    ensures Route(pathname, None) == Next
  {
  }

  /** The exclusions are prefix tests, and the `.` in `favicon.ico` matches any character. */
  lemma MatcherExamples()
    ensures !Matched("/api/auth/session") && !Matched("/api/authors")
    ensures !Matched("/_next/static/app.js") && !Matched("/faviconXico")
    ensures Matched("/api/posts") && Matched("/admin/logs") && Matched("/")
  {
    assert PatternPrefix("/api/auth/session"[1..], ExcludedPrefixes[0]);
    assert PatternPrefix("/api/authors"[1..], ExcludedPrefixes[0]);
    assert PatternPrefix("/_next/static/app.js"[1..], ExcludedPrefixes[1]);
    assert PatternPrefix("/faviconXico"[1..], ExcludedPrefixes[5]);
    var p := "/api/posts";
    forall i | 0 <= i < |ExcludedPrefixes| ensures !PatternPrefix(p[1..], ExcludedPrefixes[i]) {
      if i == 0 { assert p[1..][4] != ExcludedPrefixes[0][4]; }
      else { assert p[1..][0] != ExcludedPrefixes[i][0]; }
    }
    var q := "/admin/logs";
    forall i | 0 <= i < |ExcludedPrefixes| ensures !PatternPrefix(q[1..], ExcludedPrefixes[i]) {
      if i == 0 { assert q[1..][1] != ExcludedPrefixes[0][1]; }
      else { assert q[1..][0] != ExcludedPrefixes[i][0]; }
    }
  }
}
