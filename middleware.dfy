/**
 * The request `middleware` of src/middleware.ts: a visitor without a session
 * cookie whose URL still carries a highlight key is redirected to the same URL
 * without the highlight keys; every other request passes through.
 */
module RequestMiddleware {
  import opened UrlEncoded
  import opened SearchParams
  import ClearHighlight

  /** The incoming request: its cookie jar (name to value) and its URL. */
  datatype Request = Request(cookies: map<string, string>, url: Url)

  /** `NextResponse.next()` or `NextResponse.redirect(location)`. */
  datatype Response = Next | Redirect(location: Url)

  /** `request.cookies.get(sessionKey)?.value` is present and not empty. */
  predicate HasSession(cookies: map<string, string>, sessionKey: string) {
    sessionKey in cookies && cookies[sessionKey] != ""
  }

  /** `sessionKey` is the configured name of the session cookie. */
  method Middleware(request: Request, sessionKey: string) returns (response: Response)
    ensures HasSession(request.cookies, sessionKey) ==> response == Next
    ensures !HasSession(request.cookies, sessionKey) && ClearHighlight.HasHighlight(request.url.query) ==>
      response == Redirect(request.url.(query := ClearHighlight.Others(request.url.query)))
    ensures !HasSession(request.cookies, sessionKey) && !ClearHighlight.HasHighlight(request.url.query) ==>
      response == Next
    ensures response.Redirect? ==> !ClearHighlight.HasHighlight(response.location.query)
  {
    if !HasSession(request.cookies, sessionKey) {
      var searchParams := new URLSearchParams(request.url.query);
      if searchParams.Has(ClearHighlight.Highlight) || searchParams.Has(ClearHighlight.HighlightLinks) {
        searchParams.Delete(ClearHighlight.Highlight);
        searchParams.Delete(ClearHighlight.HighlightLinks);
        WithoutKeepsOtherNames(Without(request.url.query, ClearHighlight.Highlight),
                               ClearHighlight.HighlightLinks, ClearHighlight.Highlight);
        return Redirect(request.url.(query := searchParams.list));
      }
    }
    return Next;
  }

  /**
   * The redirect keeps every pair whose name is not a highlight key, and in
   * the same order: dropping the highlight keys from the target changes nothing.
   */
  lemma RedirectKeepsOtherParams(query: seq<Param>, p: Param)
    requires p.name != ClearHighlight.Highlight && p.name != ClearHighlight.HighlightLinks
    ensures p in ClearHighlight.Others(query) <==> p in query
    ensures ClearHighlight.Others(ClearHighlight.Others(query)) == ClearHighlight.Others(query)
  {
    WithoutMembers(query, ClearHighlight.Highlight);
    WithoutMembers(Without(query, ClearHighlight.Highlight), ClearHighlight.HighlightLinks);
    ClearHighlight.ClearedKeepsOthers(query, ClearHighlight.All);
  }

  /**
   * Following the redirect with the same cookies passes through, so there is
   * no redirect loop: `second` is the response to the followed redirect, or
   * the first response when that was already `next`.
   */
  method NoRedirectLoop(request: Request, sessionKey: string) returns (first: Response, second: Response)
    ensures second == Next
  {
    first := Middleware(request, sessionKey);
    second := first;
    if first.Redirect? {
      second := Middleware(Request(request.cookies, first.location), sessionKey);
    }
  }
}
