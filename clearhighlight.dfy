/**
 * The `clearHighlightParams` callback of src/hooks/use-clear-highlight-params.ts:
 * it removes the `highlight` and/or `highlight-links` query keys from the
 * current location and, when it removed something, navigates to the new URL.
 */
module ClearHighlight {
  import opened Wrappers
  import opened UrlEncoded
  import opened SearchParams

  /** Which highlight the caller wants gone (`ShouldDelete`). */
  datatype Area = All | Links | Profile

  const Highlight := "highlight"
  const HighlightLinks := "highlight-links"

  predicate HasHighlight(query: seq<Param>) {
    HasName(query, Highlight) || HasName(query, HighlightLinks)
  }

  /** The query with both highlight keys gone: every other pair, in order. */
  function Others(query: seq<Param>): seq<Param> {
    Without(Without(query, Highlight), HighlightLinks)
  }

  /**
   * The area rule: PROFILE drops only `highlight` when it is there, LINKS drops
   * only `highlight-links` when it is there, and every other case drops both.
   */
  function Cleared(query: seq<Param>, area: Area): seq<Param> {
    if area == Profile && HasName(query, Highlight) then Without(query, Highlight)
    else if area == Links && HasName(query, HighlightLinks) then Without(query, HighlightLinks)
    else Others(query)
  }

  /** The pathname, followed by `?` and the query only when the query is not empty. */
  function Href(pathname: string, query: seq<Param>): (href: string)
    ensures query == [] ==> href == pathname
    ensures query != [] ==> href == pathname + "?" + Serialize(query) && href[|href| - 1] != '?'
  {
    var qs := Serialize(query);
    if qs != "" then pathname + "?" + qs else pathname
  }

  /**
   * Runs the callback against the current location (`window.location.href`)
   * and returns the URL handed to `router.replace`, or None when it is not called.
   */
  method ClearHighlightParams(location: Url, area: Area := All) returns (newUrl: Option<string>)
    ensures newUrl.Some? <==> HasHighlight(location.query)
    ensures newUrl.Some? ==> newUrl.value == Href(location.pathname, Cleared(location.query, area))
  {
    var params := new URLSearchParams(location.query);
    var shouldUpdateUrl := false;
    if area == Profile && params.Has(Highlight) {
      params.Delete(Highlight);
      shouldUpdateUrl := true;
    } else if area == Links && params.Has(HighlightLinks) {
      params.Delete(HighlightLinks);
      shouldUpdateUrl := true;
    } else {
      if params.Has(Highlight) || params.Has(HighlightLinks) {
        params.Delete(Highlight);
        params.Delete(HighlightLinks);
        shouldUpdateUrl := true;
      }
    }
    newUrl := None;
    if shouldUpdateUrl {
      var qs := params.ToString();
      newUrl := Some(if qs != "" then location.pathname + "?" + qs else location.pathname);
    }
  }

  /** PROFILE with `highlight` present removes it and keeps `highlight-links` as it was. */
  lemma ClearedProfile(query: seq<Param>)
    requires HasName(query, Highlight)
    ensures var r := Cleared(query, Profile);
      r == Without(query, Highlight) && !HasName(r, Highlight)
      && (HasName(r, HighlightLinks) <==> HasName(query, HighlightLinks))
  {
    WithoutKeepsOtherNames(query, Highlight, HighlightLinks);
  }

  /** LINKS with `highlight-links` present removes it and keeps `highlight` as it was. */
  lemma ClearedLinks(query: seq<Param>)
    requires HasName(query, HighlightLinks)
    ensures var r := Cleared(query, Links);
      r == Without(query, HighlightLinks) && !HasName(r, HighlightLinks)
      && (HasName(r, Highlight) <==> HasName(query, Highlight))
  {
    WithoutKeepsOtherNames(query, HighlightLinks, Highlight);
  }

  /** ALL, and PROFILE or LINKS whose own key is absent, remove both keys. */
  lemma ClearedFallThrough(query: seq<Param>, area: Area)
    requires area == All || (area == Profile && !HasName(query, Highlight))
                         || (area == Links && !HasName(query, HighlightLinks))
    ensures Cleared(query, area) == Others(query)
    ensures !HasHighlight(Cleared(query, area))
  {
    WithoutKeepsOtherNames(Without(query, Highlight), HighlightLinks, Highlight);
  }

  /** Pairs with any other name are never added, removed or reordered. */
  lemma ClearedKeepsOthers(query: seq<Param>, area: Area)
    ensures Others(Cleared(query, area)) == Others(query)
  {
    WithoutTwice(query, Highlight, HighlightLinks);
    WithoutTwice(query, Highlight, Highlight);
    WithoutTwice(query, HighlightLinks, HighlightLinks);
    WithoutTwice(Without(query, HighlightLinks), Highlight, Highlight);
    WithoutTwice(Without(query, Highlight), HighlightLinks, HighlightLinks);
  }
}
