/**
 * The two link targets of the main header (src/components/layout/header.tsx):
 * the logo goes to `/` with the current query minus the tab key `v`, and the
 * preview button goes to `/preview` with the current query as it is.
 */
module Header {
  import opened UrlEncoded
  import opened SearchParams

  const TabKey := "v"

  /** `buildLogoURL`, from the current search parameters. */
  method BuildLogoURL(current: seq<Param>) returns (href: string)
    ensures Without(current, TabKey) == [] ==> href == "/"
    ensures Without(current, TabKey) != [] ==> href == "/?" + Serialize(Without(current, TabKey))
    ensures href[0] == '/' && href[|href| - 1] != '?'
  {
    var params := new URLSearchParams(current);
    params.Delete(TabKey);
    var queryString := params.ToString();
    href := if queryString != "" then "/?" + queryString else "/";
  }

  /** The logo's query holds no `v` pair and every other pair in its original order. */
  lemma LogoQueryDropsOnlyTabKey(current: seq<Param>)
    ensures !HasName(Without(current, TabKey), TabKey)
    ensures Without(Without(current, TabKey), TabKey) == Without(current, TabKey)
    ensures forall p: Param :: p.name != TabKey ==> (p in Without(current, TabKey) <==> p in current)
  {
    WithoutMembers(current, TabKey);
    WithoutTwice(current, TabKey, TabKey);
  }

  /**
   * The logo's query keeps the pairs in their original order: a pair sits
   * between what is kept of the pairs before it and of the pairs after it,
   * and a `v` pair is dropped from its place.
   */
  lemma LogoQueryKeepsOrder(before: seq<Param>, p: Param, after: seq<Param>)
    ensures Without(before + [p] + after, TabKey)
      == Without(before, TabKey) + (if p.name == TabKey then [] else [p]) + Without(after, TabKey)
  {
    WithoutAppend(before + [p], after, TabKey);
    WithoutAppend(before, [p], TabKey);
    WithoutSingle(p, TabKey);
  }

  /** `buildPreviewURL`: the current query, copied unchanged. */
  function BuildPreviewURL(current: seq<Param>): (href: string)
    ensures current == [] ==> href == "/preview"
    ensures current != [] ==> href == "/preview?" + Serialize(current)
    ensures href[|href| - 1] != '?'
  {
    var queryString := Serialize(current);
    if queryString != "" then "/preview?" + queryString else "/preview"
  }
}
