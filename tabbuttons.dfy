/**
 * The tab buttons of src/components/layout/tab-btns.tsx: the selected slot is
 * read from the `v` query key, each tab links to the current query with `v`
 * set to that tab, and a tab is shown pressed when it is the selected slot.
 */
module TabButtons {
  import opened Wrappers
  import opened UrlEncoded
  import opened SearchParams

  const TabKey := "v"
  const LinksSlot := "links"
  const DetailsSlot := "details"

  /** `searchParams.get("v") || "links"`: an absent or empty `v` selects the links slot. */
  function CurrentSlot(current: seq<Param>): (slot: string)
    ensures slot != ""
    ensures FirstValue(current, TabKey) == None || FirstValue(current, TabKey) == Some("") ==> slot == LinksSlot
    ensures FirstValue(current, TabKey).Some? && FirstValue(current, TabKey) != Some("") ==>
      Some(slot) == FirstValue(current, TabKey)
  {
    match FirstValue(current, TabKey)
    case None => LinksSlot
    case Some(v) => if v == "" then LinksSlot else v
  }

  /** `buildTabURL(tab)`: the current query with `v` set to the tab. */
  method BuildTabURL(current: seq<Param>, tab: string) returns (href: string)
    ensures href == "/?" + Serialize(WithValue(current, TabKey, tab))
    ensures |href| > 2 && href[|href| - 1] != '?'
  {
    var params := new URLSearchParams(current);
    params.Set(TabKey, tab);
    href := "/?" + params.ToString();
  }

  /**
   * The tab link's query has exactly one `v` pair, holding the tab; every other
   * pair keeps its relative order; an existing `v` keeps its position.
   */
  lemma TabQueryShape(current: seq<Param>, tab: string)
    ensures var q := WithValue(current, TabKey, tab);
      && CountName(q, TabKey) == 1
      && FirstValue(q, TabKey) == Some(tab)
      && Without(q, TabKey) == Without(current, TabKey)
      && (HasName(current, TabKey) ==> IndexOfName(q, TabKey) == IndexOfName(current, TabKey))
      && (!HasName(current, TabKey) ==> q == current + [Param(TabKey, tab)])
  {
    WithValueSetsOnePair(current, TabKey, tab);
    WithValueKeepsOthers(current, TabKey, tab);
    WithValuePosition(current, TabKey, tab);
  }

  /** Building the tab link from a tab link's own query with the same tab changes nothing. */
  lemma TabQueryIdempotent(current: seq<Param>, tab: string)
    ensures WithValue(WithValue(current, TabKey, tab), TabKey, tab) == WithValue(current, TabKey, tab)
  {
    WithValueIdempotent(current, TabKey, tab);
  }

  /** Following a tab link selects that tab, unless the tab is the empty string. */
  lemma TabLinkSelectsTab(current: seq<Param>, tab: string)
    requires tab != ""
    ensures CurrentSlot(WithValue(current, TabKey, tab)) == tab
  {
    WithValueSetsOnePair(current, TabKey, tab);
  }

  /** `aria-pressed` of the links tab. */
  predicate LinksPressed(slot: string) {
    slot == LinksSlot
  }

  /** `aria-pressed` of the details tab. */
  predicate DetailsPressed(slot: string) {
    slot == DetailsSlot
  }

  /** At most one tab is pressed, and which one follows the slot. */
  lemma AtMostOneTabPressed(slot: string)
    ensures !(LinksPressed(slot) && DetailsPressed(slot))
    ensures LinksPressed(slot) <==> slot == "links"
    ensures DetailsPressed(slot) <==> slot == "details"
  {
  }
}
