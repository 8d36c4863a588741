/** The "Back to Editor" link of src/app/preview/back-to-editor.tsx. */
module BackToEditor {
  import opened UrlEncoded

  /** `buildURL`: `/` with the current query copied unchanged, and no bare `?`. */
  function BuildURL(current: seq<Param>): (href: string)
    ensures current == [] <==> href == "/"
    ensures current != [] ==> href == "/?" + Serialize(current)
    ensures href[0] == '/' && href[|href| - 1] != '?'
  {
    var queryString := Serialize(current);
    if queryString != "" then "/?" + queryString else "/"
  }
}
