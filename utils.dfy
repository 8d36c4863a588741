/** The string helpers of src/lib/utils.ts: URL normalisation and display-name splitting. */
module Utils {
  import opened Wrappers
  import opened JsString

  function ToLowerAscii(c: char): char {
    if 'A' <= c <= 'Z' then (c as int + 32) as char else c
  }

  /** `s` begins with `prefix`, ASCII letters compared without regard to case. */
  predicate StartsWithIgnoringCase(s: string, prefix: string) {
    |prefix| <= |s| && forall i :: 0 <= i < |prefix| ==> ToLowerAscii(s[i]) == ToLowerAscii(prefix[i])
  }

  /**
   * The test `/^https?:\/\//i`. Without the `u` flag the case-insensitive
   * matcher folds only ASCII letters onto `h`, `t`, `p` and `s`.
   */
  predicate HasHttpScheme(url: string) {
    StartsWithIgnoringCase(url, "http://") || StartsWithIgnoringCase(url, "https://")
  }

  /**
   * `normalizeURL`: a blank URL is returned as it is, a URL that already
   * names http or https is returned as it is, and any other URL gets
   * `https://` in front of the untrimmed input.
   */
  function NormalizeURL(url: string): (r: string)
    ensures IsBlank(url) ==> r == url
    ensures !IsBlank(url) && HasHttpScheme(url) ==> r == url
    ensures !IsBlank(url) && !HasHttpScheme(url) ==> r == "https://" + url
    ensures !IsBlank(url) ==> HasHttpScheme(r)
  {
    if IsBlank(url) then url
    else if !HasHttpScheme(url) then "https://" + url
    else url
  }

  lemma NotBlankWithPrefix(prefix: string, url: string)
    requires !IsBlank(url)
    ensures !IsBlank(prefix + url)
  {
    BlankIffAllWhitespace(url);
    BlankIffAllWhitespace(prefix + url);
    var i :| 0 <= i < |url| && !IsWhitespace(url[i]);
    assert (prefix + url)[|prefix| + i] == url[i];
  }

  /** Normalising twice is normalising once. */
  lemma NormalizeURLIdempotent(url: string)
    ensures NormalizeURL(NormalizeURL(url)) == NormalizeURL(url)
  {
    if !IsBlank(url) && !HasHttpScheme(url) {
      NotBlankWithPrefix("https://", url);
    }
  }

  /**
   * `extractUserNameParts`: the first piece of the name split on spaces,
   * and the remaining pieces joined back with spaces; an absent name gives
   * two empty strings. The first name never holds a space.
   */
  function ExtractUserNameParts(username: Option<string>): (r: seq<string>)
    ensures |r| == 2
    ensures ' ' !in r[0]
  {
    var nameParts := if username.Some? then Split(username.value, ' ') else [];
    var firstName := if |nameParts| > 0 then nameParts[0] else "";
    var lastName := Join(if |nameParts| > 0 then nameParts[1..] else [], ' ');
    [firstName, lastName]
  }

  /** No name, or the empty name, gives two empty strings. */
  lemma ExtractUserNamePartsOfEmpty(username: Option<string>)
    requires username == None || username == Some("")
    ensures ExtractUserNameParts(username) == ["", ""]
  {
  }

  /** A name without a space is all first name. */
  lemma ExtractUserNamePartsSingleWord(name: string)
    requires ' ' !in name
    ensures ExtractUserNameParts(Some(name)) == [name, ""]
  {
  }

  /** With a space, joining first and last name with a space gives the name back. */
  lemma ExtractUserNamePartsRoundTrip(name: string)
    requires ' ' in name
    ensures var r := ExtractUserNameParts(Some(name)); r[0] + " " + r[1] == name
  {
    var parts := Split(name, ' ');
    JoinSplit(name, ' ');
    assert Join(parts, ' ') == parts[0] + [' '] + Join(parts[1..], ' ');
  }
}
