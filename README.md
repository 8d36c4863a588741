# devlinks: query-string, string and share-readiness logic

A Dafny model of the small, self-contained pieces of logic in the devlinks app (a Next.js link-sharing site):

- **String helpers** (`src/lib/utils.ts`):
  - `normalizeURL` puts `https://` in front of a non-blank URL that does not already name http or https.
  - `extractUserNameParts` splits a display name into a first name and a last name.
- **Highlight-parameter clearing**: two places remove the `highlight` and `highlight-links` query keys.
  - The client hook `clearHighlightParams` removes one key or both, depending on the area asked for. When it removed something, it returns the URL handed to `router.replace`.
  - The request `middleware` checks for a session cookie. Without one, a URL that carries a highlight key is redirected to the same URL without those keys.
- **Share-readiness check** (`validateUserInfo`): lists, in a fixed order, what a user must still fill in before sharing. It also counts the links without a URL, in a pluralised message, and collects the ids of those links.
- **Link builders** (`buildLogoURL`, `buildPreviewURL`, `buildTabURL`, `buildURL`), plus the selected tab slot and the tab buttons' `aria-pressed` state.
  - Each builder copies the current search parameters, optionally deletes or sets the tab key `v`, and serialises to `/…?qs`.
  - The `?` is dropped when the query is empty.

Search parameters are an ordered list of (name, value) pairs, following the `URLSearchParams` class of section 6.2 of the WHATWG URL Standard:

- `delete(n)` removes every pair named `n`.
- `set(n, v)` replaces the value of the first pair named `n` and removes the later ones, or appends the pair when there is none.
- `has(n)` tests whether some pair is named `n`, and `get(n)` gives the value of the first such pair.
- `toString` is the `application/x-www-form-urlencoded` serializer of section 5.2 of the same standard. It writes each name and value as UTF-8 and percent-encodes it, with a space written as `+`.

The code that mutates state keeps that form here:

- A `URLSearchParams` object is a class whose `delete` and `set` methods reassign its pair list.
- The hook, the middleware, the logo and tab builders and the validator are methods that work step by step, as the source does.
- Each method is proved against a specification function.

Modules: `Wrappers` (Option), `JsString` (`trim`, `split`, `join`, decimal rendering), `UrlEncoded` (the serializer), `SearchParams` (pair-list operations, the `URLSearchParams` class, URLs), `Utils`, `ClearHighlight`, `RequestMiddleware`, `Preview`, `Header`, `TabButtons`, `BackToEditor`.

## Model

| member | source | states |
|---|---|---|
| JsString.BlankIffTrimEmpty | src/lib/utils.ts:13 | `s.trim() === ""` holds exactly when every character of `s` is one that `trim` removes (ECMAScript WhiteSpace and LineTerminator) |
| JsString.BlankIffAllWhitespace | src/lib/utils.ts:13 | a string is blank iff each of its characters is whitespace |
| JsString.TrimStartEmptyIff | src/lib/utils.ts:13 | trimming the start leaves nothing iff the string is blank |
| JsString.Trim | src/lib/utils.ts:13 | `trim` is trimming the start, then the end |
| JsString.IsBlank | src/lib/utils.ts:13 | every character is one that `trim` removes |
| JsString.TrimStart | src/lib/utils.ts:13 | the result is a suffix of the input, the dropped prefix is blank, and the result is empty or starts with a non-whitespace character |
| JsString.TrimEnd | src/lib/utils.ts:13 | the result is a prefix of the input, the dropped suffix is blank, and the result is empty or ends with a non-whitespace character |
| JsString.BlankAppend | src/lib/utils.ts:13 | two strings glued together are blank iff both are |
| JsString.Split | src/lib/utils.ts:23 | `split(" ")` gives at least one piece; no piece holds the separator; a string without the separator is one piece; a string with it gives at least two |
| JsString.Join | src/lib/utils.ts:25 | `join(" ")`: the pieces with one separator between neighbours |
| JsString.JoinSplit | src/lib/utils.ts:23-25 | joining the pieces of a split with the same separator gives the string back |
| JsString.NatToString | src/app/preview/actions/preview.ts:43 | the decimal rendering of a count is a non-empty string of digits with no leading zero |
| JsString.DecimalValue | src/app/preview/actions/preview.ts:43 | the number a digit string denotes, most significant digit first |
| JsString.NatToStringValue | src/app/preview/actions/preview.ts:43 | the rendering of a count denotes that count |
| Utils.HasHttpScheme | src/lib/utils.ts:15 | `/^https?:\/\//i`: the URL starts with `http://` or `https://`, ASCII letters compared without case |
| Utils.NormalizeURL | src/lib/utils.ts:12-20 | a blank URL is returned unchanged; a URL starting with `http://` or `https://` in any case is returned unchanged; any other URL becomes `"https://" + url`, untrimmed; a non-blank input always gives a URL with an http(s) scheme |
| Utils.NormalizeURLIdempotent | src/lib/utils.ts:12-20 | normalising twice is normalising once |
| Utils.ExtractUserNameParts | src/lib/utils.ts:22-28 | always exactly two strings, and the first name never contains a space |
| Utils.ExtractUserNamePartsOfEmpty | src/lib/utils.ts:23-27 | `undefined` or `""` gives `["", ""]` |
| Utils.ExtractUserNamePartsSingleWord | src/lib/utils.ts:23-25 | a name without a space is all first name, and the last name is `""` |
| Utils.ExtractUserNamePartsRoundTrip | src/lib/utils.ts:23-25 | for a name with a space, `firstName + " " + lastName` is the name |
| UrlEncoded.Serialize | src/components/layout/header.tsx:20 | `toString()` is `""` exactly for the empty pair list and never contains `?` |
| SearchParams.HasName | src/hooks/use-clear-highlight-params.ts:17 | `has(n)`: some pair is named `n` |
| SearchParams.FirstValue | src/components/layout/tab-btns.tsx:12 | `get(n)`: the value of the first pair named `n`, or none |
| SearchParams.HasNameIff | src/hooks/use-clear-highlight-params.ts:17 | `has(n)` holds iff some pair is named `n` |
| SearchParams.Without | src/components/layout/header.tsx:19 | `delete(n)` leaves no pair named `n`, and changes nothing when there was none |
| SearchParams.WithoutMembers | src/components/layout/header.tsx:19 | `delete(n)` keeps exactly the pairs not named `n` |
| SearchParams.WithoutSingle | src/components/layout/header.tsx:19 | `delete(n)` on one pair removes it iff it is named `n` |
| SearchParams.WithoutAppend | src/components/layout/header.tsx:19 | `delete(n)` on a concatenation is the concatenation of the deletes, so the kept pairs keep their order and multiplicity |
| SearchParams.WithoutTwice | src/middleware.ts:13-14 | two deletes commute, and deleting the same name twice is deleting it once |
| SearchParams.WithoutKeepsOtherNames | src/hooks/use-clear-highlight-params.ts:18 | deleting one name keeps the presence of every other name |
| SearchParams.WithValue | src/components/layout/tab-btns.tsx:20 | after `set(n, v)` a pair named `n` is present |
| SearchParams.WithValueSetsOnePair | src/components/layout/tab-btns.tsx:20 | after `set(n, v)` exactly one pair is named `n`, and `get(n)` is `v` |
| SearchParams.WithValueKeepsOthers | src/components/layout/tab-btns.tsx:20 | `set(n, v)` keeps the pairs with other names, in order |
| SearchParams.WithValuePosition | src/components/layout/tab-btns.tsx:20 | an existing `n` keeps its position; otherwise the pair is appended |
| SearchParams.WithValueIdempotent | src/components/layout/tab-btns.tsx:20 | setting the same pair twice is setting it once |
| SearchParams.URLSearchParams.constructor | src/components/layout/header.tsx:18 | a copy of the current parameters holds the same pairs |
| SearchParams.URLSearchParams.Has | src/hooks/use-clear-highlight-params.ts:17 | `has(n)` on the object is membership of its pair list |
| SearchParams.URLSearchParams.Delete | src/components/layout/header.tsx:19 | `delete(n)` replaces the list by its pairs not named `n` |
| SearchParams.URLSearchParams.Set | src/components/layout/tab-btns.tsx:20 | `set(n, v)` replaces the list as `WithValue` describes |
| SearchParams.URLSearchParams.ToString | src/components/layout/header.tsx:20 | `toString()` is the form-urlencoded serialisation of the object's pairs, empty iff it holds no pair |
| ClearHighlight.HasHighlight | src/hooks/use-clear-highlight-params.ts:24 | either highlight key is present |
| ClearHighlight.Others | src/hooks/use-clear-highlight-params.ts:25-26 | both highlight keys deleted, everything else kept |
| ClearHighlight.Cleared | src/hooks/use-clear-highlight-params.ts:17-28 | the area rule: PROFILE with `highlight` drops it, LINKS with `highlight-links` drops it, anything else drops both |
| ClearHighlight.Href | src/hooks/use-clear-highlight-params.ts:32 | the bare pathname when no parameter remains, otherwise `pathname + "?" + qs`, never ending in a bare `?` |
| ClearHighlight.ClearHighlightParams | src/hooks/use-clear-highlight-params.ts:11-34 | a new URL is produced iff some highlight key was present, and it is the pathname with the query the area rule leaves |
| ClearHighlight.ClearedProfile | src/hooks/use-clear-highlight-params.ts:17-19 | PROFILE with `highlight` present removes only `highlight`; `highlight-links` stays as it was |
| ClearHighlight.ClearedLinks | src/hooks/use-clear-highlight-params.ts:20-22 | LINKS with `highlight-links` present removes only `highlight-links`; `highlight` stays as it was |
| ClearHighlight.ClearedFallThrough | src/hooks/use-clear-highlight-params.ts:23-28 | ALL, and PROFILE or LINKS without their own key, remove both keys |
| ClearHighlight.ClearedKeepsOthers | src/hooks/use-clear-highlight-params.ts:14-28 | pairs with other names are never added, removed or reordered |
| RequestMiddleware.HasSession | src/middleware.ts:7-9 | the session cookie is present with a non-empty value |
| RequestMiddleware.Middleware | src/middleware.ts:5-20 | a session cookie means next; no session plus a highlight key means a redirect to the same URL with both keys removed and everything else kept; no session and no key means next; a redirect target holds no highlight key |
| RequestMiddleware.RedirectKeepsOtherParams | src/middleware.ts:11-14 | every pair not named by a highlight key is in the redirect target iff it was in the request, and the non-highlight pairs of the target are those of the request, in order |
| RequestMiddleware.NoRedirectLoop | src/middleware.ts:12-15 | after a redirect, running the middleware on its target gives next, so the second response is always next |
| Preview.Message.Text | src/app/preview/actions/preview.ts:43 | the count message ends in `s` iff the count exceeds one |
| Preview.UrlTextLayout | src/app/preview/actions/preview.ts:43 | the count message is `Missing URL for `, the decimal count, then a space |
| Preview.TextInjective | src/app/preview/actions/preview.ts:12-43 | no two messages have the same wording |
| Preview.NatToStringInjective | src/app/preview/actions/preview.ts:43 | different counts render differently |
| Preview.Texts | src/app/preview/actions/preview.ts:8 | the wording list has one entry per message, in the same order |
| Preview.IsBlankField | src/app/preview/actions/preview.ts:16 | a field is missing when it is absent or its trimmed value is empty |
| Preview.BlankUrlLinks | src/app/preview/actions/preview.ts:39 | the links whose URL is absent or trims to the empty string, in order |
| Preview.BlankUrlLinksMultiplicity | src/app/preview/actions/preview.ts:39 | the filter keeps each link with a blank URL as many times as it occurs and no other link, so its length is the number of links with a blank URL |
| Preview.NonEmptyIds | src/app/preview/actions/preview.ts:41 | the ids of the links, with the empty ones dropped, in order |
| Preview.BlankUrlLinksMembers | src/app/preview/actions/preview.ts:39 | the filter keeps exactly the links whose URL is absent or whitespace-only |
| Preview.NonEmptyIdsMembers | src/app/preview/actions/preview.ts:41 | the ids kept are exactly the non-empty ids present on the links |
| Preview.LinkIdsOfBlankLinks | src/app/preview/actions/preview.ts:39-41 | each empty-link id is the non-empty id of a link with a blank URL, and none is missed |
| Preview.NoBlankUrlLinks | src/app/preview/actions/preview.ts:40 | the filter keeps nothing iff no link has a blank URL |
| Preview.Opt | src/app/preview/actions/preview.ts:16-18 | a conditional push adds the message iff its condition holds, and nothing else |
| Preview.LinkMessages | src/app/preview/actions/preview.ts:35-45 | the link check: "Missing Shareable Links" for no links, otherwise the count message when some link has a blank URL |
| Preview.MissingInfo | src/app/preview/actions/preview.ts:16-45 | the field checks in order image, name, email, followed by the link check |
| Preview.EmptyLinkIds | src/app/preview/actions/preview.ts:38-41 | the non-empty ids of the links with a blank URL, or none when there are no links |
| Preview.MissingInfoMembers | src/app/preview/actions/preview.ts:16-46 | image, name and email messages each appear iff the field is absent or blank; the no-links message appears iff there are no links; the count message appears iff some link has a blank URL, and carries that count; the no-profile message never appears for an existing user |
| Preview.MissingInfoShape | src/app/preview/actions/preview.ts:16-46 | at most four messages, in the order image, name, email, links |
| Preview.EmptyLinkIdsOfBlankLinks | src/app/preview/actions/preview.ts:39-41 | the empty-link ids are exactly the non-empty ids of links without a URL |
| Preview.ValidateUserInfo | src/app/preview/actions/preview.ts:7-53 | no user gives invalid with only "No User Profile" and no ids; otherwise the messages and the ids are the ones the specification functions give; `emptyLinkIds` is present only when non-empty; `isValid` holds iff there is no message |
| Header.BuildLogoURL | src/components/layout/header.tsx:17-22 | `/` when no non-`v` pair remains, otherwise `"/?" + qs` of the query without `v`; the result starts with `/` and never ends in a bare `?` |
| Header.LogoQueryDropsOnlyTabKey | src/components/layout/header.tsx:18-20 | the logo's query has no `v` pair and holds exactly the other pairs |
| Header.LogoQueryKeepsOrder | src/components/layout/header.tsx:18-20 | every pair other than `v` stays between what is kept before it and what is kept after it, so the kept pairs keep their original order |
| Header.BuildPreviewURL | src/components/layout/header.tsx:24-28 | `/preview` for empty parameters, otherwise `"/preview?" + qs` of the unchanged parameters; never a bare `?` |
| TabButtons.CurrentSlot | src/components/layout/tab-btns.tsx:12 | the slot is `links` when `v` is absent or empty, otherwise the value of `v` |
| TabButtons.BuildTabURL | src/components/layout/tab-btns.tsx:18-22 | `"/?"` followed by the serialisation of the current query with `v` set to the tab; never a bare `?` |
| TabButtons.TabQueryShape | src/components/layout/tab-btns.tsx:19-20 | exactly one `v` pair, holding the tab; other pairs are kept in order; an existing `v` keeps its position, and otherwise `v` is appended |
| TabButtons.TabQueryIdempotent | src/components/layout/tab-btns.tsx:20 | building a tab link from a tab link's query, with the same tab, changes nothing |
| TabButtons.TabLinkSelectsTab | src/components/layout/tab-btns.tsx:12-20 | following a link to a non-empty tab selects that tab |
| TabButtons.LinksPressed | src/components/layout/tab-btns.tsx:32 | the links tab's `aria-pressed` |
| TabButtons.DetailsPressed | src/components/layout/tab-btns.tsx:47 | the details tab's `aria-pressed` |
| TabButtons.AtMostOneTabPressed | src/components/layout/tab-btns.tsx:32-47 | at most one tab is pressed: links iff the slot is `links`, details iff it is `details` |
| BackToEditor.BuildURL | src/app/preview/back-to-editor.tsx:11-15 | `/` exactly for empty parameters, otherwise `"/?" + qs` of the unchanged parameters; always starts with `/` and never ends in a bare `?` |

## Left out

- Database access: the links that `validateUserInfo` reads from the `links` collection (src/app/preview/actions/preview.ts:31-33) are passed in as a parameter.
- `prevState` is not used by `validateUserInfo`, so the model has no such parameter.
- Preview.Message.Text: the messages are a datatype, and `Texts` gives their wording. The caller receives `Texts(missingInfo)`, and `TextInjective` shows that no information is lost.
- Reading the location: the hook's `window.location.href` and the request URL are inputs. `router.replace`, `NextResponse.next` and `NextResponse.redirect` become returned values.
- Copying parameters: `new URLSearchParams(searchParams.toString())` is modelled as a copy of the same pairs. The parser of section 5.1 of the WHATWG URL Standard is not modelled, so that parsing the serialisation gives the pairs back is assumed and not proved.
- URL re-serialisation: after the middleware's `delete`, the URL re-serialises its query. The redirect target is modelled as a URL record holding the remaining pairs, not as its string form.
- Lone surrogates: the serializer writes every `char` as a Unicode scalar value. The replacement-character rule for lone UTF-16 surrogates is not modelled.
- The session cookie's name comes from the environment configuration (src/lib/config.ts), which is not part of this model. `Middleware` takes it as a parameter.
- The middleware's path matcher (src/middleware.ts:22-24) decides which requests reach the middleware. It is a Next.js routing concern and is not modelled.
- React state: `useOptimistic` and `handleSlotTransition` in src/components/layout/tab-btns.tsx:12-16 are rendering concerns. The model uses the slot read from the query.
- Case folding: the `i` flag of `/^https?:\/\//i` is modelled by folding ASCII letters only. This matches the non-Unicode regular-expression mode for these ASCII patterns.
- Session resolution, guest identity and link transfer live in modules that are imported but not part of this model.
- Reading `v`: `searchParams.get("v")` in src/components/layout/tab-btns.tsx:12 reads the page's read-only parameters, which nothing mutates. `CurrentSlot` therefore reads the pair list through `FirstValue` rather than through an object.
