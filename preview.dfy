/**
 * The share-readiness check `validateUserInfo` of src/app/preview/actions/preview.ts.
 * It lists, in a fixed order, what a user still has to fill in before sharing,
 * and which of their links have no URL. The links are the ones stored for the
 * user, passed in rather than read from the database.
 */
module Preview {
  import opened Wrappers
  import opened JsString

  /** The user fields the check reads. */
  datatype User = User(image: Option<string>, username: Option<string>, email: string)

  /** The link fields the check reads: the stored id, when there is one, and the URL. */
  datatype LinkDocument = LinkDocument(id: Option<string>, url: string)

  /** One entry of `missingInfo`; `Text` gives its exact wording. */
  datatype Message =
    | NoUserProfile
    | MissingProfileImage
    | MissingName
    | MissingEmailAddress
    | MissingShareableLinks
    | MissingUrls(count: nat)
  {
    function Text(): (t: string)
      ensures MissingUrls? ==> |t| > 0 && (count > 1 <==> t[|t| - 1] == 's')
    {
      match this
      case NoUserProfile => "No User Profile"
      case MissingProfileImage => "Missing Profile Image"
      case MissingName => "Missing Name"
      case MissingEmailAddress => "Missing Email Address"
      case MissingShareableLinks => "Missing Shareable Links"
      case MissingUrls(k) => "Missing URL for " + NatToString(k) + " Link" + (if k > 1 then "s" else "")
    }

    /** The place of a message in the order image, name, email, links. */
    function Rank(): nat {
      match this
      case MissingProfileImage => 0
      case MissingName => 1
      case MissingEmailAddress => 2
      case _ => 3
    }
  }

  /** The action's result; `emptyLinkIds` is left out of the object when it would be empty. */
  datatype ShareLinkState = ShareLinkState(isValid: bool, missingInfo: seq<Message>, emptyLinkIds: Option<seq<string>>)

  /** The wording of `missingInfo`, as the caller receives it. */
  function Texts(ms: seq<Message>): (ts: seq<string>)
    ensures |ts| == |ms|
    ensures forall i :: 0 <= i < |ms| ==> ts[i] == ms[i].Text()
  {
    if ms == [] then [] else [ms[0].Text()] + Texts(ms[1..])
  }

  lemma {:induction false} NatToStringInjective(a: nat, b: nat)
    requires NatToString(a) == NatToString(b)
    ensures a == b
  {
    var s := NatToString(a);
    if a >= 10 && b >= 10 {
      assert NatToString(a / 10) == s[..|s| - 1] == NatToString(b / 10);
      NatToStringInjective(a / 10, b / 10);
      assert DigitChar(a % 10) == s[|s| - 1] == DigitChar(b % 10);
    }
  }

  /** The ninth character tells a count message from the others. */
  lemma TextKey(m: Message)
    ensures |m.Text()| > 8 && (m.MissingUrls? <==> m.Text()[8] == 'U')
  {
  }

  /** A count message is the fixed prefix, the digits of the count, then a space. */
  lemma UrlTextLayout(k: nat)
    ensures var t, d := MissingUrls(k).Text(), NatToString(k);
      && |t| > 16 + |d|
      && t[16..16 + |d|] == d
      && t[16 + |d|] == ' '
      && forall i :: 16 <= i < 16 + |d| ==> '0' <= t[i] <= '9'
  {
  }

  /** No two messages have the same wording, so `Texts` loses nothing. */
  lemma TextInjective(m1: Message, m2: Message)
    requires m1.Text() == m2.Text()
    ensures m1 == m2
  {
    TextKey(m1);
    TextKey(m2);
    if m1.MissingUrls? && m2.MissingUrls? {
      UrlTextLayout(m1.count);
      UrlTextLayout(m2.count);
      if |NatToString(m1.count)| == |NatToString(m2.count)| {
        NatToStringInjective(m1.count, m2.count);
      }
    } else if !m1.MissingUrls? && !m2.MissingUrls? {
      assert m1.Text()[8] == m2.Text()[8];
    }
  }

  /** `!field || field.trim() === ""` */
  predicate IsBlankField(field: Option<string>) {
    field.None? || IsBlank(field.value)
  }

  /** `links.filter(link => !link.url || link.url.trim() === "")` */
  function BlankUrlLinks(links: seq<LinkDocument>): (r: seq<LinkDocument>)
    ensures |r| <= |links|
  {
    if links == [] then []
    else (if IsBlank(links[0].url) then [links[0]] else []) + BlankUrlLinks(links[1..])
  }

  /** The filter keeps exactly the links whose URL is blank. */
  lemma {:induction false} BlankUrlLinksMembers(links: seq<LinkDocument>)
    ensures forall l :: l in BlankUrlLinks(links) <==> l in links && IsBlank(l.url)
  {
    if links != [] {
      BlankUrlLinksMembers(links[1..]);
      assert links == [links[0]] + links[1..];
    }
  }

  /** The filter keeps every link with a blank URL as often as it occurs, and no other link. */
  lemma {:induction false} BlankUrlLinksMultiplicity(links: seq<LinkDocument>)
    ensures forall l :: multiset(BlankUrlLinks(links))[l] == if IsBlank(l.url) then multiset(links)[l] else 0
  {
    if links != [] {
      BlankUrlLinksMultiplicity(links[1..]);
      assert links == [links[0]] + links[1..];
    }
  }

  /** `links.map(link => link._id?.toString() || "").filter(Boolean)` */
  function NonEmptyIds(links: seq<LinkDocument>): (ids: seq<string>)
    ensures |ids| <= |links|
  {
    if links == [] then []
    else
      var id := if links[0].id.Some? then links[0].id.value else "";
      (if id != "" then [id] else []) + NonEmptyIds(links[1..])
  }

  /** The ids kept are exactly the non-empty ids present on the links. */
  lemma {:induction false} NonEmptyIdsMembers(links: seq<LinkDocument>)
    ensures forall id :: id in NonEmptyIds(links) ==> id != "" && exists l :: l in links && l.id == Some(id)
    ensures forall l :: l in links && l.id.Some? && l.id.value != "" ==> l.id.value in NonEmptyIds(links)
  {
    if links != [] {
      NonEmptyIdsMembers(links[1..]);
      assert links == [links[0]] + links[1..];
      forall id | id in NonEmptyIds(links) ensures exists l :: l in links && l.id == Some(id) {
        if id !in NonEmptyIds(links[1..]) {
          assert links[0].id == Some(id);
        } else {
          var l :| l in links[1..] && l.id == Some(id);
          assert l in links;
        }
      }
    }
  }

  /** What the empty-link ids promise: each is a non-empty id of a link without URL, and none is missed. */
  ghost predicate IdsOfBlankLinks(links: seq<LinkDocument>, ids: seq<string>) {
    && (forall id :: id in ids ==> id != "" && exists l :: l in links && IsBlank(l.url) && l.id == Some(id))
    && (forall l :: l in links && IsBlank(l.url) && l.id.Some? && l.id.value != "" ==> l.id.value in ids)
  }

  lemma LinkIdsOfBlankLinks(links: seq<LinkDocument>)
    ensures IdsOfBlankLinks(links, NonEmptyIds(BlankUrlLinks(links)))
  {
    var emptyLinks := BlankUrlLinks(links);
    BlankUrlLinksMembers(links);
    NonEmptyIdsMembers(emptyLinks);
    forall id | id in NonEmptyIds(emptyLinks)
      ensures exists l :: l in links && IsBlank(l.url) && l.id == Some(id)
    {
      var l :| l in emptyLinks && l.id == Some(id);
    }
  }

  /** No link has a blank URL exactly when the filter keeps none. */
  lemma NoBlankUrlLinks(links: seq<LinkDocument>)
    ensures BlankUrlLinks(links) == [] <==> forall l :: l in links ==> !IsBlank(l.url)
  {
    BlankUrlLinksMembers(links);
    if BlankUrlLinks(links) != [] {
      assert BlankUrlLinks(links)[0] in BlankUrlLinks(links);
    }
  }

  /** `[m]` when `b` holds, `[]` otherwise: one conditional `push`. */
  function Opt(b: bool, m: Message): (r: seq<Message>)
    ensures m in r <==> b
    ensures |r| <= 1 && forall x :: x in r ==> x == m
  {
    if b then [m] else []
  }

  /** What the link check contributes to `missingInfo`. */
  function LinkMessages(links: seq<LinkDocument>): seq<Message> {
    if links == [] then [MissingShareableLinks]
    else Opt(|BlankUrlLinks(links)| > 0, MissingUrls(|BlankUrlLinks(links)|))
  }

  /** `missingInfo` for a user who exists: the field checks, then the link check. */
  function MissingInfo(u: User, links: seq<LinkDocument>): seq<Message> {
    Opt(IsBlankField(u.image), MissingProfileImage)
      + Opt(IsBlankField(u.username), MissingName)
      + Opt(IsBlank(u.email), MissingEmailAddress)
      + LinkMessages(links)
  }

  /** `emptyLinkIds` for a user who exists. */
  function EmptyLinkIds(links: seq<LinkDocument>): seq<string> {
    if links != [] && |BlankUrlLinks(links)| > 0 then NonEmptyIds(BlankUrlLinks(links)) else []
  }

  /** The messages come in the order image, name, email, links, each at most once. */
  ghost predicate RankOrdered(ms: seq<Message>) {
    forall i, j :: 0 <= i < j < |ms| ==> ms[i].Rank() < ms[j].Rank()
  }

  /** Each message is present exactly when its condition holds. */
  lemma MissingInfoMembers(u: User, links: seq<LinkDocument>)
    ensures MissingProfileImage in MissingInfo(u, links) <==> IsBlankField(u.image)
    ensures MissingName in MissingInfo(u, links) <==> IsBlankField(u.username)
    ensures MissingEmailAddress in MissingInfo(u, links) <==> IsBlank(u.email)
    ensures MissingShareableLinks in MissingInfo(u, links) <==> links == []
    ensures NoUserProfile !in MissingInfo(u, links)
    ensures forall m :: m in MissingInfo(u, links) && m.MissingUrls? ==>
      links != [] && m.count == |BlankUrlLinks(links)| > 0
    ensures links != [] && |BlankUrlLinks(links)| > 0 <==> MissingUrls(|BlankUrlLinks(links)|) in MissingInfo(u, links)
  {
  }

  /** At most four messages, in rank order. */
  lemma MissingInfoShape(u: User, links: seq<LinkDocument>)
    ensures |MissingInfo(u, links)| <= 4
    ensures RankOrdered(MissingInfo(u, links))
  {
    var a := Opt(IsBlankField(u.image), MissingProfileImage);
    var b := Opt(IsBlankField(u.username), MissingName);
    var c := Opt(IsBlank(u.email), MissingEmailAddress);
    var d := LinkMessages(links);
    assert |d| <= 1 && forall m :: m in d ==> m.Rank() == 3;
    OrderedAppend(a, b, 0, 1);
    OrderedAppend(a + b, c, 1, 2);
    OrderedAppend(a + b + c, d, 2, 3);
  }

  /** Gluing an ordered list of ranks at most `lo` in front of an ordered list of ranks at least `hi > lo` keeps the order. */
  lemma OrderedAppend(xs: seq<Message>, ys: seq<Message>, lo: nat, hi: nat)
    requires lo < hi
    requires RankOrdered(xs) && RankOrdered(ys)
    requires forall x :: x in xs ==> x.Rank() <= lo
    requires forall y :: y in ys ==> y.Rank() >= hi
    ensures RankOrdered(xs + ys)
  {
    forall i, j | 0 <= i < j < |xs + ys| ensures (xs + ys)[i].Rank() < (xs + ys)[j].Rank() {
      if j < |xs| {
      } else if i < |xs| {
        assert (xs + ys)[i] in xs && (xs + ys)[j] in ys;
      }
    }
  }

  /** The empty-link ids are exactly the non-empty ids of the links without URL. */
  lemma EmptyLinkIdsOfBlankLinks(links: seq<LinkDocument>)
    ensures IdsOfBlankLinks(links, EmptyLinkIds(links))
  {
    LinkIdsOfBlankLinks(links);
    if links != [] && |BlankUrlLinks(links)| == 0 {
      NoBlankUrlLinks(links);
    }
  }

  /** `validateUserInfo(prevState, user)`, with the user's stored links passed in. */
  method ValidateUserInfo(user: Option<User>, links: seq<LinkDocument>) returns (state: ShareLinkState)
    ensures user.None? ==> state == ShareLinkState(false, [NoUserProfile], None)
    ensures user.Some? ==> state.missingInfo == MissingInfo(user.value, links)
    ensures user.Some? ==>
      state.emptyLinkIds == if EmptyLinkIds(links) == [] then None else Some(EmptyLinkIds(links))
    ensures state.isValid <==> state.missingInfo == []
  {
    var missingInfo: seq<Message> := [];
    var emptyLinkIds: seq<string> := [];

    if user.None? {
      return ShareLinkState(false, [NoUserProfile], None);
    }
    var u := user.value;

    if IsBlankField(u.image) {
      missingInfo := missingInfo + [MissingProfileImage];
    }
    if IsBlankField(u.username) {
      missingInfo := missingInfo + [MissingName];
    }
    if IsBlank(u.email) {
      missingInfo := missingInfo + [MissingEmailAddress];
    }
    assert missingInfo == Opt(IsBlankField(u.image), MissingProfileImage)
      + Opt(IsBlankField(u.username), MissingName) + Opt(IsBlank(u.email), MissingEmailAddress);

    if |links| == 0 {
      missingInfo := missingInfo + [MissingShareableLinks];
    } else {
      var emptyLinks := BlankUrlLinks(links);
      if |emptyLinks| > 0 {
        emptyLinkIds := emptyLinkIds + NonEmptyIds(emptyLinks);
        missingInfo := missingInfo + [MissingUrls(|emptyLinks|)];
      }
    }

    assert emptyLinkIds == EmptyLinkIds(links);
    state := ShareLinkState(|missingInfo| == 0, missingInfo,
                            if |emptyLinkIds| > 0 then Some(emptyLinkIds) else None);
  }
}
