/**
 * The list of name/value pairs behind `URLSearchParams` (section 6.2 of the
 * WHATWG URL Standard), its `has`, `get`, `delete` and `set` operations as
 * functions on the list, a class that holds the list and changes it in place,
 * and the parts of a URL the modelled code reads.
 */
module SearchParams {
  import opened Wrappers
  import opened UrlEncoded

  /** `has(name)`: some pair carries the name. */
  predicate HasName(ps: seq<Param>, name: string) {
    ps != [] && (ps[0].name == name || HasName(ps[1..], name))
  }

  lemma {:induction false} HasNameIff(ps: seq<Param>, name: string)
    ensures HasName(ps, name) <==> exists i :: 0 <= i < |ps| && ps[i].name == name
  {
    if ps != [] {
      HasNameIff(ps[1..], name);
      if HasName(ps[1..], name) {
        var i :| 0 <= i < |ps[1..]| && ps[1..][i].name == name;
        assert ps[i + 1].name == name;
      }
      if exists i :: 0 <= i < |ps| && ps[i].name == name {
        var i :| 0 <= i < |ps| && ps[i].name == name;
        if i > 0 { assert ps[1..][i - 1].name == name; }
      }
    }
  }

  /** The position of the first pair with the name, or `|ps|` when there is none. */
  function IndexOfName(ps: seq<Param>, name: string): (k: nat)
    ensures k <= |ps|
    ensures k < |ps| <==> HasName(ps, name)
    ensures k < |ps| ==> ps[k].name == name
    ensures forall j :: 0 <= j < k ==> ps[j].name != name
  {
    if ps == [] then 0
    else if ps[0].name == name then 0
    else 1 + IndexOfName(ps[1..], name)
  }

  /** How many pairs carry the name. */
  function CountName(ps: seq<Param>, name: string): (n: nat)
    ensures n <= |ps|
    ensures n == 0 <==> !HasName(ps, name)
  {
    if ps == [] then 0
    else (if ps[0].name == name then 1 else 0) + CountName(ps[1..], name)
  }

  /** `get(name)`: the value of the first pair with the name. */
  function FirstValue(ps: seq<Param>, name: string): (v: Option<string>)
    ensures v.Some? <==> HasName(ps, name)
    ensures v.Some? ==> ps[IndexOfName(ps, name)] == Param(name, v.value)
  {
    if ps == [] then None
    else if ps[0].name == name then Some(ps[0].value)
    else FirstValue(ps[1..], name)
  }

  /** `delete(name)`: every pair with the name is removed. */
  function Without(ps: seq<Param>, name: string): (r: seq<Param>)
    ensures |r| <= |ps|
    ensures !HasName(r, name)
    ensures !HasName(ps, name) ==> r == ps
  {
    if ps == [] then []
    else if ps[0].name == name then Without(ps[1..], name)
    else [ps[0]] + Without(ps[1..], name)
  }

  /** `delete(name)` keeps exactly the pairs with another name. */
  lemma {:induction false} WithoutMembers(ps: seq<Param>, name: string)
    ensures forall p :: p in Without(ps, name) <==> p in ps && p.name != name
  {
    if ps != [] {
      WithoutMembers(ps[1..], name);
      assert ps == [ps[0]] + ps[1..];
    }
  }

  /** `delete` on a single pair removes it exactly when it carries the name. */
  lemma WithoutSingle(p: Param, name: string)
    ensures Without([p], name) == if p.name == name then [] else [p]
  {
    assert [p][1..] == [];
  }

  /** `delete` works pair by pair, so on a concatenation it deletes from each part and keeps their order. */
  lemma {:induction false} WithoutAppend(a: seq<Param>, b: seq<Param>, name: string)
    ensures Without(a + b, name) == Without(a, name) + Without(b, name)
  {
    if a == [] {
      assert a + b == b;
    } else {
      assert (a + b)[1..] == a[1..] + b;
      WithoutAppend(a[1..], b, name);
    }
  }

  /**
   * `set(name, value)`: the first pair with the name gets the value and the
   * later ones are removed; with no such pair, the pair is appended.
   */
  function WithValue(ps: seq<Param>, name: string, value: string): (r: seq<Param>)
    ensures HasName(r, name)
  {
    if ps == [] then [Param(name, value)]
    else if ps[0].name == name then [Param(name, value)] + Without(ps[1..], name)
    else [ps[0]] + WithValue(ps[1..], name, value)
  }

  lemma {:induction false} WithoutTwice(ps: seq<Param>, a: string, b: string)
    ensures Without(Without(ps, a), b) == Without(Without(ps, b), a)
    ensures Without(Without(ps, a), a) == Without(ps, a)
  {
    if ps != [] {
      WithoutTwice(ps[1..], a, b);
    }
  }

  lemma {:induction false} WithoutKeepsOtherNames(ps: seq<Param>, a: string, b: string)
    requires a != b
    ensures HasName(Without(ps, a), b) <==> HasName(ps, b)
  {
    if ps != [] {
      WithoutKeepsOtherNames(ps[1..], a, b);
      if ps[0].name != a {
        assert Without(ps, a)[1..] == Without(ps[1..], a);
      }
    }
  }

  /** After `set`, exactly one pair carries the name, and it carries the new value. */
  lemma {:induction false} WithValueSetsOnePair(ps: seq<Param>, name: string, value: string)
    ensures CountName(WithValue(ps, name, value), name) == 1
    ensures FirstValue(WithValue(ps, name, value), name) == Some(value)
  {
    var r := WithValue(ps, name, value);
    if ps == [] {
    } else if ps[0].name == name {
      assert r[1..] == Without(ps[1..], name);
    } else {
      WithValueSetsOnePair(ps[1..], name, value);
      assert r[1..] == WithValue(ps[1..], name, value);
    }
  }

  /** `set` leaves every pair with another name where it was, in the same relative order. */
  lemma {:induction false} WithValueKeepsOthers(ps: seq<Param>, name: string, value: string)
    ensures Without(WithValue(ps, name, value), name) == Without(ps, name)
  {
    var r := WithValue(ps, name, value);
    if ps == [] {
    } else if ps[0].name == name {
      assert r[1..] == Without(ps[1..], name);
      WithoutTwice(ps[1..], name, name);
    } else {
      WithValueKeepsOthers(ps[1..], name, value);
      assert r[1..] == WithValue(ps[1..], name, value);
    }
  }

  /**
   * An existing pair keeps its position and only its value changes; everything
   * before it is untouched. Without one, the new pair goes at the end.
   */
  lemma {:induction false} WithValuePosition(ps: seq<Param>, name: string, value: string)
    ensures HasName(ps, name) ==>
      var k := IndexOfName(ps, name);
      var r := WithValue(ps, name, value);
      IndexOfName(r, name) == k && r[..k] == ps[..k] && r[k] == Param(name, value)
    ensures !HasName(ps, name) ==> WithValue(ps, name, value) == ps + [Param(name, value)]
  {
    var r := WithValue(ps, name, value);
    if ps != [] && ps[0].name != name {
      WithValuePosition(ps[1..], name, value);
      assert r[1..] == WithValue(ps[1..], name, value);
      if HasName(ps, name) {
        var k := IndexOfName(ps, name);
        assert k == 1 + IndexOfName(ps[1..], name);
        assert r[..k] == [ps[0]] + r[1..][..k - 1];
        assert ps[..k] == [ps[0]] + ps[1..][..k - 1];
      }
    }
  }

  /** Setting the same pair twice is the same as setting it once. */
  lemma {:induction false} WithValueIdempotent(ps: seq<Param>, name: string, value: string)
    ensures WithValue(WithValue(ps, name, value), name, value) == WithValue(ps, name, value)
  {
    var r := WithValue(ps, name, value);
    if ps == [] {
    } else if ps[0].name == name {
      assert r[0].name == name && r[1..] == Without(ps[1..], name);
      WithoutTwice(ps[1..], name, name);
    } else {
      WithValueIdempotent(ps[1..], name, value);
      assert r[1..] == WithValue(ps[1..], name, value);
    }
  }

  /** A `URLSearchParams` object: a list of pairs that `delete` and `set` change in place. */
  class URLSearchParams {
    var list: seq<Param>

    /** `new URLSearchParams(init)`; parsing a serialization is taken to give back its list. */
    constructor (init: seq<Param>)
      ensures list == init
    {
      list := init;
    }

    function Has(name: string): (b: bool)
      reads this
      ensures b <==> HasName(list, name)
    {
      HasName(list, name)
    }

    method Delete(name: string)
      modifies this
      ensures list == Without(old(list), name)
    {
      list := Without(list, name);
    }

    method Set(name: string, value: string)
      modifies this
      ensures list == WithValue(old(list), name, value)
    {
      list := WithValue(list, name, value);
    }

    function ToString(): (s: string)
      reads this
      ensures s == Serialize(list)
      ensures s == "" <==> list == []
    {
      Serialize(list)
    }
  }

  /** The parts of a URL that the modelled code reads or rebuilds. */
  datatype Url = Url(origin: string, pathname: string, query: seq<Param>, fragment: string)
}
