/**
 * The application/x-www-form-urlencoded serializer of section 5.2 of the
 * WHATWG URL Standard, which `URLSearchParams.prototype.toString` uses:
 * each name and value is encoded as UTF-8, every byte outside the ASCII
 * alphanumerics and `*-._` is percent-encoded with upper-case hex digits,
 * a space becomes `+`, and the pairs are written `name=value`, joined by `&`.
 */
module UrlEncoded {

  /** One (name, value) entry of a query string. */
  datatype Param = Param(name: string, value: string)

  type Byte = b: int | 0 <= b < 256

  /** The UTF-8 encoding of one Unicode scalar value. */
  function Utf8(c: char): (bytes: seq<Byte>)
    ensures 1 <= |bytes| <= 4
    ensures |bytes| == 1 <==> c as int < 0x80
  {
    var cp := c as int;
    if cp < 0x80 then [cp]
    else if cp < 0x800 then [0xC0 + cp / 0x40, 0x80 + cp % 0x40]
    else if cp < 0x10000 then [0xE0 + cp / 0x1000, 0x80 + (cp / 0x40) % 0x40, 0x80 + cp % 0x40]
    else [0xF0 + cp / 0x40000, 0x80 + (cp / 0x1000) % 0x40, 0x80 + (cp / 0x40) % 0x40, 0x80 + cp % 0x40]
  }

  /** The characters the form-urlencoded percent-encode set leaves alone. */
  predicate IsKept(c: char) {
    ('a' <= c <= 'z') || ('A' <= c <= 'Z') || ('0' <= c <= '9')
    || c == '*' || c == '-' || c == '.' || c == '_'
  }

  function HexDigit(d: nat): (c: char)
    requires d < 16
    ensures ('0' <= c <= '9') || ('A' <= c <= 'F')
  {
    if d < 10 then ('0' as int + d) as char else ('A' as int + d - 10) as char
  }

  function PercentEncodeBytes(bytes: seq<Byte>): (r: string)
    ensures |r| == 3 * |bytes|
    ensures forall i :: 0 <= i < |r| ==> r[i] == '%' || IsKept(r[i])
  {
    if bytes == [] then ""
    else ['%', HexDigit(bytes[0] / 16), HexDigit(bytes[0] % 16)] + PercentEncodeBytes(bytes[1..])
  }

  /** A character encodes to characters that are all kept, `%` or `+`; never a delimiter. */
  predicate IsEncodedChar(c: char) {
    IsKept(c) || c == '%' || c == '+'
  }

  function EncodeChar(c: char): (r: string)
    ensures r != []
    ensures forall i :: 0 <= i < |r| ==> IsEncodedChar(r[i])
  {
    if c == ' ' then "+"
    else if IsKept(c) then [c]
    else PercentEncodeBytes(Utf8(c))
  }

  function Encode(s: string): (r: string)
    ensures |r| >= |s|
    ensures forall i :: 0 <= i < |r| ==> IsEncodedChar(r[i])
  {
    if s == [] then "" else EncodeChar(s[0]) + Encode(s[1..])
  }

  function EncodePair(p: Param): string {
    Encode(p.name) + "=" + Encode(p.value)
  }

  /**
   * The serialization of a list of pairs. The empty list, and only the empty
   * list, serializes to the empty string, and no serialization contains `?`,
   * so appending one after a `?` never leaves a bare `?`.
   */
  function Serialize(ps: seq<Param>): (r: string)
    ensures r == "" <==> ps == []
    ensures '?' !in r
  {
    if ps == [] then ""
    else if |ps| == 1 then EncodePair(ps[0])
    else EncodePair(ps[0]) + "&" + Serialize(ps[1..])
  }
}
