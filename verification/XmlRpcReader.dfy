/**
 What a conforming peer reads: an independent strict reader of XML-RPC values and calls, written after
 the XML-RPC specification, with <i8>, a usual extension of it. It tells every element apart, resolves
 references in text, and takes an <i4> for what it is, four bytes.
 */
module XmlRpcReader {
  import opened Wrappers
  import opened Decimal
  import opened Text
  import W = XmlRpcWriter
  import opened XmlRpcParser

  datatype Wire =
    | WString(s: string)
    | WBase64(bytes: seq<W.Octet>)
    | WI4(i: int)
    | WI8(n: int)
    | WBoolean(b: bool)
    | WArray(items: seq<Wire>)

  // The elements of a value; list is the array element together with its only child, data.
  datatype Names = Names(text: Tag, base64: Tag, i4: Tag, i8: Tag, boolean: Tag, list: Tag, value: Tag)

  function WireNames(): Names {
    Names(
      Tag("<string>", "</string>"), Tag("<base64>", "</base64>"), Tag("<i4>", "</i4>"), Tag("<i8>", "</i8>"),
      Tag("<boolean>", "</boolean>"), Tag("<array><data>", "</data></array>"), Tag("<value>", "</value>"))
  }

  // References in text (sections 4.1 and 4.6 of XML 1.0).

  function HexNumber(s: string): Option<nat> {
    if s == "" then Some(0)
    else
      match (HexNumber(s[..|s| - 1]), HexDigit(s[|s| - 1]))
      case (Some(high), Some(low)) => Some(16 * high + low)
      case _ => None
  }

  function CharOf(n: nat): Option<char> {
    if (n < 0xD800 || 0xE000 <= n < 0x11_0000) && W.XmlCharacter(n as char) then Some(n as char) else None
  }

  function Reference(name: string): Option<char> {
    if name == "amp" then Some('&')
    else if name == "lt" then Some('<')
    else if name == "gt" then Some('>')
    else if name == "quot" then Some('"')
    else if name == "apos" then Some('\'')
    else if |name| > 2 && name[0] == '#' && name[1] == 'x' then
      match HexNumber(name[2..]) case Some(n) => CharOf(n) case None => None
    else if |name| > 1 && name[0] == '#' && AllDigits(name[1..]) then CharOf(Decimal.Number(name[1..]))
    else None
  }

  // Character data with its references resolved.
  function Unescape(s: string): Option<string>
    decreases |s|
  {
    if s == "" then Some("")
    else if s[0] == '&' then
      var parts := Cut(s[1..], ';');
      match (Reference(parts.0), parts.1)
      case (Some(c), Some(rest)) => Push(c, Unescape(rest))
      case _ => None
    else if s[0] == '<' || !W.XmlCharacter(s[0]) then None
    else Push(s[0], Unescape(s[1..]))
  }

  function Push(c: char, rest: Option<string>): Option<string> {
    match rest
    case Some(s) => Some([c] + s)
    case None => None
  }

  // Base64 (section 4 of RFC 4648), without stray bits.

  function Base64Value(c: char): (r: Option<nat>)
    ensures r.Some? ==> r.value < 64
  {
    if 'A' <= c <= 'Z' then Some((c - 'A') as nat)
    else if 'a' <= c <= 'z' then Some((c - 'a') as nat + 26)
    else if '0' <= c <= '9' then Some((c - '0') as nat + 52)
    else if c == '+' then Some(62)
    else if c == '/' then Some(63)
    else None
  }

  function DecodeBase64(s: string): Option<seq<W.Octet>> {
    if s == "" then Some([])
    else if |s| < 4 then None
    else
      match (Base64Value(s[0]), Base64Value(s[1]), Base64Value(s[2]), Base64Value(s[3]))
      case (Some(a), Some(b), None, None) =>
        if s[2..] == "==" && b % 16 == 0 then Some([a * 4 + b / 16]) else None
      case (Some(a), Some(b), Some(c), None) =>
        if s[3..] == "=" && c % 4 == 0 then Some([a * 4 + b / 16, b % 16 * 16 + c / 4]) else None
      case (Some(a), Some(b), Some(c), Some(d)) =>
        (match DecodeBase64(s[4..])
         case Some(rest) => Some([a * 4 + b / 16, b % 16 * 16 + c / 4, c % 4 * 64 + d] + rest)
         case None => None)
      case _ => None
  }

  // Elements.

  // The text up to the next tag.
  function TextEnd(s: string): (k: nat)
    ensures k <= |s|
  {
    if s == "" || s[0] == '<' then 0 else 1 + TextEnd(s[1..])
  }

  // The text of an element whose opening tag stands at the front, and what follows the element.
  function ReadElement(tag: Tag, s: string): (r: Option<(string, string)>)
    requires tag.open <= s
    ensures r.Some? ==> |r.value.1| < |s|
  {
    var body := s[|tag.open|..];
    var k := TextEnd(body);
    if tag.close <= body[k..] then Some((body[..k], body[k + |tag.close|..])) else None
  }

  // What the text of an element of each kind says.
  function ReadText(e: Names, s: string): (r: Option<(Wire, string)>)
    ensures r.Some? ==> |r.value.1| < |s|
  {
    if e.text.open <= s then
      match ReadElement(e.text, s)
      case Some((text, rest)) => With(AsString(text), rest)
      case None => None
    else if e.base64.open <= s then
      match ReadElement(e.base64, s)
      case Some((text, rest)) => With(AsBase64(text), rest)
      case None => None
    else if e.i4.open <= s then
      match ReadElement(e.i4, s)
      case Some((text, rest)) => With(AsI4(text), rest)
      case None => None
    else if e.i8.open <= s then
      match ReadElement(e.i8, s)
      case Some((text, rest)) => With(AsI8(text), rest)
      case None => None
    else if e.boolean.open <= s then
      match ReadElement(e.boolean, s)
      case Some((text, rest)) => With(AsBoolean(text), rest)
      case None => None
    else None
  }

  function With(v: Option<Wire>, rest: string): Option<(Wire, string)> {
    match v
    case Some(w) => Some((w, rest))
    case None => None
  }

  function AsString(text: string): Option<Wire> {
    match Unescape(text) case Some(s) => Some(WString(s)) case None => None
  }

  function AsBase64(text: string): Option<Wire> {
    match DecodeBase64(text) case Some(bytes) => Some(WBase64(bytes)) case None => None
  }

  predicate IsI4(n: int) { -0x8000_0000 <= n < 0x8000_0000 }

  function AsI4(text: string): Option<Wire> {
    match ParseInt(text) case Some(n) => if IsI4(n) then Some(WI4(n)) else None case None => None
  }

  function AsI8(text: string): Option<Wire> {
    match ParseInt(text) case Some(n) => Some(WI8(n)) case None => None
  }

  function AsBoolean(text: string): Option<Wire> {
    if text == "1" then Some(WBoolean(true)) else if text == "0" then Some(WBoolean(false)) else None
  }

  // The value at the front of s.
  function ReadValue(e: Names, s: string): (r: Option<(Wire, string)>)
    ensures r.Some? ==> |r.value.1| < |s|
    decreases |s|, 1
  {
    if e.list.open <= s then
      match ReadAll(e, e.value, s[|e.list.open|..])
      case Some((items, rest)) =>
        if e.list.close <= rest then Some((WArray(items), rest[|e.list.close|..])) else None
      case None => None
    else ReadText(e, s)
  }

  // All values at the front of s, each between the texts of t.
  function ReadAll(e: Names, t: Tag, s: string): (r: Option<(seq<Wire>, string)>)
    ensures r.Some? ==> |r.value.1| <= |s|
    decreases |s|, 0
  {
    if !(t.open <= s) then Some(([], s))
    else
      match ReadValue(e, s[|t.open|..])
      case None => None
      case Some((item, rest)) =>
        if t.close <= rest then
          match ReadAll(e, t, rest[|t.close|..])
          case Some((items, more)) => Some(([item] + items, more))
          case None => None
        else None
  }

  // Calls. The frame of a call as the XML-RPC specification gives it, after an XML declaration.

  datatype Frame = Frame(declaration: Tag, call: Tag, name: Tag, params: Tag, param: Tag)

  function WireFrame(): Frame {
    Frame(
      Tag("<?xml ", "?>"), Tag("<methodCall>", "</methodCall>"), Tag("<methodName>", "</methodName>"),
      Tag("<params>", "</params>"), Tag("<param>", "</param>"))
  }

  // What follows the XML declaration, which is optional (production 22 of XML 1.0).
  function SkipDeclaration(declaration: Tag, s: string): string {
    if declaration.open <= s then
      var i := Index(s, declaration.close);
      if i < 0 then s else s[i + |declaration.close|..]
    else s
  }

  function ReadCall(e: Names, f: Frame, s: string): Option<(string, seq<Wire>)> {
    var body := SkipDeclaration(f.declaration, s);
    if f.call.open <= body then ReadMethodName(e, f, body[|f.call.open|..]) else None
  }

  function ReadMethodName(e: Names, f: Frame, s: string): Option<(string, seq<Wire>)> {
    if f.name.open <= s then
      match ReadElement(f.name, s)
      case Some((text, rest)) => ReadParams(e, f, Unescape(text), rest)
      case None => None
    else None
  }

  // Each parameter is a value in a param element.
  function ReadParams(e: Names, f: Frame, name: Option<string>, s: string): Option<(string, seq<Wire>)> {
    if f.params.open <= s then
      match (name, ReadAll(e, ParamTag(e, f), s[|f.params.open|..]))
      case (Some(n), Some((params, rest))) => if rest == f.params.close + f.call.close then Some((n, params)) else None
      case _ => None
    else None
  }

  function ParamTag(e: Names, f: Frame): Tag {
    Tag(f.param.open + e.value.open, e.value.close + f.param.close)
  }
}
