/** What a conforming peer makes of the values and calls the driver writes. */
module XmlRpcPeer {
  import opened Wrappers
  import opened Decimal
  import opened Text
  import W = XmlRpcWriter
  import opened XmlRpcParser
  import opened XmlRpcReader
  import XmlRpcRoundTrip

  // Characters that XML cannot carry are replaced.
  function Sanitised(s: string): (r: string)
    ensures |r| == |s| && forall i | 0 <= i < |s| :: r[i] == if W.XmlCharacter(s[i]) then s[i] else '\U{FFFD}'
  {
    seq(|s|, i requires 0 <= i < |s| => if W.XmlCharacter(s[i]) then s[i] else '\U{FFFD}')
  }

  // What v means on the wire.
  function Sent(v: W.Value): Wire
    decreases v
  {
    match v
    case Str(s) => WString(Sanitised(s))
    case Bytes(bytes) => WBase64(bytes)
    case Int(i) => WI4(i)
    case Int64(n) => WI8(n)
    case Bool(b) => WBoolean(b)
    case Array(items) => WArray(SentAll(items))
    case Other(sprint) => WString(Sanitised(sprint))
  }

  function SentAll(items: seq<W.Value>): seq<Wire>
    decreases items
  {
    if items == [] then [] else [Sent(items[0])] + SentAll(items[1..])
  }

  // The int values fit the four bytes that their element promises.
  predicate Fits(v: W.Value)
    decreases v
  {
    match v
    case Int(i) => IsI4(i)
    case Array(items) => FitAll(items)
    case _ => true
  }

  predicate FitAll(items: seq<W.Value>)
    decreases items
  {
    items == [] || (Fits(items[0]) && FitAll(items[1..]))
  }

  // References.

  lemma NamedReferences()
    ensures Reference("amp") == Some('&') && Reference("lt") == Some('<') && Reference("gt") == Some('>')
  {
  }

  lemma Decimal34()
    ensures Reference("#34") == Some('"')
  {
    var digits := "34";
    assert digits[..1] == "3" && "3"[..0] == "";
    assert Decimal.Number("3") == 3;
    assert Decimal.Number(digits) == 34;
    assert "#34"[1..] == digits;
    assert 34 as char == '"';
  }

  lemma Decimal39()
    ensures Reference("#39") == Some('\'')
  {
    var digits := "39";
    assert digits[..1] == "3" && "3"[..0] == "";
    assert Decimal.Number("3") == 3;
    assert Decimal.Number(digits) == 39;
    assert "#39"[1..] == digits;
    assert 39 as char == '\'';
  }

  lemma HexReference(name: string, c: char, n: nat)
    requires |name| == 3 && name[0] == '#' && name[1] == 'x' && HexDigit(name[2]) == Some(n)
    requires CharOf(n) == Some(c)
    ensures Reference(name) == Some(c)
  {
    assert name[2..][..0] == "" && name[2..] == [name[2]];
    assert HexNumber("") == Some(0);
  }

  // A reference is resolved, and the rest goes on.
  lemma ResolveFront(name: string, c: char, t: string)
    requires ';' !in name && Reference(name) == Some(c)
    ensures Unescape("&" + name + ";" + t) == Push(c, Unescape(t))
  {
    ReferenceParts(name, t);
    CutAt(name, ';', t);
  }

  lemma ReferenceParts(name: string, t: string)
    ensures var s := "&" + name + ";" + t; s != "" && s[0] == '&' && s[1..] == name + [';'] + t
  {
    Assoc("&", name, ";");
    Assoc("&", name + ";", t);
  }

  function Carried(c: char): char {
    if W.XmlCharacter(c) then c else '\U{FFFD}'
  }

  // What the writer makes of one character is read back as that character.
  lemma UnescapeChar(c: char, t: string)
    ensures Unescape(W.EscapeChar(c) + t) == Push(Carried(c), Unescape(t))
  {
    match c
    case '"' => Decimal34(); EscapeIs(c, "#34", t);
    case '\'' => Decimal39(); EscapeIs(c, "#39", t);
    case '&' => NamedReferences(); EscapeIs(c, "amp", t);
    case '<' => NamedReferences(); EscapeIs(c, "lt", t);
    case '>' => NamedReferences(); EscapeIs(c, "gt", t);
    case '\t' => HexReference("#x9", c, 9); EscapeIs(c, "#x9", t);
    case '\n' => HexReference("#xA", c, 10); EscapeIs(c, "#xA", t);
    case '\r' => HexReference("#xD", c, 13); EscapeIs(c, "#xD", t);
    case _ =>
      assert ([Carried(c)] + t)[1..] == t;
  }

  lemma EscapeIs(c: char, name: string, t: string)
    requires W.EscapeChar(c) == "&" + name + ";" && ';' !in name && Reference(name) == Some(c) && W.XmlCharacter(c)
    ensures Unescape(W.EscapeChar(c) + t) == Push(Carried(c), Unescape(t))
  {
    ResolveFront(name, c, t);
  }

  // Resolving references undoes escaping, up to characters that XML cannot carry.
  lemma {:induction false} UnescapeOfEscape(s: string)
    ensures Unescape(W.Escape(s)) == Some(Sanitised(s))
  {
    if s == "" {
      assert Sanitised(s) == "";
    } else {
      UnescapeChar(s[0], W.Escape(s[1..]));
      UnescapeOfEscape(s[1..]);
      assert Sanitised(s) == [Carried(s[0])] + Sanitised(s[1..]);
    }
  }

  // Base64.

  lemma Base64CharIs(n: int)
    requires 0 <= n < 64
    ensures Base64Value(W.Base64Char(n)) == Some(n) && W.Base64Char(n) != '='
  {
  }

  // Sextets put back together.
  lemma Regroup(a: int, b: int, c: int)
    requires 0 <= a < 256 && 0 <= b < 256 && 0 <= c < 256
    ensures a / 4 * 4 + (a % 4 * 16 + b / 16) / 16 == a
    ensures (a % 4 * 16 + b / 16) % 16 * 16 + (b % 16 * 4 + c / 64) / 4 == b
    ensures (b % 16 * 4 + c / 64) % 4 * 64 + c % 64 == c
  {
  }

  // A full group in front of the rest.
  lemma DecodeGroup(a: W.Octet, b: W.Octet, c: W.Octet, rest: string, s: string)
    requires s == W.Base64Group(a, b, c) + rest
    ensures DecodeBase64(s) ==
      match DecodeBase64(rest)
      case Some(more) => Some([a, b, c] + more)
      case None => None
  {
    Regroup(a, b, c);
    DecodeSextets(a / 4, a % 4 * 16 + b / 16, b % 16 * 4 + c / 64, c % 64, rest, s);
  }

  lemma DecodeSextets(p: nat, q: nat, r: nat, t: nat, rest: string, s: string)
    requires p < 64 && q < 64 && r < 64 && t < 64
    requires s == [W.Base64Char(p), W.Base64Char(q), W.Base64Char(r), W.Base64Char(t)] + rest
    ensures DecodeBase64(s) ==
      match DecodeBase64(rest)
      case Some(more) => Some([p * 4 + q / 16, q % 16 * 16 + r / 4, r % 4 * 64 + t] + more)
      case None => None
  {
    Base64CharIs(p);
    Base64CharIs(q);
    Base64CharIs(r);
    Base64CharIs(t);
    assert s[4..] == rest;
  }

  lemma DecodeOne(a: W.Octet)
    ensures DecodeBase64([W.Base64Char(a / 4), W.Base64Char(a % 4 * 16)] + "==") == Some([a])
  {
    var s := [W.Base64Char(a / 4), W.Base64Char(a % 4 * 16)] + "==";
    Base64CharIs(a / 4);
    Base64CharIs(a % 4 * 16);
    Regroup(a, 0, 0);
    assert s[2..] == "==" && s[2] == '=' && s[3] == '=';
  }

  lemma DecodeTwo(a: W.Octet, b: W.Octet)
    ensures DecodeBase64([W.Base64Char(a / 4), W.Base64Char(a % 4 * 16 + b / 16), W.Base64Char(b % 16 * 4)] + "=") ==
        Some([a, b])
  {
    var s := [W.Base64Char(a / 4), W.Base64Char(a % 4 * 16 + b / 16), W.Base64Char(b % 16 * 4)] + "=";
    Base64CharIs(a / 4);
    Base64CharIs(a % 4 * 16 + b / 16);
    Base64CharIs(b % 16 * 4);
    Regroup(a, b, 0);
    assert s[3..] == "=" && s[3] == '=';
  }

  lemma DecodeSingle(bytes: seq<W.Octet>)
    requires |bytes| == 1
    ensures DecodeBase64(W.Base64(bytes)) == Some(bytes)
  {
    DecodeOne(bytes[0]);
    assert bytes == [bytes[0]];
  }

  lemma DecodePair(bytes: seq<W.Octet>)
    requires |bytes| == 2
    ensures DecodeBase64(W.Base64(bytes)) == Some(bytes)
  {
    DecodeTwo(bytes[0], bytes[1]);
    assert bytes == [bytes[0], bytes[1]];
  }

  lemma FirstThree(bytes: seq<W.Octet>)
    requires |bytes| >= 3
    ensures [bytes[0], bytes[1], bytes[2]] + bytes[3..] == bytes
  {
  }

  lemma {:induction false} DecodeOfBase64(bytes: seq<W.Octet>)
    ensures DecodeBase64(W.Base64(bytes)) == Some(bytes)
  {
    if |bytes| == 1 {
      DecodeSingle(bytes);
    } else if |bytes| == 2 {
      DecodePair(bytes);
    } else if bytes != [] {
      DecodeOfBase64(bytes[3..]);
      DecodeGroup(bytes[0], bytes[1], bytes[2], W.Base64(bytes[3..]), W.Base64(bytes));
      FirstThree(bytes);
    }
  }

  // Elements.

  // The names' tags are told apart by what they begin with; only opening tags matter after a value.
  predicate Apart(a: string, b: string) {
    exists k :: 0 <= k < |a| && k < |b| && a[k] != b[k]
  }

  lemma ApartAt(a: string, b: string, k: nat)
    requires k < |a| && k < |b| && a[k] != b[k]
    ensures Apart(a, b)
  {
  }

  lemma NotBefore(a: string, b: string, rest: string)
    requires Apart(a, b)
    ensures !(b <= a + rest)
  {
    var k :| 0 <= k < |a| && k < |b| && a[k] != b[k];
    assert (a + rest)[k] == a[k];
  }

  // The names can be read: tags begin with '<', and the opening ones differ from each other.
  ghost predicate Readable(e: Names) {
    && e.text.close[0] == '<' && e.base64.close[0] == '<' && e.i4.close[0] == '<' && e.i8.close[0] == '<'
    && e.boolean.close[0] == '<'
    && Apart(e.text.open, e.list.open) && Apart(e.base64.open, e.list.open) && Apart(e.i4.open, e.list.open)
    && Apart(e.i8.open, e.list.open) && Apart(e.boolean.open, e.list.open)
    && Apart(e.base64.open, e.text.open) && Apart(e.i4.open, e.text.open) && Apart(e.i8.open, e.text.open)
    && Apart(e.boolean.open, e.text.open)
    && Apart(e.i4.open, e.base64.open) && Apart(e.i8.open, e.base64.open) && Apart(e.boolean.open, e.base64.open)
    && Apart(e.i8.open, e.i4.open) && Apart(e.boolean.open, e.i4.open) && Apart(e.boolean.open, e.i8.open)
    && Apart(e.list.close, e.value.open)
  }

  // The names that the writer uses.
  function RenderWith(e: Names, v: W.Value): string
    decreases v, 1
  {
    match v
    case Str(s) => e.text.open + W.Escape(s) + e.text.close
    case Bytes(bytes) => e.base64.open + W.Base64(bytes) + e.base64.close
    case Int(i) => e.i4.open + Itoa(i) + e.i4.close
    case Int64(n) => e.i8.open + Itoa(n) + e.i8.close
    case Bool(b) => e.boolean.open + (if b then "1" else "0") + e.boolean.close
    case Array(items) => e.list.open + RenderAllWith(e, items, e.value.open, e.value.close) + e.list.close
    case Other(sprint) => e.text.open + W.Escape(sprint) + e.text.close
  }

  function RenderAllWith(e: Names, items: seq<W.Value>, open: string, close: string): string
    decreases items, 0
  {
    if items == [] then "" else (open + RenderWith(e, items[0]) + close) + RenderAllWith(e, items[1..], open, close)
  }

  lemma {:induction false} RenderIsWith(v: W.Value)
    ensures W.Render(v) == RenderWith(WireNames(), v)
    decreases v, 1
  {
    if v.Array? {
      RenderAllIsWith(v.items, "<value>", "</value>");
    }
  }

  lemma {:induction false} RenderAllIsWith(items: seq<W.Value>, open: string, close: string)
    ensures W.RenderAll(items, open, close) == RenderAllWith(WireNames(), items, open, close)
    decreases items, 0
  {
    if items != [] {
      RenderIsWith(items[0]);
      RenderAllIsWith(items[1..], open, close);
    }
  }

  lemma {:induction false} TextEndsAt(text: string, rest: string)
    requires '<' !in text && rest != "" && rest[0] == '<'
    ensures TextEnd(text + rest) == |text|
  {
    if text == "" {
      assert text + rest == rest;
    } else {
      assert (text + rest)[1..] == text[1..] + rest;
      TextEndsAt(text[1..], rest);
    }
  }

  lemma ReadElementOf(tag: Tag, text: string, rest: string, s: string)
    requires '<' !in text && tag.close[0] == '<' && s == tag.open + (text + (tag.close + rest))
    ensures tag.open <= s && ReadElement(tag, s) == Some((text, rest))
  {
    var tail := tag.close + rest;
    CutMiddle(s, tag.open, text + tail, "");
    assert text + tail + "" == text + tail;
    TextEndsAt(text, tail);
    CutMiddle(text + tail, text, tail, "");
    assert tail + "" == tail;
    CutMiddle(tail, tag.close, rest, "");
    CutTail(text, tag.close, rest);
  }

  lemma CutTail(text: string, close: string, rest: string)
    ensures (text + (close + rest))[..|text|] == text && (text + (close + rest))[|text|..] == close + rest
    ensures (text + (close + rest))[|text| + |close|..] == rest
  {
  }

  lemma ReadString(e: Names, text: string, rest: string, s: string)
    requires Readable(e) && '<' !in text && s == e.text.open + (text + (e.text.close + rest))
    ensures ReadValue(e, s) == With(AsString(text), rest)
  {
    NotBefore(e.text.open, e.list.open, text + (e.text.close + rest));
    ReadElementOf(e.text, text, rest, s);
  }

  lemma ReadBase64(e: Names, text: string, rest: string, s: string)
    requires Readable(e) && '<' !in text && s == e.base64.open + (text + (e.base64.close + rest))
    ensures ReadValue(e, s) == With(AsBase64(text), rest)
  {
    var tail := text + (e.base64.close + rest);
    NotBefore(e.base64.open, e.list.open, tail);
    NotBefore(e.base64.open, e.text.open, tail);
    ReadElementOf(e.base64, text, rest, s);
  }

  lemma ReadI4(e: Names, text: string, rest: string, s: string)
    requires Readable(e) && '<' !in text && s == e.i4.open + (text + (e.i4.close + rest))
    ensures ReadValue(e, s) == With(AsI4(text), rest)
  {
    var tail := text + (e.i4.close + rest);
    NotBefore(e.i4.open, e.list.open, tail);
    NotBefore(e.i4.open, e.text.open, tail);
    NotBefore(e.i4.open, e.base64.open, tail);
    ReadElementOf(e.i4, text, rest, s);
  }

  lemma ReadI8(e: Names, text: string, rest: string, s: string)
    requires Readable(e) && '<' !in text && s == e.i8.open + (text + (e.i8.close + rest))
    ensures ReadValue(e, s) == With(AsI8(text), rest)
  {
    var tail := text + (e.i8.close + rest);
    NotBefore(e.i8.open, e.list.open, tail);
    NotBefore(e.i8.open, e.text.open, tail);
    NotBefore(e.i8.open, e.base64.open, tail);
    NotBefore(e.i8.open, e.i4.open, tail);
    ReadElementOf(e.i8, text, rest, s);
  }

  lemma ReadBoolean(e: Names, text: string, rest: string, s: string)
    requires Readable(e) && '<' !in text && s == e.boolean.open + (text + (e.boolean.close + rest))
    ensures ReadValue(e, s) == With(AsBoolean(text), rest)
  {
    var tail := text + (e.boolean.close + rest);
    NotBefore(e.boolean.open, e.list.open, tail);
    NotBefore(e.boolean.open, e.text.open, tail);
    NotBefore(e.boolean.open, e.base64.open, tail);
    NotBefore(e.boolean.open, e.i4.open, tail);
    NotBefore(e.boolean.open, e.i8.open, tail);
    ReadElementOf(e.boolean, text, rest, s);
  }

  lemma Element(open: string, text: string, close: string, rest: string)
    ensures open + text + close + rest == open + (text + (close + rest))
  {
  }

  // Values.

  // A peer reads back what v means, unless an int in it does not fit; then it rejects the text.
  lemma {:induction false} ReadOfRender(e: Names, v: W.Value, rest: string)
    requires Readable(e)
    ensures ReadValue(e, RenderWith(e, v) + rest) == if Fits(v) then Some((Sent(v), rest)) else None
    decreases v, 1
  {
    var s := RenderWith(e, v) + rest;
    match v
    case Str(t) => StringIsRead(e, t, rest, s);
    case Other(t) => StringIsRead(e, t, rest, s);
    case Bytes(bytes) => BytesAreRead(e, bytes, rest, s);
    case Int(i) => IntIsRead(e, i, rest, s);
    case Int64(n) => Int64IsRead(e, n, rest, s);
    case Bool(b) => BoolIsRead(e, b, rest, s);
    case Array(items) =>
      var body := RenderAllWith(e, items, e.value.open, e.value.close);
      Element(e.list.open, body, e.list.close, rest);
      NotBefore(e.list.close, e.value.open, rest);
      ReadAllOfRender(e, e.value, items, e.list.close + rest);
      ArrayIsRead(e, items, body, rest, s);
  }

  lemma StringIsRead(e: Names, t: string, rest: string, s: string)
    requires Readable(e) && s == e.text.open + W.Escape(t) + e.text.close + rest
    ensures ReadValue(e, s) == Some((WString(Sanitised(t)), rest))
  {
    XmlRpcRoundTrip.EscapeHasNoTag(t);
    UnescapeOfEscape(t);
    Element(e.text.open, W.Escape(t), e.text.close, rest);
    ReadString(e, W.Escape(t), rest, s);
  }

  lemma BytesAreRead(e: Names, bytes: seq<W.Octet>, rest: string, s: string)
    requires Readable(e) && s == e.base64.open + W.Base64(bytes) + e.base64.close + rest
    ensures ReadValue(e, s) == Some((WBase64(bytes), rest))
  {
    XmlRpcRoundTrip.Base64HasNoTag(bytes);
    DecodeOfBase64(bytes);
    Element(e.base64.open, W.Base64(bytes), e.base64.close, rest);
    ReadBase64(e, W.Base64(bytes), rest, s);
  }

  lemma IntIsRead(e: Names, i: int64, rest: string, s: string)
    requires Readable(e) && s == e.i4.open + Itoa(i) + e.i4.close + rest
    ensures ReadValue(e, s) == if IsI4(i) then Some((WI4(i), rest)) else None
  {
    ParseIntOfItoa(i);
    Element(e.i4.open, Itoa(i), e.i4.close, rest);
    ReadI4(e, Itoa(i), rest, s);
  }

  lemma Int64IsRead(e: Names, n: int64, rest: string, s: string)
    requires Readable(e) && s == e.i8.open + Itoa(n) + e.i8.close + rest
    ensures ReadValue(e, s) == Some((WI8(n), rest))
  {
    ParseIntOfItoa(n);
    Element(e.i8.open, Itoa(n), e.i8.close, rest);
    ReadI8(e, Itoa(n), rest, s);
  }

  lemma BoolIsRead(e: Names, b: bool, rest: string, s: string)
    requires Readable(e) && s == e.boolean.open + (if b then "1" else "0") + e.boolean.close + rest
    ensures ReadValue(e, s) == Some((WBoolean(b), rest))
  {
    var text := if b then "1" else "0";
    Element(e.boolean.open, text, e.boolean.close, rest);
    ReadBoolean(e, text, rest, s);
  }

  lemma ArrayIsRead(e: Names, items: seq<W.Value>, body: string, rest: string, s: string)
    requires s == e.list.open + (body + (e.list.close + rest))
    requires ReadAll(e, e.value, body + (e.list.close + rest)) ==
      if FitAll(items) then Some((SentAll(items), e.list.close + rest)) else None
    ensures ReadValue(e, s) == if FitAll(items) then Some((WArray(SentAll(items)), rest)) else None
  {
    assert s[|e.list.open|..] == body + (e.list.close + rest);
    assert (e.list.close + rest)[|e.list.close|..] == rest;
  }

  lemma {:induction false} ReadAllOfRender(e: Names, t: Tag, items: seq<W.Value>, rest: string)
    requires Readable(e) && !(t.open <= rest)
    ensures ReadAll(e, t, RenderAllWith(e, items, t.open, t.close) + rest) ==
      if FitAll(items) then Some((SentAll(items), rest)) else None
    decreases items, 0
  {
    var s := RenderAllWith(e, items, t.open, t.close) + rest;
    if items == [] {
      assert s == rest;
    } else {
      var more := RenderAllWith(e, items[1..], t.open, t.close) + rest;
      ReadOfRender(e, items[0], t.close + more);
      ReadAllOfRender(e, t, items[1..], rest);
      FirstItem(t.open, RenderWith(e, items[0]), t.close, RenderAllWith(e, items[1..], t.open, t.close), rest);
      ItemIsRead(e, t, RenderWith(e, items[0]), more, s);
    }
  }

  lemma FirstItem(open: string, text: string, close: string, others: string, rest: string)
    ensures (open + text + close) + others + rest == open + (text + (close + (others + rest)))
  {
  }

  lemma ItemIsRead(e: Names, t: Tag, text: string, more: string, s: string)
    requires s == t.open + (text + (t.close + more))
    ensures ReadAll(e, t, s) ==
      match ReadValue(e, text + (t.close + more))
      case None => None
      case Some((item, rest)) =>
        if t.close <= rest then
          match ReadAll(e, t, rest[|t.close|..])
          case Some((items, others)) => Some(([item] + items, others))
          case None => None
        else None
    ensures t.close <= t.close + more && (t.close + more)[|t.close|..] == more
  {
    assert t.open <= s && s[|t.open|..] == text + (t.close + more);
  }

  lemma WireListIsApart(e: Names)
    requires e == WireNames()
    ensures Apart(e.text.open, e.list.open) && Apart(e.base64.open, e.list.open) && Apart(e.i4.open, e.list.open)
    ensures Apart(e.i8.open, e.list.open) && Apart(e.boolean.open, e.list.open) && Apart(e.list.close, e.value.open)
  {
    ApartAt(e.text.open, e.list.open, 1);
    ApartAt(e.base64.open, e.list.open, 1);
    ApartAt(e.i4.open, e.list.open, 1);
    ApartAt(e.i8.open, e.list.open, 1);
    ApartAt(e.boolean.open, e.list.open, 1);
    ApartAt(e.list.close, e.value.open, 1);
  }

  lemma WireScalarsAreApart(e: Names)
    requires e == WireNames()
    ensures Apart(e.base64.open, e.text.open) && Apart(e.i4.open, e.text.open) && Apart(e.i8.open, e.text.open)
    ensures Apart(e.boolean.open, e.text.open) && Apart(e.i4.open, e.base64.open) && Apart(e.i8.open, e.base64.open)
    ensures Apart(e.boolean.open, e.base64.open) && Apart(e.i8.open, e.i4.open) && Apart(e.boolean.open, e.i4.open)
    ensures Apart(e.boolean.open, e.i8.open)
  {
    ApartAt(e.base64.open, e.text.open, 1);
    ApartAt(e.i4.open, e.text.open, 1);
    ApartAt(e.i8.open, e.text.open, 1);
    ApartAt(e.boolean.open, e.text.open, 1);
    ApartAt(e.i4.open, e.base64.open, 1);
    ApartAt(e.i8.open, e.base64.open, 1);
    ApartAt(e.boolean.open, e.base64.open, 2);
    ApartAt(e.i8.open, e.i4.open, 2);
    ApartAt(e.boolean.open, e.i4.open, 1);
    ApartAt(e.boolean.open, e.i8.open, 1);
  }

  lemma WireNamesAreReadable(e: Names)
    requires e == WireNames()
    ensures Readable(e)
  {
    WireListIsApart(e);
    WireScalarsAreApart(e);
  }

  // Of the values the driver writes, a conforming peer reads back exactly those whose ints fit in four
  // bytes: the same tree, element by element, with strings made fit for XML.
  lemma PeerReadsValue(v: W.Value)
    ensures ReadValue(WireNames(), W.Render(v)) == if Fits(v) then Some((Sent(v), "")) else None
  {
    WireNamesAreReadable(WireNames());
    RenderIsWith(v);
    ReadWholeValue(WireNames(), v);
  }

  lemma ReadWholeValue(e: Names, v: W.Value)
    requires Readable(e)
    ensures ReadValue(e, RenderWith(e, v)) == if Fits(v) then Some((Sent(v), "")) else None
  {
    ReadOfRender(e, v, "");
    AppendNothing(RenderWith(e, v));
  }

  // Calls.

  // The texts around the parts of a call, put together from a declaration and the frame.
  predicate IsFramed(e: Names, f: Frame, declaration: string, c: W.CallLayout) {
    && c.head == declaration + f.call.open + f.name.open
    && c.middle == f.name.close + f.params.open
    && c.open == f.param.open + e.value.open
    && c.close == e.value.close + f.param.close
    && c.tail == f.params.close + f.call.close
  }

  ghost predicate IsReadableFrame(e: Names, f: Frame) {
    f.name.close[0] == '<' && Apart(f.params.close, f.param.open)
  }

  // A declaration is passed over.
  predicate IsDeclaration(d: Tag, declaration: string) {
    && d.open <= declaration && |d.close| <= |declaration|
    && Index(declaration, d.close) == |declaration| - |d.close|
  }

  lemma {:induction false} IndexExtends(s: string, rest: string, pat: string)
    requires Index(s, pat) >= 0
    ensures Index(s + rest, pat) == Index(s, pat)
  {
    assert (s + rest)[..|pat|] == s[..|pat|];
    if !(pat <= s) {
      assert (s + rest)[1..] == s[1..] + rest;
      IndexExtends(s[1..], rest, pat);
    }
  }

  lemma SkipDeclarationOf(d: Tag, declaration: string, rest: string)
    requires IsDeclaration(d, declaration)
    ensures SkipDeclaration(d, declaration + rest) == rest
  {
    IndexExtends(declaration, rest, d.close);
    assert (declaration + rest)[|declaration|..] == rest;
    assert d.open <= declaration + rest;
  }

  lemma DropFront(front: string, rest: string)
    ensures front <= front + rest && (front + rest)[|front|..] == rest
  {
  }

  lemma CallParts(d: string, call: string, open: string, name: string, close: string, params: string, rest: string)
    ensures (d + call + open) + name + (close + params) + rest
         == d + (call + (open + (name + (close + (params + rest)))))
  {
  }

  // The parameters and the end of the call.
  lemma ReadParamsOf(e: Names, f: Frame, name: Option<string>, params: seq<W.Value>)
    requires Readable(e) && IsReadableFrame(e, f) && name.Some?
    ensures var t := ParamTag(e, f);
            ReadParams(e, f, name, f.params.open + (RenderAllWith(e, params, t.open,
                t.close) + (f.params.close + f.call.close)))
            == if FitAll(params) then Some((name.value, SentAll(params))) else None
  {
    var t, tail := ParamTag(e, f), f.params.close + f.call.close;
    NotBefore(f.params.close, f.param.open, f.call.close);
    OpensWith(f.param.open, e.value.open, tail);
    DropFront(f.params.open, RenderAllWith(e, params, t.open, t.close) + tail);
    ReadAllOfRender(e, t, params, tail);
  }

  lemma OpensWith(a: string, b: string, s: string)
    ensures a + b <= s ==> a <= s
  {
    if a + b <= s {
      assert forall i | 0 <= i < |a| :: s[i] == (a + b)[i] == a[i];
    }
  }

  lemma ReadMethodNameOf(e: Names, f: Frame, text: string, rest: string)
    requires IsReadableFrame(e, f) && '<' !in text
    ensures ReadMethodName(e, f, f.name.open + (text + (f.name.close + rest))) == ReadParams(e, f, Unescape(text), rest)
  {
    ReadElementOf(f.name, text, rest, f.name.open + (text + (f.name.close + rest)));
  }

  lemma ReadCallParts(e: Names, f: Frame, declaration: string, rest: string)
    requires IsDeclaration(f.declaration, declaration)
    ensures ReadCall(e, f, declaration + (f.call.open + rest)) == ReadMethodName(e, f, rest)
  {
    SkipDeclarationOf(f.declaration, declaration, f.call.open + rest);
    DropFront(f.call.open, rest);
  }

  lemma ReadCallOf(e: Names, f: Frame, declaration: string, name: string, params: seq<W.Value>)
    requires Readable(e) && IsReadableFrame(e, f) && IsDeclaration(f.declaration, declaration)
    ensures var t := ParamTag(e, f);
            var rest := RenderAllWith(e, params, t.open, t.close) + (f.params.close + f.call.close);
            ReadCall(e, f,
              declaration + (f.call.open + (f.name.open + (W.Escape(name) + (f.name.close + (f.params.open + rest))))))
            == if FitAll(params) then Some((Sanitised(name), SentAll(params))) else None
  {
    var t := ParamTag(e, f);
    var rest := RenderAllWith(e, params, t.open, t.close) + (f.params.close + f.call.close);
    XmlRpcRoundTrip.EscapeHasNoTag(name);
    UnescapeOfEscape(name);
    ReadCallParts(e, f, declaration, f.name.open + (W.Escape(name) + (f.name.close + (f.params.open + rest))));
    ReadMethodNameOf(e, f, W.Escape(name), f.params.open + rest);
    ReadParamsOf(e, f, Some(Sanitised(name)), params);
  }

  // The writer's texts are those of the frame.

  const DECLARATION := "<?xml version=\"1.0\"?>"

  lemma WriterFramesCalls(e: Names, f: Frame, c: W.CallLayout)
    requires e == WireNames() && f == WireFrame() && c == W.CALL
    ensures IsFramed(e, f, DECLARATION, c)
  {
  }

  lemma WireFrameIsReadable(e: Names, f: Frame)
    requires e == WireNames() && f == WireFrame()
    ensures IsReadableFrame(e, f)
  {
    ApartAt(f.params.close, f.param.open, 1);
  }

  lemma DeclarationIsOne(d: Tag)
    requires d == WireFrame().declaration
    ensures IsDeclaration(d, DECLARATION)
  {
    var front := "<?xml version=\"1.0\"";
    assert DECLARATION == front + "?>";
    forall i | 0 <= i < |front|
      ensures !(d.close <= front[i..] + "?>")
    {
      assert (front[i..] + "?>")[0] == front[i];
      assert front[i] == '?' ==> i == 1;
      assert i == 1 ==> (front[i..] + "?>")[1] == 'x';
    }
    IndexSkips(front, "?>", d.close);
  }

  // A peer reads the method's name and the parameters of a written call, in order, exactly if the
  // parameters' ints fit.
  lemma PeerReadsCall(name: string, params: seq<W.Value>)
    ensures ReadCall(WireNames(), WireFrame(), W.RenderCall(W.CALL, name, params)) ==
      if FitAll(params) then Some((Sanitised(name), SentAll(params))) else None
  {
    var e, f, c := WireNames(), WireFrame(), W.CALL;
    WriterFramesCalls(e, f, c);
    WireFrameIsReadable(e, f);
    WireNamesAreReadable(e);
    DeclarationIsOne(f.declaration);
    RenderAllIsWith(params, c.open, c.close);
    RenderCallIs(e, f, DECLARATION, c, name, params);
    ReadCallOf(e, f, DECLARATION, name, params);
  }

  lemma RenderCallIs(e: Names, f: Frame, declaration: string, c: W.CallLayout, name: string, params: seq<W.Value>)
    requires IsFramed(e, f, declaration, c)
    requires W.RenderAll(params, c.open, c.close) == RenderAllWith(e, params, c.open, c.close)
    ensures var t := ParamTag(e, f);
            var rest := RenderAllWith(e, params, t.open, t.close) + (f.params.close + f.call.close);
            W.RenderCall(c, name, params) ==
            declaration + (f.call.open + (f.name.open + (W.Escape(name) + (f.name.close + (f.params.open + rest)))))
  {
    var all := RenderAllWith(e, params, c.open, c.close);
    CallParts(declaration, f.call.open, f.name.open, W.Escape(name), f.name.close, f.params.open, all + c.tail);
    Assoc(c.head + W.Escape(name) + c.middle, all, c.tail);
  }

  // An int that does not fit: a peer rejects what the driver writes for it.
  lemma WideIntIsRejected()
    ensures ReadValue(WireNames(), W.Render(W.Int(0x8000_0000))) == None
  {
    PeerReadsValue(W.Int(0x8000_0000));
  }
}
