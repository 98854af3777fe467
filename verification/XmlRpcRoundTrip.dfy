/**
 What parseXMLRPCValue makes of what writeXMLRPCValue wrote, compactly or laid out with white space.
 */
module XmlRpcRoundTrip {
  import opened Wrappers
  import opened Text
  import opened TagMatcher
  import W = XmlRpcWriter
  import opened XmlRpcParser
  import opened XmlRpcScan
  import opened XmlRpcLayout

  function XmlRpcSyntax(): Syntax {
    Syntax(XmlRpc(), Tag("<data>", "</data>"))
  }

  // A tag's text begins with '<', has no other, and is no tag of a value.
  lemma LoneTagIsNeutral(t: string, tag: Tag)
    requires TagPair(tag.open, tag.close) && Clear(t, tag)
    requires forall i | 0 < i < |t| :: t[i] != '<'
    ensures Neutral(t, tag)
  {
    forall i | 0 <= i < |t|
      ensures Clear(t[i..], tag)
    {
      assert t[0..] == t;
      assert t[i..][0] == t[i];
    }
  }

  // Neither tag of t is a tag of a value: they differ at the first or second letter of the name.
  lemma InertTag(t: Tag, value: Tag)
    requires value == Tag("<value>", "</value>") && TagPair(value.open, value.close)
    requires |t.open| > 2 && |t.close| > 3
    requires t.open[0] == '<' && t.close[0] == '<' && t.close[1] == '/'
    requires t.open[1] !in "v/" && t.close[2] != 'v'
    requires t.open[|t.open| - 1] == '>' && t.close[|t.close| - 1] == '>'
    requires forall i | 0 < i < |t.open| :: t.open[i] != '<'
    requires forall i | 0 < i < |t.close| :: t.close[i] != '<'
    ensures Inert(t, value)
  {
    assert value.open[1] == 'v' && value.close[1] == '/' && value.close[2] == 'v';
    LoneTagIsNeutral(t.open, value);
    LoneTagIsNeutral(t.close, value);
  }

  lemma ApartAt(a: Tag, b: Tag, k: nat)
    requires k < |a.open| && k < |b.open| && a.open[k] != b.open[k]
    ensures Apart(a, b)
  {
  }

  lemma XmlRpcIsLexical()
    ensures Lexical(XmlRpcSyntax())
  {
    var e := XmlRpc();
    XmlRpcValueTags(e.value);
    XmlRpcTagsAreInert(e);
    XmlRpcTagsAreApart(e);
  }

  lemma XmlRpcValueTags(value: Tag)
    requires value == XmlRpc().value
    ensures TagPair(value.open, value.close)
  {
    TagsArePair("value");
    assert OpenTag("value") == value.open && CloseTag("value") == value.close;
  }

  lemma XmlRpcTagsAreInert(e: Elements)
    requires e == XmlRpc()
    ensures Inert(e.i4, e.value) && Inert(e.i8, e.value) && Inert(e.integer, e.value)
    ensures Inert(e.text, e.value) && Inert(e.list, e.value) && Inert(XmlRpcSyntax().data, e.value)
  {
    XmlRpcValueTags(e.value);
    InertTag(e.i4, e.value);
    InertTag(e.i8, e.value);
    InertTag(e.integer, e.value);
    InertTag(e.text, e.value);
    InertTag(e.list, e.value);
    InertTag(XmlRpcSyntax().data, e.value);
  }

  lemma XmlRpcTagsAreApart(e: Elements)
    requires e == XmlRpc()
    ensures Apart(e.i4, e.i8) && Apart(e.i4, e.integer) && Apart(e.i4, e.text) && Apart(e.i4, e.list)
    ensures Apart(e.i8, e.integer) && Apart(e.i8, e.text) && Apart(e.i8, e.list)
    ensures Apart(e.integer, e.text) && Apart(e.integer, e.list) && Apart(e.text, e.list)
  {
    ApartAt(e.i4, e.i8, 2);
    ApartAt(e.i4, e.integer, 2);
    ApartAt(e.i8, e.integer, 2);
    ApartAt(e.i4, e.text, 1);
    ApartAt(e.i4, e.list, 1);
    ApartAt(e.i8, e.text, 1);
    ApartAt(e.i8, e.list, 1);
    ApartAt(e.integer, e.text, 1);
    ApartAt(e.integer, e.list, 1);
    ApartAt(e.text, e.list, 1);
  }

  // The value the parser returns for a written v: integers are widened to 64 bits, strings come back
  // in their escaped form, and <base64> and <boolean> elements come back as text.
  function Expected(v: W.Value): Parsed
    decreases v
  {
    match v
    case Str(s) => Parsed.Text(W.Escape(s))
    case Bytes(bytes) => Parsed.Text("<base64>" + W.Base64(bytes) + "</base64>")
    case Int(i) => Num(i)
    case Int64(n) => Num(n)
    case Bool(b) => Parsed.Text("<boolean>" + (if b then "1" else "0") + "</boolean>")
    case Array(items) => List(ExpectedAll(items))
    case Other(sprint) => Parsed.Text(W.Escape(sprint))
  }

  function ExpectedAll(items: seq<W.Value>): seq<Parsed>
    decreases items
  {
    if items == [] then [] else [Expected(items[0])] + ExpectedAll(items[1..])
  }

  // d spells out v, with any white space between the tags and around the contents of <value>.
  predicate Spells(d: Doc, v: W.Value)
    decreases v
  {
    match (d, v)
    case (StringElement(text), Str(s)) => text == W.Escape(s)
    case (StringElement(text), Other(s)) => text == W.Escape(s)
    case (I4(n), Int(i)) => n == i
    case (I8(n), Int64(m)) => n == m
    case (Bare(text), Bytes(bytes)) => text == "<base64>" + W.Base64(bytes) + "</base64>"
    case (Bare(text), Bool(b)) => text == "<boolean>" + (if b then "1" else "0") + "</boolean>"
    case (ArrayElement(g, items), Array(vs)) =>
      && AllSpace(g.beforeData) && AllSpace(g.afterOpen) && AllSpace(g.beforeClose) && AllSpace(g.afterData)
      && SpellsAll(items, vs)
    case _ => false
  }

  predicate SpellsAll(items: seq<Item>, vs: seq<W.Value>)
    decreases vs
  {
    && |items| == |vs|
    && (items != [] ==>
      && AllSpace(items[0].pre) && AllSpace(items[0].post) && AllSpace(items[0].gap)
      && Spells(items[0].doc, vs[0])
      && SpellsAll(items[1..], vs[1..]))
  }

  // Escaped text holds no '<'.
  lemma {:induction false} EscapeHasNoTag(s: string)
    ensures '<' !in W.Escape(s)
  {
    if s != "" {
      EscapeHasNoTag(s[1..]);
    }
  }

  lemma {:induction false} Base64HasNoTag(bytes: seq<W.Octet>)
    ensures '<' !in W.Base64(bytes)
  {
    if |bytes| > 2 {
      Base64HasNoTag(bytes[3..]);
    }
  }

  // An element the parser does not know is bare text to it.
  lemma UnknownElement(t: Tag, text: string)
    requires |t.open| > 2 && t.open[0] == '<' && t.open[1] == 'b' && Inert(t, XmlRpc().value)
    requires '<' !in text
    ensures Legal(XmlRpcSyntax(), Bare(Element(t, text)))
  {
    var e, s := XmlRpc(), Element(t, text);
    XmlRpcIsLexical();
    PlainIsNeutral(text, e.value);
    ElementIsNeutral(t, text, e.value);
    ElementIsTrimmed(t, text);
    assert s[1] == 'b';
    assert e.i4.open[1] == 'i' && e.i8.open[1] == 'i' && e.integer.open[1] == 'i';
    assert e.text.open[1] == 's' && e.list.open[1] == 'a';
  }

  lemma UnknownElements(bytes: seq<W.Octet>, b: bool)
    ensures Legal(XmlRpcSyntax(), Bare("<base64>" + W.Base64(bytes) + "</base64>"))
    ensures Legal(XmlRpcSyntax(), Bare("<boolean>" + (if b then "1" else "0") + "</boolean>"))
  {
    var base64, boolean := Tag("<base64>", "</base64>"), Tag("<boolean>", "</boolean>");
    Base64HasNoTag(bytes);
    XmlRpcValueTags(XmlRpc().value);
    InertTag(base64, XmlRpc().value);
    InertTag(boolean, XmlRpc().value);
    UnknownElement(base64, W.Base64(bytes));
    UnknownElement(boolean, if b then "1" else "0");
  }

  lemma {:induction false} SpellingIsLegal(d: Doc, v: W.Value)
    requires Spells(d, v)
    ensures Legal(XmlRpcSyntax(), d) && Meaning(d) == Expected(v)
    decreases v
  {
    var tag := XmlRpc().value;
    XmlRpcIsLexical();
    match (d, v)
    case (StringElement(text), Str(s)) =>
      EscapeHasNoTag(s);
      PlainIsNeutral(text, tag);
    case (StringElement(text), Other(s)) =>
      EscapeHasNoTag(s);
      PlainIsNeutral(text, tag);
    case (Bare(text), Bytes(bytes)) => UnknownElements(bytes, true);
    case (Bare(text), Bool(b)) => UnknownElements([], b);
    case (ArrayElement(g, items), Array(vs)) =>
      SpaceIsNeutral(g.beforeData, tag);
      SpaceIsNeutral(g.afterOpen, tag);
      SpaceIsNeutral(g.beforeClose, tag);
      SpaceIsNeutral(g.afterData, tag);
      SpellingsAreLegal(items, vs);
    case _ =>
  }

  lemma {:induction false} SpellingsAreLegal(items: seq<Item>, vs: seq<W.Value>)
    requires SpellsAll(items, vs)
    ensures LegalItems(XmlRpcSyntax(), items) && Meanings(items) == ExpectedAll(vs)
    decreases vs
  {
    if items != [] {
      XmlRpcIsLexical();
      SpaceIsNeutral(items[0].gap, XmlRpc().value);
      SpellingIsLegal(items[0].doc, vs[0]);
      SpellingsAreLegal(items[1..], vs[1..]);
    }
  }

  // Layout independence: however v is laid out, the parser returns the same tree.
  lemma ParseAnyLayout(v: W.Value, d: Doc, pre: string, post: string)
    requires Spells(d, v) && AllSpace(pre) && AllSpace(post)
    ensures Parse(XmlRpc(), TrimSpace(pre + DocText(XmlRpcSyntax(), d) + post)) == Ok(Expected(v))
  {
    XmlRpcIsLexical();
    SpellingIsLegal(d, v);
    DocIsTrimmed(XmlRpcSyntax(), d);
    TrimSpaceStrips(pre, DocText(XmlRpcSyntax(), d), post);
    ParseDoc(XmlRpcSyntax(), d);
  }

  // The layout without any white space.
  function Compact(v: W.Value): Doc
    decreases v
  {
    match v
    case Str(s) => StringElement(W.Escape(s))
    case Bytes(bytes) => Bare("<base64>" + W.Base64(bytes) + "</base64>")
    case Int(i) => I4(i)
    case Int64(n) => I8(n)
    case Bool(b) => Bare("<boolean>" + (if b then "1" else "0") + "</boolean>")
    case Array(items) => ArrayElement(Gaps("", "", "", ""), CompactAll(items))
    case Other(sprint) => StringElement(W.Escape(sprint))
  }

  function CompactAll(vs: seq<W.Value>): seq<Item>
    decreases vs
  {
    if vs == [] then [] else [Item("", Compact(vs[0]), "", "")] + CompactAll(vs[1..])
  }

  lemma {:induction false} CompactSpells(v: W.Value)
    ensures Spells(Compact(v), v)
    decreases v
  {
    if v.Array? {
      CompactAllSpell(v.items);
    }
  }

  lemma {:induction false} CompactAllSpell(vs: seq<W.Value>)
    ensures SpellsAll(CompactAll(vs), vs)
    decreases vs
  {
    if vs != [] {
      CompactSpells(vs[0]);
      CompactAllSpell(vs[1..]);
      assert CompactAll(vs)[1..] == CompactAll(vs[1..]);
    }
  }

  lemma ArrayText(a: string, b: string, t: string, c: string, d: string)
    ensures a + ("" + (b + ("" + t + "") + c) + "") + d == (a + b) + t + (c + d)
  {
  }

  lemma ItemText(open: string, t: string, close: string, rest: string)
    ensures (open + ("" + t + "") + close) + ("" + rest) == (open + t + close) + rest
  {
  }

  // The writer's text is the compact layout.
  lemma {:induction false} RenderIsCompact(v: W.Value)
    ensures DocText(XmlRpcSyntax(), Compact(v)) == W.Render(v)
    decreases v
  {
    if v.Array? {
      RenderAllIsCompact(v.items);
      ArrayIsCompact(v.items);
    }
  }

  lemma ArrayIsCompact(vs: seq<W.Value>)
    requires ItemsText(XmlRpcSyntax(), CompactAll(vs)) == W.RenderAll(vs, "<value>", "</value>")
    ensures DocText(XmlRpcSyntax(), Compact(W.Array(vs))) == W.Render(W.Array(vs))
    decreases W.Array(vs), 0
  {
    ArrayLiterals();
    ArrayTextOf(XmlRpcSyntax(), vs);
  }

  lemma ArrayLiterals()
    ensures XmlRpc().list.open + XmlRpcSyntax().data.open == "<array><data>"
    ensures XmlRpcSyntax().data.close + XmlRpc().list.close == "</data></array>"
  {
  }

  lemma ArrayTextOf(x: Syntax, vs: seq<W.Value>)
    ensures DocText(x, Compact(W.Array(vs))) ==
      (x.e.list.open + x.data.open) + ItemsText(x, CompactAll(vs)) + (x.data.close + x.e.list.close)
    decreases W.Array(vs), 0
  {
    ArrayText(x.e.list.open, x.data.open, ItemsText(x, CompactAll(vs)), x.data.close, x.e.list.close);
  }

  lemma {:induction false} RenderAllIsCompact(vs: seq<W.Value>)
    ensures ItemsText(XmlRpcSyntax(), CompactAll(vs)) == W.RenderAll(vs, "<value>", "</value>")
    decreases vs
  {
    if vs != [] {
      RenderIsCompact(vs[0]);
      RenderAllIsCompact(vs[1..]);
      assert CompactAll(vs)[1..] == CompactAll(vs[1..]);
      ItemText("<value>", W.Render(vs[0]), "</value>", ItemsText(XmlRpcSyntax(), CompactAll(vs[1..])));
    }
  }

  // Round trip: the parser undoes the writer on arbitrarily nested values.
  lemma RoundTrip(v: W.Value)
    ensures Parse(XmlRpc(), W.Render(v)) == Ok(Expected(v))
  {
    XmlRpcIsLexical();
    CompactSpells(v);
    SpellingIsLegal(Compact(v), v);
    RenderIsCompact(v);
    ParseDoc(XmlRpcSyntax(), Compact(v));
  }

  // The round trip returns v itself exactly when no string in it needs escaping.

  predicate PlainChar(c: char) {
    c !in "\"'&<>\t\n\r" && W.XmlCharacter(c)
  }

  predicate Plain(s: string) {
    forall i | 0 <= i < |s| :: PlainChar(s[i])
  }

  lemma PlainCharIsKept(c: char)
    ensures W.EscapeChar(c) == [c] <==> PlainChar(c)
    ensures |W.EscapeChar(c)| >= 1
  {
  }

  // A concatenation begins with one character exactly if its first part is that character.
  lemma SameFront(e: string, t: string, c: char, s: string)
    requires |e| >= 1 && |t| >= |s|
    ensures e + t == [c] + s <==> e == [c] && t == s
  {
    if e + t == [c] + s {
      assert |e| == 1 && (e + t)[0] == e[0] && (e + t)[1..] == t && ([c] + s)[1..] == s;
    }
  }

  lemma PlainCons(s: string)
    requires s != ""
    ensures Plain(s) <==> PlainChar(s[0]) && Plain(s[1..])
    ensures [s[0]] + s[1..] == s
  {
    assert forall i | 0 < i < |s| :: s[i] == s[1..][i - 1];
  }

  lemma {:induction false} EscapeIsIdentity(s: string)
    ensures W.Escape(s) == s <==> Plain(s)
    ensures |W.Escape(s)| >= |s|
  {
    if s != "" {
      EscapeIsIdentity(s[1..]);
      PlainCharIsKept(s[0]);
      SameFront(W.EscapeChar(s[0]), W.Escape(s[1..]), s[0], s[1..]);
      PlainCons(s);
    }
  }

  // Strings, integers and arrays of them: what the parser can return unchanged.
  predicate Returnable(v: W.Value)
    decreases v
  {
    match v
    case Str(_) => true
    case Int(_) => true
    case Int64(_) => true
    case Array(items) => forall i | 0 <= i < |items| :: Returnable(items[i])
    case _ => false
  }

  predicate PlainValue(v: W.Value)
    decreases v
  {
    match v
    case Str(s) => Plain(s)
    case Array(items) => forall i | 0 <= i < |items| :: PlainValue(items[i])
    case _ => true
  }

  // v itself, as the parser's type holds it.
  function Widened(v: W.Value): Parsed
    requires Returnable(v)
    decreases v
  {
    match v
    case Str(s) => Parsed.Text(s)
    case Int(i) => Num(i)
    case Int64(n) => Num(n)
    case Array(items) => List(WidenedAll(items))
  }

  function WidenedAll(items: seq<W.Value>): seq<Parsed>
    requires forall i | 0 <= i < |items| :: Returnable(items[i])
    decreases items
  {
    if items == [] then [] else [Widened(items[0])] + WidenedAll(items[1..])
  }

  lemma {:induction false} ExactRoundTrip(v: W.Value)
    requires Returnable(v)
    ensures Parse(XmlRpc(), W.Render(v)) == Ok(Widened(v)) <==> PlainValue(v)
  {
    RoundTrip(v);
    ExpectedIsWidened(v);
  }

  lemma {:induction false} ExpectedIsWidened(v: W.Value)
    requires Returnable(v)
    ensures Expected(v) == Widened(v) <==> PlainValue(v)
    decreases v
  {
    match v
    case Str(s) => EscapeIsIdentity(s);
    case Array(items) => ExpectedAllAreWidened(items);
    case _ =>
  }

  lemma {:induction false} ExpectedAllAreWidened(items: seq<W.Value>)
    requires forall i | 0 <= i < |items| :: Returnable(items[i])
    ensures ExpectedAll(items) == WidenedAll(items) <==> forall i | 0 <= i < |items| :: PlainValue(items[i])
    decreases items
  {
    if items != [] {
      ExpectedIsWidened(items[0]);
      ExpectedAllAreWidened(items[1..]);
      assert ExpectedAll(items)[1..] == ExpectedAll(items[1..]) && WidenedAll(items)[1..] == WidenedAll(items[1..]);
      assert ExpectedAll(items)[0] == Expected(items[0]) && WidenedAll(items)[0] == Widened(items[0]);
      assert (forall i | 0 <= i < |items| :: PlainValue(items[i]))
        <==> PlainValue(items[0]) && forall i | 0 <= i < |items[1..]| :: PlainValue(items[1..][i]);
    }
  }

  // The child search applied to a whole call finds its parameters, in order.
  lemma {:induction false} ParamsOf(lead: string, params: seq<W.Value>, before: string, after: string, trail: string,
      s: string)
    requires Neutral(lead, XmlRpc().value) && Neutral(before, XmlRpc().value)
    requires Neutral(after, XmlRpc().value) && Neutral(trail, XmlRpc().value)
    requires s == lead + (W.RenderAll(params, before + XmlRpc().value.open, XmlRpc().value.close + after) + trail)
    ensures ParseItems(XmlRpc(), s) == Ok(ExpectedAll(params))
    decreases params
  {
    var e := XmlRpc();
    var v := e.value;
    XmlRpcIsLexical();
    if params == [] {
      assert "" + trail == trail;
      NeutralConcat(lead, trail, v);
      IndexInNeutral(s, v);
    } else {
      var others := W.RenderAll(params[1..], before + v.open, v.close + after);
      ParamParts(lead, before, v.open, W.Render(params[0]), v.close, after, others, trail);
      NeutralConcat(lead, before, v);
      ValueIsFound(lead + before, params[0], after + (others + trail), s);
      ParamsOf(after, params[1..], before, after, trail, after + (others + trail));
      ItemsStep(e, s, W.Render(params[0]), after + (others + trail));
    }
  }

  // A written value is cut out whole by the search and parsed.
  lemma ValueIsFound(lead: string, v: W.Value, u: string, s: string)
    requires Neutral(lead, XmlRpc().value)
    requires s == lead + (XmlRpc().value.open + W.Render(v) + XmlRpc().value.close + u)
    ensures NextChild(s, XmlRpc().value) == Some((W.Render(v), u))
    ensures Parse(XmlRpc(), TrimSpace(W.Render(v))) == Ok(Expected(v))
  {
    var text := W.Render(v);
    RenderIsSkippable(v);
    XmlRpcValueTags(XmlRpc().value);
    NextChildOfElement(lead, text, u, XmlRpc().value, s);
    TrimmedStays(text);
    RoundTrip(v);
  }

  lemma RenderIsSkippable(v: W.Value)
    ensures Skippable(W.Render(v), XmlRpc().value) && Trimmed(W.Render(v))
  {
    XmlRpcIsLexical();
    CompactSpells(v);
    SpellingIsLegal(Compact(v), v);
    RenderIsCompact(v);
    DocIsSkippable(XmlRpcSyntax(), Compact(v));
    DocIsTrimmed(XmlRpcSyntax(), Compact(v));
  }

  lemma TrimmedStays(t: string)
    requires Trimmed(t)
    ensures TrimSpace(t) == t
  {
    TrimSpaceStrips("", t, "");
    assert "" + t + "" == t;
  }

  // An opening tag other than <value>, or a closing one other than </value>.
  predicate ForeignTag(t: string) {
    && |t| > 2 && t[0] == '<' && (t[1] !in "v/" || (t[1] == '/' && t[2] != 'v'))
    && forall i | 0 < i < |t| :: t[i] != '<'
  }

  lemma ForeignIsNeutral(t: string, tag: Tag)
    requires tag == XmlRpc().value && ForeignTag(t)
    ensures Neutral(t, tag)
  {
    XmlRpcValueTags(tag);
    assert tag.open[1] == 'v' && tag.close[1] == '/' && tag.close[2] == 'v';
    LoneTagIsNeutral(t, tag);
  }

  lemma CallHeadIsNeutral(tag: Tag)
    requires tag == XmlRpc().value
    ensures Neutral(W.CALL.head, tag)
  {
    var xml, call, name := "<?xml version=\"1.0\"?>", "<methodCall>", "<methodName>";
    ForeignIsNeutral(xml, tag);
    ForeignIsNeutral(call, tag);
    ForeignIsNeutral(name, tag);
    NeutralConcat(xml, call, tag);
    NeutralConcat(xml + call, name, tag);
  }

  lemma CallMiddleIsNeutral(tag: Tag)
    requires tag == XmlRpc().value
    ensures Neutral(W.CALL.middle, tag)
  {
    var name, params := "</methodName>", "<params>";
    ForeignIsNeutral(name, tag);
    ForeignIsNeutral(params, tag);
    NeutralConcat(name, params, tag);
    assert W.CALL.middle == name + params;
  }

  lemma CallEndIsNeutral(tag: Tag)
    requires tag == XmlRpc().value
    ensures Neutral(W.CALL.tail, tag)
  {
    var params, call := "</params>", "</methodCall>";
    ForeignIsNeutral(params, tag);
    ForeignIsNeutral(call, tag);
    NeutralConcat(params, call, tag);
    assert W.CALL.tail == params + call;
  }

  lemma ParamTagsAreNeutral(tag: Tag)
    requires tag == XmlRpc().value
    ensures Neutral("<param>", tag) && Neutral("</param>", tag)
  {
    ForeignIsNeutral("<param>", tag);
    ForeignIsNeutral("</param>", tag);
  }

  lemma CallCarriesParams(name: string, params: seq<W.Value>)
    ensures ParseItems(XmlRpc(), W.RenderCall(W.CALL, name, params)) == Ok(ExpectedAll(params))
  {
    var v := XmlRpc().value;
    CallHeadIsNeutral(v);
    CallMiddleIsNeutral(v);
    CallEndIsNeutral(v);
    ParamTagsAreNeutral(v);
    CallOpensParams(W.CALL, v);
    NeutralLayoutCarries(W.CALL, "<param>", "</param>", name, params);
  }

  lemma CallOpensParams(c: W.CallLayout, v: Tag)
    requires c == W.CALL && v == XmlRpc().value
    ensures c.open == "<param>" + v.open && c.close == v.close + "</param>"
  {
  }

  lemma NeutralLayoutCarries(c: W.CallLayout, before: string, after: string, name: string, params: seq<W.Value>)
    requires Neutral(c.head, XmlRpc().value) && Neutral(c.middle, XmlRpc().value) && Neutral(c.tail, XmlRpc().value)
    requires Neutral(before, XmlRpc().value) && Neutral(after, XmlRpc().value)
    requires c.open == before + XmlRpc().value.open && c.close == XmlRpc().value.close + after
    ensures ParseItems(XmlRpc(), W.RenderCall(c, name, params)) == Ok(ExpectedAll(params))
  {
    var v, text := XmlRpc().value, W.Escape(name);
    XmlRpcValueTags(v);
    EscapeHasNoTag(name);
    PlainIsNeutral(text, v);
    NeutralConcat(c.head, text, v);
    NeutralConcat(c.head + text, c.middle, v);
    var lead, all := c.head + text + c.middle, W.RenderAll(params, c.open, c.close);
    Assoc(lead, all, c.tail);
    ParamsOf(lead, params, before, after, c.tail, lead + (all + c.tail));
  }

  lemma ParamParts(lead: string, before: string, open: string, t: string, close: string, after: string, rest: string,
      trail: string)
    ensures lead + (((before + open) + t + (close + after)) + rest + trail)
         == (lead + before) + (open + t + close + (after + (rest + trail)))
  {
  }
}
