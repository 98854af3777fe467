/**
 Laid-out XML-RPC values: any document tree with any white space between its elements, and the proof
 that the parser sees only the tree.
 */
module XmlRpcLayout {
  import opened Wrappers
  import opened Decimal
  import opened Text
  import opened TagMatcher
  import opened XmlRpcParser
  import opened XmlRpcScan

  // A value as a text spells it out. Bare is a text no branch of the parser takes apart; <base64> and
  // <boolean> elements are such texts.
  datatype Doc =
    | I4(n: int64)
    | I8(n: int64)
    | IntElement(n: int64)
    | StringElement(text: string)
    | Bare(text: string)
    | ArrayElement(gaps: Gaps, items: seq<Item>)

  // What stands around <data>, after it, before </data> and after that.
  datatype Gaps = Gaps(beforeData: string, afterOpen: string, beforeClose: string, afterData: string)

  // One <value> with its contents, and what follows it.
  datatype Item = Item(pre: string, doc: Doc, post: string, gap: string)

  datatype Syntax = Syntax(e: Elements, data: Tag)

  function Element(tag: Tag, t: string): string {
    tag.open + t + tag.close
  }

  function DocText(x: Syntax, d: Doc): string
    decreases d
  {
    match d
    case I4(n) => Element(x.e.i4, Itoa(n))
    case I8(n) => Element(x.e.i8, Itoa(n))
    case IntElement(n) => Element(x.e.integer, Itoa(n))
    case StringElement(text) => Element(x.e.text, text)
    case Bare(text) => text
    case ArrayElement(g, items) =>
      Element(x.e.list, g.beforeData + Element(x.data, g.afterOpen + ItemsText(x, items) + g.beforeClose) + g.afterData)
  }

  function ItemsText(x: Syntax, items: seq<Item>): string
    decreases items
  {
    if items == [] then "" else
      Element(x.e.value, items[0].pre + DocText(x, items[0].doc) + items[0].post)
      + (items[0].gap + ItemsText(x, items[1..]))
  }

  // The tree, with the layout forgotten.
  function Meaning(d: Doc): Parsed
    decreases d
  {
    match d
    case I4(n) => Num(n)
    case I8(n) => Num(n)
    case IntElement(n) => Num(n)
    case StringElement(text) => Parsed.Text(text)
    case Bare(text) => Parsed.Text(text)
    case ArrayElement(_, items) => List(Meanings(items))
  }

  function Meanings(items: seq<Item>): seq<Parsed>
    decreases items
  {
    if items == [] then [] else [Meaning(items[0].doc)] + Meanings(items[1..])
  }

  // White space is allowed around the contents of a <value>; between other tags, any text in which
  // no <value> or </value> begins.
  ghost predicate Legal(x: Syntax, d: Doc)
    decreases d
  {
    match d
    case StringElement(text) => Neutral(text, x.e.value)
    case Bare(text) => Neutral(text, x.e.value) && Trimmed(text) && KindOf(x.e, text) == BareText
    case ArrayElement(g, items) =>
      && Neutral(g.beforeData, x.e.value) && Neutral(g.afterOpen, x.e.value)
      && Neutral(g.beforeClose, x.e.value) && Neutral(g.afterData, x.e.value)
      && LegalItems(x, items)
    case _ => true
  }

  ghost predicate LegalItems(x: Syntax, items: seq<Item>)
    decreases items
  {
    items != [] ==>
      && AllSpace(items[0].pre) && AllSpace(items[0].post) && Neutral(items[0].gap, x.e.value)
      && Legal(x, items[0].doc)
      && LegalItems(x, items[1..])
  }

  // What the proofs use of the tags' spelling.
  ghost predicate Lexical(x: Syntax) {
    && TagPair(x.e.value.open, x.e.value.close)
    && Inert(x.e.i4, x.e.value) && Inert(x.e.i8, x.e.value) && Inert(x.e.integer, x.e.value)
    && Inert(x.e.text, x.e.value) && Inert(x.e.list, x.e.value) && Inert(x.data, x.e.value)
    && Apart(x.e.i4, x.e.i8) && Apart(x.e.i4, x.e.integer) && Apart(x.e.i4, x.e.text) && Apart(x.e.i4, x.e.list)
    && Apart(x.e.i8, x.e.integer) && Apart(x.e.i8, x.e.text) && Apart(x.e.i8, x.e.list)
    && Apart(x.e.integer, x.e.text) && Apart(x.e.integer, x.e.list) && Apart(x.e.text, x.e.list)
  }

  ghost predicate Inert(t: Tag, value: Tag) {
    && Neutral(t.open, value) && Neutral(t.close, value)
    && !WhiteSpace(t.open[0]) && !WhiteSpace(t.close[|t.close| - 1])
  }

  predicate Apart(a: Tag, b: Tag) {
    !(a.open <= b.open) && !(b.open <= a.open)
  }

  lemma KindOfElement(x: Syntax, rest: string)
    requires Lexical(x)
    ensures KindOf(x.e, x.e.i4.open + rest) == Number(x.e.i4)
    ensures KindOf(x.e, x.e.i8.open + rest) == Number(x.e.i8)
    ensures KindOf(x.e, x.e.integer.open + rest) == Number(x.e.integer)
    ensures KindOf(x.e, x.e.text.open + rest) == Kind.String
    ensures KindOf(x.e, x.e.list.open + rest) == Kind.Array
  {
    NotBefore(x.e.i4, x.e.i8, rest);
    NotBefore(x.e.i4, x.e.integer, rest);
    NotBefore(x.e.i4, x.e.text, rest);
    NotBefore(x.e.i4, x.e.list, rest);
    NotBefore(x.e.i8, x.e.integer, rest);
    NotBefore(x.e.i8, x.e.text, rest);
    NotBefore(x.e.i8, x.e.list, rest);
    NotBefore(x.e.integer, x.e.text, rest);
    NotBefore(x.e.integer, x.e.list, rest);
    NotBefore(x.e.text, x.e.list, rest);
  }

  lemma NotBefore(a: Tag, b: Tag, rest: string)
    requires Apart(a, b)
    ensures !(a.open <= b.open + rest)
  {
    PrefixesCompare(a.open, b.open, rest);
  }

  lemma ElementTextOf(tag: Tag, t: string)
    ensures ElementText(Element(tag, t), tag) == t
  {
    var s := Element(tag, t);
    assert s == tag.open + (t + tag.close);
    assert s[|tag.open|..] == t + tag.close;
    assert (t + tag.close)[|t|..] == tag.close;
    assert (t + tag.close)[..|t|] == t;
  }

  lemma ItoaIsNeutral(n: int, tag: Tag)
    requires TagPair(tag.open, tag.close)
    ensures Neutral(Itoa(n), tag)
  {
    PlainIsNeutral(Itoa(n), tag);
  }

  lemma SpaceIsNeutral(s: string, tag: Tag)
    requires TagPair(tag.open, tag.close) && AllSpace(s)
    ensures Neutral(s, tag)
  {
    PlainIsNeutral(s, tag);
  }

  lemma ElementIsNeutral(t: Tag, text: string, value: Tag)
    requires Inert(t, value) && Neutral(text, value)
    ensures Neutral(Element(t, text), value)
  {
    NeutralConcat(t.open, text, value);
    NeutralConcat(t.open + text, t.close, value);
  }

  // Each document can be passed over by the scan, at every nesting depth.
  lemma {:induction false} DocIsSkippable(x: Syntax, d: Doc)
    requires Lexical(x) && Legal(x, d)
    ensures Skippable(DocText(x, d), x.e.value)
    decreases d
  {
    var v := x.e.value;
    match d
    case I4(n) =>
      ItoaIsNeutral(n, v);
      ElementIsNeutral(x.e.i4, Itoa(n), v);
      NeutralIsSkippable(DocText(x, d), v);
    case I8(n) =>
      ItoaIsNeutral(n, v);
      ElementIsNeutral(x.e.i8, Itoa(n), v);
      NeutralIsSkippable(DocText(x, d), v);
    case IntElement(n) =>
      ItoaIsNeutral(n, v);
      ElementIsNeutral(x.e.integer, Itoa(n), v);
      NeutralIsSkippable(DocText(x, d), v);
    case StringElement(text) =>
      ElementIsNeutral(x.e.text, text, v);
      NeutralIsSkippable(DocText(x, d), v);
    case Bare(text) =>
      NeutralIsSkippable(text, v);
    case ArrayElement(g, items) =>
      ItemsAreSkippable(x, items);
      WrappedIsSkippable(x.data, g.afterOpen, ItemsText(x, items), g.beforeClose, v);
      WrappedIsSkippable(x.e.list, g.beforeData, Element(x.data, g.afterOpen + ItemsText(x, items) + g.beforeClose),
          g.afterData, v);
  }

  lemma WrappedIsSkippable(t: Tag, a: string, text: string, b: string, value: Tag)
    requires Inert(t, value) && Neutral(a, value) && Neutral(b, value) && Skippable(text, value)
    ensures Skippable(Element(t, a + text + b), value)
  {
    NeutralIsSkippable(a, value);
    NeutralIsSkippable(b, value);
    NeutralIsSkippable(t.open, value);
    NeutralIsSkippable(t.close, value);
    SkippableConcat(a, text, value);
    SkippableConcat(a + text, b, value);
    SkippableConcat(t.open, a + text + b, value);
    SkippableConcat(t.open + (a + text + b), t.close, value);
  }

  lemma ItemBodyIsSkippable(x: Syntax, it: Item)
    requires Lexical(x) && AllSpace(it.pre) && AllSpace(it.post) && Skippable(DocText(x, it.doc), x.e.value)
    ensures Skippable(it.pre + DocText(x, it.doc) + it.post, x.e.value)
  {
    var v := x.e.value;
    SpaceIsNeutral(it.pre, v);
    SpaceIsNeutral(it.post, v);
    NeutralIsSkippable(it.pre, v);
    NeutralIsSkippable(it.post, v);
    SkippableConcat(it.pre, DocText(x, it.doc), v);
    SkippableConcat(it.pre + DocText(x, it.doc), it.post, v);
  }

  lemma {:induction false} ItemsAreSkippable(x: Syntax, items: seq<Item>)
    requires Lexical(x) && LegalItems(x, items)
    ensures Skippable(ItemsText(x, items), x.e.value)
    decreases items
  {
    var v := x.e.value;
    if items == [] {
      NeutralIsSkippable("", v);
    } else {
      var it, body := items[0], items[0].pre + DocText(x, items[0].doc) + items[0].post;
      DocIsSkippable(x, it.doc);
      ItemBodyIsSkippable(x, it);
      ElementIsSkippable(body, v);
      ItemsAreSkippable(x, items[1..]);
      NeutralIsSkippable(it.gap, v);
      SkippableConcat(it.gap, ItemsText(x, items[1..]), v);
      SkippableConcat(Element(v, body), it.gap + ItemsText(x, items[1..]), v);
    }
  }

  // An element's ends are its tags' ends, so trimming leaves it alone.
  lemma ElementIsTrimmed(t: Tag, text: string)
    requires !WhiteSpace(t.open[0]) && !WhiteSpace(t.close[|t.close| - 1])
    ensures Trimmed(Element(t, text)) && Element(t, text) != ""
  {
    var s := Element(t, text);
    assert s[0] == t.open[0] && s[|s| - 1] == t.close[|t.close| - 1];
  }

  lemma DocIsTrimmed(x: Syntax, d: Doc)
    requires Lexical(x) && Legal(x, d)
    ensures Trimmed(DocText(x, d))
  {
    match d
    case I4(n) => ElementIsTrimmed(x.e.i4, Itoa(n));
    case I8(n) => ElementIsTrimmed(x.e.i8, Itoa(n));
    case IntElement(n) => ElementIsTrimmed(x.e.integer, Itoa(n));
    case StringElement(text) => ElementIsTrimmed(x.e.text, text);
    case Bare(text) =>
    case ArrayElement(g, items) =>
      var body := g.afterOpen + ItemsText(x, items) + g.beforeClose;
      ElementIsTrimmed(x.e.list, g.beforeData + Element(x.data, body) + g.afterData);
  }

  lemma ParseNumberElement(x: Syntax, tag: Tag, n: int64)
    requires Lexical(x) && (tag == x.e.i4 || tag == x.e.i8 || tag == x.e.integer)
    ensures Parse(x.e, Element(tag, Itoa(n))) == Ok(Num(n))
  {
    Assoc(tag.open, Itoa(n), tag.close);
    KindOfElement(x, Itoa(n) + tag.close);
    ElementTextOf(tag, Itoa(n));
    ParseIntOfItoa(n);
  }

  lemma ParseStringElement(x: Syntax, text: string)
    requires Lexical(x)
    ensures Parse(x.e, Element(x.e.text, text)) == Ok(Parsed.Text(text))
  {
    Assoc(x.e.text.open, text, x.e.text.close);
    KindOfElement(x, text + x.e.text.close);
    ElementTextOf(x.e.text, text);
  }

  lemma ParseArrayElement(x: Syntax, body: string, items: seq<Parsed>)
    requires Lexical(x) && ParseItems(x.e, Element(x.e.list, body)) == Ok(items)
    ensures Parse(x.e, Element(x.e.list, body)) == Ok(List(items))
  {
    Assoc(x.e.list.open, body, x.e.list.close);
    KindOfElement(x, body + x.e.list.close);
  }

  // The parser reads the tree off every legal layout of it.
  lemma {:induction false} ParseDoc(x: Syntax, d: Doc)
    requires Lexical(x) && Legal(x, d)
    ensures Parse(x.e, DocText(x, d)) == Ok(Meaning(d))
    decreases d
  {
    match d
    case I4(n) => ParseNumberElement(x, x.e.i4, n);
    case I8(n) => ParseNumberElement(x, x.e.i8, n);
    case IntElement(n) => ParseNumberElement(x, x.e.integer, n);
    case StringElement(text) => ParseStringElement(x, text);
    case Bare(text) =>
    case ArrayElement(g, items) =>
      var lead := x.e.list.open + g.beforeData + x.data.open + g.afterOpen;
      var trail := g.beforeClose + x.data.close + g.afterData + x.e.list.close;
      FoldNeutral(x.e.list.open, g.beforeData, x.data.open, g.afterOpen, x.e.value);
      FoldNeutral(g.beforeClose, x.data.close, g.afterData, x.e.list.close, x.e.value);
      ArrayParts(x, g, ItemsText(x, items), lead, trail);
      ParseItemsOf(x, lead, items, trail, DocText(x, d));
      var body := g.afterOpen + ItemsText(x, items) + g.beforeClose;
      ParseArrayElement(x, g.beforeData + Element(x.data, body) + g.afterData, Meanings(items));
  }

  lemma FoldNeutral(a: string, b: string, c: string, d: string, tag: Tag)
    requires Neutral(a, tag) && Neutral(b, tag) && Neutral(c, tag) && Neutral(d, tag)
    ensures Neutral(a + b + c + d, tag)
  {
    NeutralConcat(a, b, tag);
    NeutralConcat(a + b, c, tag);
    NeutralConcat(a + b + c, d, tag);
  }

  lemma ArrayParts(x: Syntax, g: Gaps, items: string, lead: string, trail: string)
    requires lead == x.e.list.open + g.beforeData + x.data.open + g.afterOpen
    requires trail == g.beforeClose + x.data.close + g.afterData + x.e.list.close
    ensures Element(x.e.list, g.beforeData + Element(x.data, g.afterOpen + items + g.beforeClose) + g.afterData)
         == lead + (items + trail)
  {
  }

  // The children in front of any further text are found first, and the search goes on there.
  lemma {:induction false} ParseItemsThen(x: Syntax, lead: string, items: seq<Item>, more: string, s: string)
    requires Lexical(x) && LegalItems(x, items) && Neutral(lead, x.e.value)
    requires s == lead + (ItemsText(x, items) + more)
    ensures ParseItems(x.e, s) == Prepend(Meanings(items), ParseItems(x.e, more))
    decreases items, 0
  {
    var v := x.e.value;
    if items == [] {
      assert "" + more == more;
      NextChildSkips(lead, more, v);
      PrependTwice([], [], ParseItems(x.e, more));
    } else {
      var it, rest := items[0], ItemsText(x, items[1..]);
      var text := DocText(x, it.doc);
      var body, u := it.pre + text + it.post, it.gap + (rest + more);
      DocIsSkippable(x, it.doc);
      ItemBodyIsSkippable(x, it);
      ItemParts(Element(v, body), it.gap, rest, more);
      NextChildOfElement(lead, body, u, v, s);
      DocIsTrimmed(x, it.doc);
      TrimSpaceStrips(it.pre, text, it.post);
      ParseDoc(x, it.doc);
      ParseItemsThen(x, it.gap, items[1..], more, u);
      ItemsStep(x.e, s, body, u);
      PrependTwice([Meaning(it.doc)], Meanings(items[1..]), ParseItems(x.e, more));
    }
  }

  lemma ParseItemsOf(x: Syntax, lead: string, items: seq<Item>, trail: string, s: string)
    requires Lexical(x) && LegalItems(x, items)
    requires Neutral(lead, x.e.value) && Neutral(trail, x.e.value)
    requires s == lead + (ItemsText(x, items) + trail)
    ensures ParseItems(x.e, s) == Ok(Meanings(items))
    decreases items, 1
  {
    ParseItemsThen(x, lead, items, trail, s);
    IndexInNeutral(trail, x.e.value);
    PrependTwice(Meanings(items), [], Ok([]));
  }

  lemma ItemParts(e: string, gap: string, rest: string, trail: string)
    ensures (e + (gap + rest)) + trail == e + (gap + (rest + trail))
  {
  }
}
