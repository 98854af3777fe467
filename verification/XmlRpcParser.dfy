/**
 parseXMLRPCValue: the parser that finds the children of an array by searching for "<value>". It is
 total: the methods demand nothing of their input, so on every string, however malformed, the
 recursion and the loop end and every slice is in bounds.
 */
module XmlRpcParser {
  import opened Wrappers
  import opened Decimal
  import opened Text
  import opened TagMatcher

  datatype Parsed =
    | Num(n: int64)
    | Text(s: string)
    | List(items: seq<Parsed>)

  datatype TagTexts = Tag(open: string, close: string)

  type Tag = t: TagTexts | t.open != "" && t.close != "" witness Tag("<a>", "</a>")

  // The elements the parser knows. Its functions take the table as a parameter.
  datatype Elements = Elements(i4: Tag, i8: Tag, integer: Tag, text: Tag, list: Tag, value: Tag)

  function XmlRpc(): Elements {
    Elements(
      Tag("<i4>", "</i4>"), Tag("<i8>", "</i8>"), Tag("<int>", "</int>"),
      Tag("<string>", "</string>"), Tag("<array>", "</array>"), Tag("<value>", "</value>"))
  }

  // Which branch of the parser a text takes.
  datatype Kind = Number(tag: Tag) | String | Array | BareText

  function KindOf(e: Elements, inner: string): Kind {
    if e.i4.open <= inner then Number(e.i4)
    else if e.i8.open <= inner then Number(e.i8)
    else if e.integer.open <= inner then Number(e.integer)
    else if e.text.open <= inner then String
    else if e.list.open <= inner then Array
    else BareText
  }

  function ElementText(inner: string, tag: Tag): string {
    TrimSuffix(TrimPrefix(inner, tag.open), tag.close)
  }

  function ParseNumber(text: string): Result<Parsed> {
    match ParseInt(text)
    case Some(n) => Ok(Num(n))
    case None => Err("invalid integer")
  }

  // The function ParseXmlRpcValue computes.
  function Parse(e: Elements, inner: string): Result<Parsed>
    decreases |inner|, 1
  {
    if inner == "" then Ok(Text(""))
    else
      match KindOf(e, inner)
      case Number(tag) => ParseNumber(ElementText(inner, tag))
      case String => Ok(Text(ElementText(inner, e.text)))
      case Array => AsList(ParseItems(e, inner))
      case BareText => Ok(Text(inner))
  }

  function AsList(items: Result<seq<Parsed>>): Result<Parsed> {
    match items
    case Ok(xs) => Ok(List(xs))
    case Err(error) => Err(error)
  }

  // The contents of the first element that the search finds in rest, and what follows it.
  function NextChild(rest: string, tag: Tag): (r: Option<(string, string)>)
    ensures r.Some? ==> |r.value.0| < |rest| && |r.value.1| < |rest|
  {
    var start := Index(rest, tag.open);
    if start < 0 then None else CutChild(rest, tag, start, FindClose(rest[start..], tag.open, tag.close))
  }

  function CutChild(rest: string, tag: Tag, start: nat, end: int): (r: Option<(string, string)>)
    requires start <= |rest|
    requires end >= 0 ==> |tag.open| <= end && start + end + |tag.close| <= |rest|
    ensures r.Some? ==> |r.value.0| < |rest| && |r.value.1| < |rest|
  {
    if end < 0 then None
    else
      var absEnd := start + end;
      Some((rest[start + |tag.open|..absEnd], rest[absEnd + |tag.close|..]))
  }

  // The children that the search loop still finds in rest.
  function ParseItems(e: Elements, rest: string): Result<seq<Parsed>>
    decreases |rest|, 0
  {
    match NextChild(rest, e.value)
    case None => Ok([])
    case Some((raw, more)) =>
      match Parse(e, TrimSpace(raw))
      case Err(error) => Err(error)
      case Ok(item) => Prepend([item], ParseItems(e, more))
  }

  function Prepend(front: seq<Parsed>, back: Result<seq<Parsed>>): Result<seq<Parsed>> {
    match back
    case Ok(items) => Ok(front + items)
    case Err(error) => Err(error)
  }

  lemma PrependTwice(a: seq<Parsed>, b: seq<Parsed>, r: Result<seq<Parsed>>)
    ensures Prepend(a, Prepend(b, r)) == Prepend(a + b, r)
    ensures Prepend([], r) == r
    ensures Prepend(a, Ok([])) == Ok(a)
  {
    if r.Ok? {
      assert a + (b + r.value) == a + b + r.value;
      assert [] + r.value == r.value;
    }
    assert a + [] == a;
  }

  method ParseXmlRpcValue(e: Elements, inner: string) returns (r: Result<Parsed>)
    ensures r == Parse(e, inner)
    decreases |inner|, 1
  {
    if inner == "" {
      return Ok(Text(""));
    }
    match KindOf(e, inner)
    case Number(tag) =>
      r := ParseNumber(TrimSuffix(TrimPrefix(inner, tag.open), tag.close));
    case String =>
      r := Ok(Text(TrimSuffix(TrimPrefix(inner, e.text.open), e.text.close)));
    case Array =>
      var items := ParseChildren(e, inner);
      r := AsList(items);
    case BareText =>
      r := Ok(Text(inner));
  }

  method ParseChildren(e: Elements, inner: string) returns (r: Result<seq<Parsed>>)
    ensures r == ParseItems(e, inner)
    decreases |inner|, 0
  {
    var items: seq<Parsed>, rest := [], inner;
    PrependTwice([], [], ParseItems(e, rest));
    while true
      invariant |rest| <= |inner|
      invariant ParseItems(e, inner) == Prepend(items, ParseItems(e, rest))
      decreases |rest|
    {
      var next := FindChild(rest, e.value);
      if next == None {
        PrependTwice(items, [], Ok([]));
        return Ok(items);
      }
      var (raw, more) := next.value;
      var child := TrimSpace(raw);
      var val := ParseXmlRpcValue(e, child);
      ItemsStep(e, rest, raw, more);
      if val.Err? {
        return Err(val.error);
      }
      PrependTwice(items, [val.value], ParseItems(e, more));
      items := items + [val.value];
      rest := more;
    }
  }

  lemma ItemsStep(e: Elements, rest: string, raw: string, more: string)
    requires NextChild(rest, e.value) == Some((raw, more))
    ensures var child := Parse(e, TrimSpace(raw));
            ParseItems(e, rest) ==
              if child.Ok? then Prepend([child.value], ParseItems(e, more)) else Err(child.error)
  {
  }

  // The search of one iteration.
  method FindChild(rest: string, tag: Tag) returns (r: Option<(string, string)>)
    ensures r == NextChild(rest, tag)
  {
    var start := Index(rest, tag.open);
    if start < 0 {
      return None;
    }
    var end := ScanLoop(rest[start..], tag.open, tag.close);
    r := CutChild(rest, tag, start, end);
  }
}
