/** What the parser makes of text that is no laid-out value: bad numbers, missing tags, arrays cut short. */
module XmlRpcMalformed {
  import opened Wrappers
  import opened Decimal
  import opened Text
  import opened TagMatcher
  import opened XmlRpcParser
  import opened XmlRpcScan
  import opened XmlRpcLayout
  import opened XmlRpcRoundTrip

  // An <i4>, <i8> or <int> element is read exactly if its text is that of a 64-bit number; a missing
  // closing tag does not matter.
  lemma NumberElements(tag: Tag, t: string)
    requires tag in {Tag("<i4>", "</i4>"), Tag("<i8>", "</i8>"), Tag("<int>", "</int>")}
    ensures var r := Parse(XmlRpc(), tag.open + t + tag.close);
            if ParseInt(t).Some? then r == Ok(Num(ParseInt(t).value)) else r.Err?
    ensures !HasSuffix(t, tag.close) ==> Parse(XmlRpc(), tag.open + t) == Parse(XmlRpc(), tag.open + t + tag.close)
  {
    var x := XmlRpcSyntax();
    XmlRpcIsLexical();
    KindOfElement(x, t + tag.close);
    KindOfElement(x, t);
    Assoc(tag.open, t, tag.close);
    ElementTextOf(tag, t);
  }

  // A <string> element is its text; a missing closing tag does not matter.
  lemma StringElements(t: string)
    ensures Parse(XmlRpc(), "<string>" + t + "</string>") == Ok(Parsed.Text(t))
    ensures !HasSuffix(t, "</string>") ==> Parse(XmlRpc(), "<string>" + t) == Ok(Parsed.Text(t))
  {
    var tag := XmlRpc().text;
    XmlRpcIsLexical();
    KindOfElement(XmlRpcSyntax(), t + tag.close);
    KindOfElement(XmlRpcSyntax(), t);
    Assoc(tag.open, t, tag.close);
    ElementTextOf(tag, t);
  }

  // Text that begins with none of the five opening tags is taken as it is.
  lemma BareTexts(s: string)
    requires !("<i4>" <= s) && !("<i8>" <= s) && !("<int>" <= s) && !("<string>" <= s) && !("<array>" <= s)
    ensures Parse(XmlRpc(), s) == Ok(Parsed.Text(s))
  {
  }

  // An array whose next child is not closed gives the children before it, without an error.
  lemma TruncatedArray(lead: string, items: seq<Item>, u: string)
    requires Neutral(lead, XmlRpc().value) && LegalItems(XmlRpcSyntax(), items)
    requires forall k | 0 <= k <= |"<value>" + u| :: !Closes("<value>" + u, "<value>", "</value>", k)
    ensures Parse(XmlRpc(), "<array>" + (lead + (ItemsText(XmlRpcSyntax(), items) + ("<value>" + u)))) ==
      Ok(List(Meanings(items)))
  {
    NothingFound(XmlRpc().value, u);
    CutShort(XmlRpcSyntax(), lead, items, "<value>" + u);
  }

  lemma NothingFound(tag: Tag, u: string)
    requires tag == XmlRpc().value
    requires forall k | 0 <= k <= |tag.open + u| :: !Closes(tag.open + u, tag.open, tag.close, k)
    ensures NextChild(tag.open + u, tag) == None
  {
    XmlRpcValueTags(tag);
    FindCloseIsLeast(tag.open + u, tag.open, tag.close);
    assert (tag.open + u)[0..] == tag.open + u;
  }

  lemma CutShort(x: Syntax, lead: string, items: seq<Item>, more: string)
    requires x == XmlRpcSyntax() && Neutral(lead, x.e.value) && LegalItems(x, items)
    requires NextChild(more, x.e.value) == None
    ensures Parse(x.e, x.e.list.open + (lead + (ItemsText(x, items) + more))) == Ok(List(Meanings(items)))
  {
    ArrayThen(x, lead, items, more);
    PrependTwice(Meanings(items), [], Ok([]));
  }

  lemma ArrayThen(x: Syntax, lead: string, items: seq<Item>, more: string)
    requires x == XmlRpcSyntax() && Neutral(lead, x.e.value) && LegalItems(x, items)
    ensures Parse(x.e, x.e.list.open + (lead + (ItemsText(x, items) + more))) ==
      AsList(Prepend(Meanings(items), ParseItems(x.e, more)))
  {
    var rest := lead + (ItemsText(x, items) + more);
    XmlRpcIsLexical();
    KindOfElement(x, rest);
    NeutralConcat(x.e.list.open, lead, x.e.value);
    Assoc(x.e.list.open, lead, ItemsText(x, items) + more);
    ParseItemsThen(x, x.e.list.open + lead, items, more, x.e.list.open + rest);
  }

  // A child that is no number makes the whole array an error, whatever follows.
  lemma BadNumberSpoilsArray(lead: string, items: seq<Item>, t: string, more: string)
    requires Neutral(lead, XmlRpc().value) && LegalItems(XmlRpcSyntax(), items)
    requires '<' !in t && ParseInt(t).None?
    ensures var x := XmlRpcSyntax();
            var child := Element(x.e.value, Element(x.e.i4, t));
            Parse(XmlRpc(), "<array>" + (lead + (ItemsText(x, items) + (child + more)))).Err?
  {
    var x := XmlRpcSyntax();
    ArrayThen(x, lead, items, Element(x.e.value, Element(x.e.i4, t)) + more);
    BadChild(x, x.e.i4, t, more);
  }

  lemma BadChild(x: Syntax, tag: Tag, t: string, more: string)
    requires x == XmlRpcSyntax() && tag == Tag("<i4>", "</i4>") && '<' !in t && ParseInt(t).None?
    ensures ParseItems(x.e, Element(x.e.value, Element(tag, t)) + more).Err?
  {
    var bad := Element(tag, t);
    XmlRpcIsLexical();
    PlainIsNeutral(t, x.e.value);
    ElementIsNeutral(tag, t, x.e.value);
    NeutralIsSkippable(bad, x.e.value);
    AppendNothing(Element(x.e.value, bad) + more);
    NextChildOfElement("", bad, more, x.e.value, Element(x.e.value, bad) + more);
    ElementIsTrimmed(tag, t);
    TrimmedStays(bad);
    NumberElements(tag, t);
    ItemsStep(x.e, Element(x.e.value, bad) + more, bad, more);
  }
}
