/** How the raw substring searches of the parser see text that is built from elements. */
module XmlRpcScan {
  import opened Text
  import opened TagMatcher
  import opened XmlRpcParser

  // No tag is a prefix of s, nor s of a tag: whatever follows s, no tag begins at its front.
  ghost predicate Clear(s: string, tag: Tag) {
    && !(tag.open <= s) && !(s <= tag.open)
    && !(tag.close <= s) && !(s <= tag.close)
  }

  // No tag begins anywhere in t, whatever follows t.
  ghost predicate Neutral(t: string, tag: Tag) {
    forall i | 0 <= i < |t| :: Clear(t[i..], tag)
  }

  lemma ClearExtends(s: string, u: string, tag: Tag)
    requires Clear(s, tag)
    ensures !(tag.open <= s + u) && !(tag.close <= s + u)
  {
    PrefixesCompare(tag.open, s, u);
    PrefixesCompare(tag.close, s, u);
  }

  lemma PrefixesCompare(p: string, s: string, u: string)
    ensures p <= s + u ==> p <= s || s <= p
    ensures s + u <= p ==> s <= p
  {
    assert (s + u)[..|s|] == s;
    if p <= s + u {
      assert forall i | 0 <= i < |p| && i < |s| :: p[i] == (s + u)[i] == s[i];
    } else if s + u <= p {
      assert forall i | 0 <= i < |s| :: p[i] == (s + u)[i] == s[i];
    }
  }

  lemma NeutralConcat(a: string, b: string, tag: Tag)
    requires Neutral(a, tag) && Neutral(b, tag)
    ensures Neutral(a + b, tag)
  {
    forall i | 0 <= i < |a + b|
      ensures Clear((a + b)[i..], tag)
    {
      if i < |a| {
        assert (a + b)[i..] == a[i..] + b;
        ClearConcat(a[i..], b, tag);
      } else {
        assert (a + b)[i..] == b[i - |a|..];
      }
    }
  }

  lemma ClearConcat(s: string, u: string, tag: Tag)
    requires Clear(s, tag)
    ensures Clear(s + u, tag)
  {
    PrefixesCompare(tag.open, s, u);
    PrefixesCompare(tag.close, s, u);
  }

  // Text without '<' is neutral.
  lemma PlainIsNeutral(t: string, tag: Tag)
    requires TagPair(tag.open, tag.close)
    requires '<' !in t
    ensures Neutral(t, tag)
  {
    forall i | 0 <= i < |t|
      ensures Clear(t[i..], tag)
    {
      assert t[i..][0] == t[i];
    }
  }

  // The scan passes over t, whatever follows and however deep it is.
  ghost predicate Skippable(t: string, tag: Tag) {
    forall u: string, depth: int {:trigger Scan(t + u, tag.open, tag.close, depth)} | depth >= 1 ::
      Scan(t + u, tag.open, tag.close, depth) == Shift(|t|, Scan(u, tag.open, tag.close, depth))
  }

  lemma {:induction false} NeutralSkip(t: string, u: string, tag: Tag, depth: int)
    requires Neutral(t, tag) && depth >= 1
    ensures Scan(t + u, tag.open, tag.close, depth) == Shift(|t|, Scan(u, tag.open, tag.close, depth))
  {
    if t == "" {
      assert t + u == u;
    } else {
      assert t[0..] == t;
      ClearExtends(t, u, tag);
      assert (t + u)[1..] == t[1..] + u;
      assert forall i | 0 <= i < |t[1..]| :: t[1..][i..] == t[i + 1..];
      NeutralSkip(t[1..], u, tag, depth);
    }
  }

  lemma NeutralIsSkippable(t: string, tag: Tag)
    requires Neutral(t, tag)
    ensures Skippable(t, tag)
  {
    forall u: string, depth: int | depth >= 1
      ensures Scan(t + u, tag.open, tag.close, depth) == Shift(|t|, Scan(u, tag.open, tag.close, depth))
    {
      NeutralSkip(t, u, tag, depth);
    }
  }

  lemma SkippableConcat(a: string, b: string, tag: Tag)
    requires Skippable(a, tag) && Skippable(b, tag)
    ensures Skippable(a + b, tag)
  {
    forall u: string, depth: int | depth >= 1
      ensures Scan((a + b) + u, tag.open, tag.close, depth) == Shift(|a + b|, Scan(u, tag.open, tag.close, depth))
    {
      assert (a + b) + u == a + (b + u);
      assert Scan(a + (b + u), tag.open, tag.close, depth) == Shift(|a|, Scan(b + u, tag.open, tag.close, depth));
    }
  }

  lemma ScanAfterOpen(t: string, tag: Tag, depth: int)
    ensures Scan(tag.open + t, tag.open, tag.close, depth)
         == Shift(|tag.open|, Scan(t, tag.open, tag.close, depth + 1))
  {
    assert (tag.open + t)[|tag.open|..] == t;
  }

  lemma ScanAfterClose(t: string, tag: Tag, depth: int)
    requires TagPair(tag.open, tag.close)
    ensures Scan(tag.close + t, tag.open, tag.close, depth)
         == if depth == 1 then 0 else Shift(|tag.close|, Scan(t, tag.open, tag.close, depth - 1))
  {
    assert (tag.close + t)[|tag.close|..] == t;
    PrefixesCompare(tag.open, tag.close, t);
  }

  lemma ElementSkip(t: string, u: string, tag: Tag, depth: int)
    requires TagPair(tag.open, tag.close) && Skippable(t, tag) && depth >= 1
    ensures Scan(tag.open + (t + (tag.close + u)), tag.open, tag.close, depth)
         == Shift(|tag.open| + |t| + |tag.close|, Scan(u, tag.open, tag.close, depth))
  {
    var closing := tag.close + u;
    ScanAfterOpen(t + closing, tag, depth);
    ScanAfterClose(u, tag, depth + 1);
    assert Scan(t + closing, tag.open, tag.close, depth + 1)
        == Shift(|t|, Scan(closing, tag.open, tag.close, depth + 1));
  }

  // A complete element can be passed over if its contents can.
  lemma ElementIsSkippable(t: string, tag: Tag)
    requires TagPair(tag.open, tag.close) && Skippable(t, tag)
    ensures Skippable(tag.open + t + tag.close, tag)
  {
    var element := tag.open + t + tag.close;
    forall u: string, depth: int | depth >= 1
      ensures Scan(element + u, tag.open, tag.close, depth) == Shift(|element|, Scan(u, tag.open, tag.close, depth))
    {
      ElementParts(t, u, tag);
      ElementSkip(t, u, tag, depth);
    }
  }

  lemma ElementParts(t: string, u: string, tag: Tag)
    ensures tag.open + t + tag.close + u == tag.open + (t + (tag.close + u))
  {
  }

  // The matcher finds the end of an element.
  lemma FindCloseOfElement(t: string, u: string, tag: Tag, e: string)
    requires TagPair(tag.open, tag.close) && Skippable(t, tag) && e == tag.open + (t + (tag.close + u))
    ensures FindClose(e, tag.open, tag.close) == |tag.open| + |t|
  {
    var closing := tag.close + u;
    assert e[|tag.open|..] == t + closing;
    ScanAfterClose(u, tag, 1);
    assert Scan(t + closing, tag.open, tag.close, 1) == Shift(|t|, Scan(closing, tag.open, tag.close, 1));
  }

  // The search skips neutral text and stops at the next element.
  lemma IndexAfterNeutral(lead: string, u: string, tag: Tag)
    requires Neutral(lead, tag) && tag.open <= u
    ensures Index(lead + u, tag.open) == |lead|
  {
    forall i | 0 <= i < |lead|
      ensures !(tag.open <= lead[i..] + u)
    {
      ClearExtends(lead[i..], u, tag);
    }
    IndexSkips(lead, u, tag.open);
  }

  lemma IndexInNeutral(t: string, tag: Tag)
    requires Neutral(t, tag)
    ensures Index(t, tag.open) == -1
  {
    forall i | 0 <= i < |t|
      ensures !(tag.open <= t[i..] + "")
    {
      ClearExtends(t[i..], "", tag);
    }
    IndexSkips(t, "", tag.open);
    assert t + "" == t;
  }

  // The search for a child is not affected by neutral text in front.
  lemma NextChildSkips(lead: string, rest: string, tag: Tag)
    requires Neutral(lead, tag)
    ensures NextChild(lead + rest, tag) == NextChild(rest, tag)
  {
    forall i | 0 <= i < |lead|
      ensures !(tag.open <= lead[i..] + rest)
    {
      ClearExtends(lead[i..], rest, tag);
    }
    IndexSkips(lead, rest, tag.open);
    var start := Index(rest, tag.open);
    if start >= 0 {
      assert (lead + rest)[|lead| + start..] == rest[start..];
      CutSkips(lead, rest, tag, start, FindClose(rest[start..], tag.open, tag.close));
    }
  }

  lemma CutSkips(lead: string, rest: string, tag: Tag, start: nat, end: int)
    requires start <= |rest| && (end >= 0 ==> |tag.open| <= end && start + end + |tag.close| <= |rest|)
    ensures CutChild(lead + rest, tag, |lead| + start, end) == CutChild(rest, tag, start, end)
  {
    if end >= 0 {
      var from, to := start + |tag.open|, start + end;
      assert (lead + rest)[|lead| + from..|lead| + to] == rest[from..to];
      assert (lead + rest)[|lead| + to + |tag.close|..] == rest[to + |tag.close|..];
    }
  }

  // One iteration of the child loop in front of an element.
  lemma NextChildOfElement(lead: string, t: string, u: string, tag: Tag, s: string)
    requires TagPair(tag.open, tag.close) && Neutral(lead, tag) && Skippable(t, tag)
    requires s == lead + (tag.open + t + tag.close + u)
    ensures NextChild(s, tag).Some? && NextChild(s, tag).value.0 == t && NextChild(s, tag).value.1 == u
  {
    ElementParts(t, u, tag);
    NextChildOfText(lead, tag.open + (t + (tag.close + u)), t, u, tag, s);
  }

  lemma NextChildOfText(lead: string, e: string, t: string, u: string, tag: Tag, s: string)
    requires TagPair(tag.open, tag.close) && Neutral(lead, tag) && Skippable(t, tag)
    requires e == tag.open + (t + (tag.close + u)) && s == lead + e
    ensures NextChild(s, tag).Some? && NextChild(s, tag).value.0 == t && NextChild(s, tag).value.1 == u
  {
    FindCloseOfElement(t, u, tag, e);
    NextChildOf(lead, e, tag, s, |tag.open| + |t|);
    CutElement(lead, t, u, tag, s);
  }

  lemma NextChildOf(lead: string, e: string, tag: Tag, s: string, end: nat)
    requires Neutral(lead, tag) && tag.open <= e && s == lead + e
    requires FindClose(e, tag.open, tag.close) == end
    ensures |tag.open| <= end && |lead| + end + |tag.close| <= |s|
    ensures NextChild(s, tag) == CutChild(s, tag, |lead|, end)
  {
    IndexAfterNeutral(lead, e, tag);
    NextChildAt(lead, e, tag, s, end);
  }

  lemma NextChildAt(lead: string, e: string, tag: Tag, s: string, end: nat)
    requires s == lead + e && Index(s, tag.open) == |lead|
    requires FindClose(e, tag.open, tag.close) == end
    ensures |tag.open| <= end && |lead| + end + |tag.close| <= |s|
    ensures NextChild(s, tag) == CutChild(s, tag, |lead|, end)
  {
    assert s[|lead|..] == e;
  }

  lemma CutElement(lead: string, t: string, u: string, tag: Tag, s: string)
    requires s == lead + (tag.open + (t + (tag.close + u)))
    ensures |lead| + (|tag.open| + |t|) + |tag.close| <= |s|
    ensures var r := CutChild(s, tag, |lead|, |tag.open| + |t|);
            r.Some? && r.value.0 == t && r.value.1 == u
  {
    CutContents(lead + tag.open, t, tag.close, u, s);
    Assoc(lead, tag.open, t + (tag.close + u));
  }

  lemma CutContents(front: string, t: string, close: string, u: string, s: string)
    ensures s == front + (t + (close + u)) ==>
      |front| + |t| + |close| <= |s| && s[|front|..|front| + |t|] == t && s[|front| + |t| + |close|..] == u
  {
  }
}
