/**
 indexMatchingClose: the scan for the closing tag that matches the opening tag at the front of a
 string, and the declarative description it meets.
 */
module TagMatcher {

  function OpenTag(tag: string): string { "<" + tag + ">" }

  function CloseTag(tag: string): string { "</" + tag + ">" }

  // An offset into a suffix, seen from k characters earlier; -1 stays -1.
  function Shift(k: nat, r: int): int {
    if r < 0 then -1 else k + r
  }

  // The scan of s when depth elements are open.
  function Scan(s: string, open: string, close: string, depth: int): (r: int)
    requires open != "" && close != ""
    ensures -1 <= r <= |s|
    decreases |s|
  {
    if s == "" then -1
    else if open <= s then Shift(|open|, Scan(s[|open|..], open, close, depth + 1))
    else if close <= s then
      (if depth - 1 == 0 then 0 else Shift(|close|, Scan(s[|close|..], open, close, depth - 1)))
    else Shift(1, Scan(s[1..], open, close, depth))
  }

  // The function IndexMatchingClose computes.
  function FindClose(s: string, open: string, close: string): (r: int)
    requires open != "" && close != ""
    ensures r >= 0 ==> |open| <= r && r + |close| <= |s|
  {
    if open <= s then
      ScanLeavesRoom(s[|open|..], open, close, 1);
      Shift(|open|, Scan(s[|open|..], open, close, 1))
    else -1
  }

  lemma {:induction false} ScanLeavesRoom(s: string, open: string, close: string, depth: int)
    requires open != "" && close != ""
    ensures Scan(s, open, close, depth) >= 0 ==> Scan(s, open, close, depth) + |close| <= |s|
    decreases |s|
  {
    if s == "" {
    } else if open <= s {
      ScanLeavesRoom(s[|open|..], open, close, depth + 1);
    } else if close <= s {
      if depth - 1 != 0 {
        ScanLeavesRoom(s[|close|..], open, close, depth - 1);
      }
    } else {
      ScanLeavesRoom(s[1..], open, close, depth);
    }
  }

  // How often pat occurs in s at an offset below k, overlapping occurrences included.
  function Count(s: string, pat: string, k: nat): nat
    requires k <= |s|
  {
    if k == 0 then 0 else Count(s, pat, k - 1) + if pat <= s[k - 1..] then 1 else 0
  }

  // Opening minus closing tags that start before k.
  function Balance(s: string, open: string, close: string, k: nat): int
    requires k <= |s|
  {
    Count(s, open, k) - Count(s, close, k)
  }

  // A closing tag starts at k, and exactly one element is open there.
  predicate Closes(s: string, open: string, close: string, k: nat)
    requires k <= |s|
  {
    close <= s[k..] && Balance(s, open, close, k) == 1
  }

  ghost predicate NoneBefore(s: string, open: string, close: string, i: nat)
    requires i <= |s|
  {
    forall k | 0 <= k < i :: !Closes(s, open, close, k)
  }

  // What the matcher owes its caller: r is the least such offset, or is negative and there is none.
  ghost predicate IsLeastClose(s: string, open: string, close: string, r: int) {
    if r < 0 then
      forall k | 0 <= k <= |s| :: !Closes(s, open, close, k)
    else
      r <= |s| && Closes(s, open, close, r) && NoneBefore(s, open, close, r)
  }

  // Neither tag can begin inside the other or inside itself.
  ghost predicate TagPair(open: string, close: string) {
    && open != "" && close != "" && open[0] == '<' && close[0] == '<'
    && !(open <= close) && !(close <= open)
    && (forall i | 0 < i < |open| :: open[i] != '<')
    && (forall i | 0 < i < |close| :: close[i] != '<')
  }

  lemma TagsArePair(tag: string)
    requires '<' !in tag
    ensures TagPair(OpenTag(tag), CloseTag(tag))
  {
    var open, close := OpenTag(tag), CloseTag(tag);
    assert close[|tag| + 1] == if tag == "" then '/' else tag[|tag| - 1];
    if open <= close {
      SlashesOnly(close, |tag|, tag);
    }
  }

  // If "<x>" were a prefix of "</x>", every character of x would be a slash.
  lemma {:induction false} SlashesOnly(s: string, n: nat, tag: string)
    requires n <= |tag| && s == CloseTag(tag) && OpenTag(tag)[..n + 1] <= s
    ensures s[n + 1] == '/'
  {
    if n > 0 {
      SlashesOnly(s, n - 1, tag);
      assert OpenTag(tag)[..n + 1][n] == s[n];
    }
  }

  lemma {:induction false} CountSame(s: string, pat: string, a: nat, b: nat)
    requires a <= b <= |s|
    requires forall j | a <= j < b :: !(pat <= s[j..])
    ensures Count(s, pat, b) == Count(s, pat, a)
  {
    if a < b {
      CountSame(s, pat, a, b - 1);
    }
  }

  // No tag begins inside an occurrence of a tag.
  lemma NoTagInside(s: string, open: string, close: string, i: nat, piece: string)
    requires TagPair(open, close) && (piece == open || piece == close)
    requires i <= |s| && piece <= s[i..]
    ensures i + |piece| <= |s|
    ensures forall j | i < j < i + |piece| :: !(open <= s[j..]) && !(close <= s[j..])
  {
    forall j | i < j < i + |piece|
      ensures !(open <= s[j..]) && !(close <= s[j..])
    {
      assert s[j..][0] == s[i..][j - i] == piece[j - i];
    }
  }

  // What one tag does to the balance, and that no closing tag is passed over.
  lemma Jump(s: string, open: string, close: string, i: nat, piece: string)
    requires TagPair(open, close) && (piece == open || piece == close)
    requires i <= |s| && piece <= s[i..]
    requires NoneBefore(s, open, close, i) && !Closes(s, open, close, i)
    ensures i + |piece| <= |s| && NoneBefore(s, open, close, i + |piece|)
    ensures Balance(s, open, close, i + |piece|) == Balance(s, open, close, i) + if piece == open then 1 else -1
  {
    NoTagInside(s, open, close, i, piece);
    CountSame(s, open, i + 1, i + |piece|);
    CountSame(s, close, i + 1, i + |piece|);
    assert !(open <= s[i..] && close <= s[i..]);
  }

  // One step of the scan, read off at an offset of the whole string.
  lemma ScanStep(s: string, open: string, close: string, i: nat, depth: int)
    requires open != "" && close != "" && i < |s|
    ensures var r := Scan(s[i..], open, close, depth);
            if open <= s[i..] then
              Shift(i, r) == Shift(i + |open|, Scan(s[i + |open|..], open, close, depth + 1))
            else if close <= s[i..] then
              Shift(i, r) ==
                if depth == 1 then i else Shift(i + |close|, Scan(s[i + |close|..], open, close, depth - 1))
            else
              Shift(i, r) == Shift(i + 1, Scan(s[i + 1..], open, close, depth))
  {
    var t := s[i..];
    assert open <= t ==> t[|open|..] == s[i + |open|..];
    assert close <= t ==> t[|close|..] == s[i + |close|..];
    assert t[1..] == s[i + 1..];
  }

  // The same scan with the offset kept, as the loop keeps it.
  function ScanFrom(s: string, open: string, close: string, i: nat, depth: int): int
    requires open != "" && close != "" && i <= |s|
    decreases |s| - i
  {
    if i == |s| then -1
    else if open <= s[i..] then ScanFrom(s, open, close, i + |open|, depth + 1)
    else if close <= s[i..] then
      (if depth - 1 == 0 then i else ScanFrom(s, open, close, i + |close|, depth - 1))
    else ScanFrom(s, open, close, i + 1, depth)
  }

  lemma {:induction false} ScanOffsets(s: string, open: string, close: string, i: nat, depth: int)
    requires open != "" && close != "" && i <= |s|
    ensures ScanFrom(s, open, close, i, depth) == Shift(i, Scan(s[i..], open, close, depth))
    decreases |s| - i
  {
    if i < |s| {
      ScanStep(s, open, close, i, depth);
      if open <= s[i..] {
        ScanOffsets(s, open, close, i + |open|, depth + 1);
      } else if close <= s[i..] {
        if depth != 1 {
          ScanOffsets(s, open, close, i + |close|, depth - 1);
        }
      } else {
        ScanOffsets(s, open, close, i + 1, depth);
      }
    }
  }

  // Where no tag begins nothing changes.
  lemma Pass(s: string, open: string, close: string, i: nat)
    requires i < |s| && !(open <= s[i..]) && !(close <= s[i..]) && NoneBefore(s, open, close, i)
    ensures NoneBefore(s, open, close, i + 1) && Balance(s, open, close, i + 1) == Balance(s, open, close, i)
  {
  }

  // The jumping scan finds what counting every occurrence finds.
  lemma {:induction false} ScanMeetsSpec(s: string, open: string, close: string, i: nat, depth: int, r: int)
    requires TagPair(open, close) && i <= |s| && NoneBefore(s, open, close, i)
    requires depth >= 1 && depth == Balance(s, open, close, i)
    requires r == ScanFrom(s, open, close, i, depth)
    ensures IsLeastClose(s, open, close, r)
    decreases |s| - i
  {
    if i == |s| {
      assert !Closes(s, open, close, i);
    } else if open <= s[i..] {
      Jump(s, open, close, i, open);
      ScanMeetsSpec(s, open, close, i + |open|, depth + 1, r);
    } else if close <= s[i..] {
      if depth != 1 {
        Jump(s, open, close, i, close);
        ScanMeetsSpec(s, open, close, i + |close|, depth - 1, r);
      }
    } else {
      Pass(s, open, close, i);
      ScanMeetsSpec(s, open, close, i + 1, depth, r);
    }
  }

  lemma FindCloseIsLeast(s: string, open: string, close: string)
    requires TagPair(open, close)
    ensures if open <= s then IsLeastClose(s, open, close, FindClose(s, open, close))
            else FindClose(s, open, close) == -1
  {
    if open <= s {
      assert s[0..] == s;
      assert !Closes(s, open, close, 0);
      Jump(s, open, close, 0, open);
      ScanMeetsSpec(s, open, close, |open|, 1, ScanFrom(s, open, close, |open|, 1));
      ScanOffsets(s, open, close, |open|, 1);
    }
  }

  // The result is the least offset of a closing tag at which one element is open, counting every
  // occurrence; it is negative exactly when the string does not begin with the opening tag or has
  // no such offset. Tags do not overlap, provided the name holds no '<'.
  method IndexMatchingClose(s: string, tag: string) returns (offset: int)
    ensures offset == FindClose(s, OpenTag(tag), CloseTag(tag))
    ensures '<' !in tag ==>
              if "<" + tag + ">" <= s then IsLeastClose(s, "<" + tag + ">", "</" + tag + ">", offset) else offset == -1
  {
    var open, close := OpenTag(tag), CloseTag(tag);
    if '<' !in tag {
      TagsArePair(tag);
      FindCloseIsLeast(s, open, close);
    }
    offset := ScanLoop(s, open, close);
  }

  method ScanLoop(s: string, open: string, close: string) returns (offset: int)
    requires open != "" && close != ""
    ensures offset == FindClose(s, open, close)
  {
    if !(open <= s) {
      return -1;
    }
    var depth, i := 1, |open|;
    ScanOffsets(s, open, close, i, depth);
    while i < |s|
      invariant |open| <= i <= |s|
      invariant FindClose(s, open, close) == ScanFrom(s, open, close, i, depth)
    {
      if open <= s[i..] {
        depth := depth + 1;
        i := i + |open|;
      } else if close <= s[i..] {
        depth := depth - 1;
        if depth == 0 {
          return i;
        }
        i := i + |close|;
      } else {
        i := i + 1;
      }
    }
    return -1;
  }
}
