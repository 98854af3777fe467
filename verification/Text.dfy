/** The string operations of Go's `strings` and `bytes` packages that the program calls. */
module Text {
  import opened Wrappers

  // Appending the parts of a text one by one appends the text.
  lemma AppendParts(data: string, a: string, b: string, c: string)
    ensures data + a + b + c == data + (a + b + c)
  {
  }

  lemma AppendNothing(s: string)
    ensures "" + s == s && s + "" == s
  {
  }

  lemma Assoc(a: string, b: string, c: string)
    ensures a + b + c == a + (b + c)
  {
  }

  // A part can be cut back out of a concatenation.
  lemma CutMiddle(s: string, a: string, b: string, c: string)
    requires s == a + (b + c)
    ensures s[|a|..|a| + |b|] == b
    ensures s[|a|..] == b + c
    ensures s[|a| + |b|..] == c
  {
  }

  // strings.Index: the least offset at which pat occurs in s, or -1.
  function Index(s: string, pat: string): (r: int)
    ensures -1 <= r
    ensures r >= 0 ==> r + |pat| <= |s|
  {
    if pat <= s then 0
    else if s == "" then -1
    else
      var r := Index(s[1..], pat);
      if r < 0 then -1 else r + 1
  }

  // pat does not occur in s at an offset below k.
  ghost predicate AbsentBelow(s: string, pat: string, k: nat)
    requires k <= |s| + 1
  {
    forall j | 0 <= j < k :: !(pat <= s[j..])
  }

  lemma AbsentCons(s: string, pat: string, k: nat)
    requires s != "" && k <= |s| && !(pat <= s) && AbsentBelow(s[1..], pat, k)
    ensures AbsentBelow(s, pat, k + 1)
  {
    forall j | 0 <= j < k + 1
      ensures !(pat <= s[j..])
    {
      if j > 0 {
        assert s[1..][j - 1..] == s[j..];
      } else {
        assert s[j..] == s;
      }
    }
  }

  // What Index finds is the first occurrence; where it finds nothing there is none.
  ghost predicate IsFirst(s: string, pat: string, r: int) {
    if 0 <= r <= |s| then pat <= s[r..] && AbsentBelow(s, pat, r) else r == -1 && AbsentBelow(s, pat, |s| + 1)
  }

  lemma FirstCons(s: string, pat: string, r: int)
    requires s != "" && !(pat <= s) && IsFirst(s[1..], pat, r)
    ensures IsFirst(s, pat, if r < 0 then -1 else r + 1)
  {
    AbsentCons(s, pat, if r < 0 then |s| else r);
    if r >= 0 {
      assert s[1..][r..] == s[r + 1..];
    }
  }

  lemma {:induction false} IndexIsLeast(s: string, pat: string)
    ensures IsFirst(s, pat, Index(s, pat))
  {
    assert s[0..] == s;
    if !(pat <= s) && s != "" {
      IndexIsLeast(s[1..], pat);
      FirstCons(s, pat, Index(s[1..], pat));
    }
  }

  // The search passes over a front in which pat does not begin.
  lemma {:induction false} IndexSkips(front: string, rest: string, pat: string)
    requires forall i | 0 <= i < |front| :: !(pat <= front[i..] + rest)
    ensures Index(front + rest, pat) == if Index(rest, pat) < 0 then -1 else |front| + Index(rest, pat)
  {
    if front == "" {
      assert front + rest == rest;
    } else {
      var tail := front[1..];
      assert front[0..] == front && (front + rest)[1..] == tail + rest;
      forall i | 0 <= i < |tail|
        ensures !(pat <= tail[i..] + rest)
      {
        assert tail[i..] == front[i + 1..];
      }
      IndexSkips(tail, rest, pat);
    }
  }

  // A text is found only past a front in which its first character does not occur.
  lemma IndexPast(front: string, rest: string, pat: string)
    requires pat != "" && pat[0] !in front
    ensures Index(front + rest, pat) == if Index(rest, pat) < 0 then -1 else |front| + Index(rest, pat)
  {
    forall i | 0 <= i < |front|
      ensures !(pat <= front[i..] + rest)
    {
      assert (front[i..] + rest)[0] == front[i];
    }
    IndexSkips(front, rest, pat);
  }

  function TrimPrefix(s: string, prefix: string): string {
    if prefix <= s then s[|prefix|..] else s
  }

  predicate HasSuffix(s: string, suffix: string) {
    |suffix| <= |s| && s[|s| - |suffix|..] == suffix
  }

  function TrimSuffix(s: string, suffix: string): string {
    if HasSuffix(s, suffix) then s[..|s| - |suffix|] else s
  }

  // unicode.IsSpace
  predicate IsSpace(c: char): (b: bool)
    ensures b <==> WhiteSpace(c)
  {
    || '\t' <= c <= '\r' || c == ' ' || c == '\U{85}' || c == '\U{A0}'
    || c == '\U{1680}' || '\U{2000}' <= c <= '\U{200A}'
    || c == '\U{2028}' || c == '\U{2029}' || c == '\U{202F}' || c == '\U{205F}' || c == '\U{3000}'
  }

  // The code points with the property White_Space (PropList.txt of the Unicode Character Database).
  predicate WhiteSpace(c: char) {
    c as int in {
      9, 10, 11, 12, 13, 0x20, 0x85, 0xA0, 0x1680,
      0x2000, 0x2001, 0x2002, 0x2003, 0x2004, 0x2005, 0x2006, 0x2007, 0x2008, 0x2009, 0x200A,
      0x2028, 0x2029, 0x202F, 0x205F, 0x3000}
  }

  predicate AllSpace(s: string) {
    forall i | 0 <= i < |s| :: WhiteSpace(s[i])
  }

  // No white space at either end.
  predicate Trimmed(s: string) {
    s != "" ==> !WhiteSpace(s[0]) && !WhiteSpace(s[|s| - 1])
  }

  // strings.TrimSpace
  function TrimSpace(s: string): (t: string)
    ensures |t| <= |s|
    ensures Trimmed(t)
  {
    if s == "" then s
    else if IsSpace(s[0]) then TrimSpace(s[1..])
    else if IsSpace(s[|s| - 1]) then TrimSpace(s[..|s| - 1])
    else s
  }

  // Trimming takes off exactly the white space around trimmed contents.
  lemma {:induction false} TrimSpaceStrips(pre: string, t: string, post: string)
    requires AllSpace(pre) && AllSpace(post) && Trimmed(t)
    ensures TrimSpace(pre + t + post) == t
    decreases |pre| + |post|
  {
    var s := pre + t + post;
    if pre != "" {
      assert s[1..] == pre[1..] + t + post;
      TrimSpaceStrips(pre[1..], t, post);
    } else if post != "" {
      assert s[..|s| - 1] == pre + t + post[..|post| - 1];
      TrimSpaceStrips(pre, t, post[..|post| - 1]);
      if t == "" && IsSpace(s[0]) {
        assert s[1..] == pre + t + post[1..];
        TrimSpaceStrips(pre, t, post[1..]);
      }
    } else {
      assert s == t;
    }
  }

  // White space of XML (production 3, S) is white space.
  lemma XmlSpaceIsSpace(s: string)
    requires forall i | 0 <= i < |s| :: s[i] in " \t\r\n"
    ensures AllSpace(s) && TrimSpace(s) == ""
  {
    forall i | 0 <= i < |s|
      ensures WhiteSpace(s[i])
    {
      assert s[i] as int in {9, 10, 13, 0x20};
    }
    AppendNothing(s);
    TrimSpaceStrips(s, "", "");
  }

  // strings.Split with a separator of one character.
  function Split(s: string, sep: char): (parts: seq<string>)
    ensures parts != []
    ensures forall k | 0 <= k < |parts| :: sep !in parts[k]
  {
    if s == "" then [""]
    else
      var rest := Split(s[1..], sep);
      if s[0] == sep then [""] + rest else [[s[0]] + rest[0]] + rest[1..]
  }

  function Join(parts: seq<string>, sep: char): string
    requires parts != []
  {
    if |parts| == 1 then parts[0] else parts[0] + [sep] + Join(parts[1..], sep)
  }

  lemma {:induction false} SplitOfPiece(p: string, sep: char)
    requires sep !in p
    ensures Split(p, sep) == [p]
  {
    if p != "" {
      SplitOfPiece(p[1..], sep);
      assert [p[0]] + p[1..] == p;
    }
  }

  lemma {:induction false} SplitAfterPiece(p: string, sep: char, s: string)
    requires sep !in p
    ensures Split(p + [sep] + s, sep) == [p] + Split(s, sep)
  {
    var t := p + [sep] + s;
    if p == "" {
      assert t[1..] == s;
    } else {
      assert t[1..] == p[1..] + [sep] + s;
      SplitAfterPiece(p[1..], sep, s);
      assert [p[0]] + p[1..] == p;
    }
  }

  // Splitting recovers the pieces of a list.
  lemma {:induction false} SplitOfJoin(parts: seq<string>, sep: char)
    requires parts != [] && forall k | 0 <= k < |parts| :: sep !in parts[k]
    ensures Split(Join(parts, sep), sep) == parts
  {
    if |parts| == 1 {
      SplitOfPiece(parts[0], sep);
    } else {
      SplitAfterPiece(parts[0], sep, Join(parts[1..], sep));
      SplitOfJoin(parts[1..], sep);
      assert [parts[0]] + parts[1..] == parts;
    }
  }

  // strings.SplitN(spec, ":", 2): what stands before the first separator, and what stands after it.
  function Cut(s: string, sep: char): (r: (string, Option<string>))
    ensures sep !in r.0
    ensures s == r.0 + (if r.1.Some? then [sep] + r.1.value else "")
  {
    if s == "" then ("", None)
    else if s[0] == sep then ("", Some(s[1..]))
    else var r := Cut(s[1..], sep); ([s[0]] + r.0, r.1)
  }

  lemma {:induction false} CutAt(p: string, sep: char, s: string)
    requires sep !in p
    ensures Cut(p, sep) == (p, None)
    ensures Cut(p + [sep] + s, sep) == (p, Some(s))
  {
    var t := p + [sep] + s;
    if p == "" {
      assert t[1..] == s;
    } else {
      assert t[1..] == p[1..] + [sep] + s;
      CutAt(p[1..], sep, s);
      assert [p[0]] + p[1..] == p;
    }
  }
}
