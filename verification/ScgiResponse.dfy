/** How scgiSend finds the body in a response. A char is a byte here. */
module ScgiResponse {
  import opened Text

  const CRLF := "\r\n"
  const LF := "\n"

  // The response body: what follows the first blank line, where CRLF CRLF is looked for first.
  method StripHeaders(resp: string) returns (body: string)
    ensures body == Stripped(resp)
  {
    body := StripAt(resp, CRLF + CRLF, LF + LF);
  }

  method StripAt(resp: string, crlf: string, lf: string) returns (body: string)
    ensures body == StrippedAt(resp, crlf, lf)
  {
    var idx := Index(resp, crlf);
    if idx >= 0 {
      return resp[idx + |crlf|..];
    }
    idx := Index(resp, lf);
    if idx >= 0 {
      return resp[idx + |lf|..];
    }
    return resp;
  }

  function Stripped(resp: string): string {
    StrippedAt(resp, CRLF + CRLF, LF + LF)
  }

  // The same for any two texts to look for.
  function StrippedAt(resp: string, crlf: string, lf: string): string {
    var i := Index(resp, crlf);
    if i >= 0 then resp[i + |crlf|..]
    else
      var j := Index(resp, lf);
      if j >= 0 then resp[j + |lf|..] else resp
  }

  // pat occurs nowhere in s.
  ghost predicate Absent(s: string, pat: string) {
    AbsentBelow(s, pat, |s| + 1)
  }

  // pat occurs first at i.
  ghost predicate FirstAt(s: string, pat: string, i: nat) {
    i <= |s| && pat <= s[i..] && AbsentBelow(s, pat, i)
  }

  lemma FirstIsIndex(s: string, pat: string, i: nat)
    ensures FirstAt(s, pat, i) ==> Index(s, pat) == i
    ensures Absent(s, pat) <==> Index(s, pat) < 0
  {
    IndexIsLeast(s, pat);
  }

  // Every response: it is cut after the first CRLF CRLF, where there is none after the first LF LF, and
  // is taken as it is where there is neither.
  lemma StripCases(resp: string, i: nat)
    ensures FirstAt(resp, "\r\n\r\n", i) ==> i + 4 <= |resp| && Stripped(resp) == resp[i + 4..]
    ensures Absent(resp, "\r\n\r\n") && FirstAt(resp, "\n\n", i) ==> i + 2 <= |resp| && Stripped(resp) == resp[i + 2..]
    ensures Absent(resp, "\r\n\r\n") && Absent(resp, "\n\n") ==> Stripped(resp) == resp
  {
    assert CRLF + CRLF == "\r\n\r\n" && LF + LF == "\n\n";
    FirstIsIndex(resp, "\r\n\r\n", i);
    FirstIsIndex(resp, "\n\n", i);
  }

  predicate IsBreak(c: char) { c == '\r' || c == '\n' }

  predicate IsEol(eol: string) {
    eol != "" && forall i | 0 <= i < |eol| :: IsBreak(eol[i])
  }

  predicate IsLine(line: string) {
    line != "" && forall i | 0 <= i < |line| :: !IsBreak(line[i])
  }

  function Lines(lines: seq<string>, eol: string): string {
    if lines == [] then "" else lines[0] + eol + Lines(lines[1..], eol)
  }

  // No blank line begins in a line that another line follows.
  lemma NoBlankInLine(line: string, eol: string, rest: string, j: nat)
    requires IsLine(line) && IsEol(eol) && rest != "" && !IsBreak(rest[0])
    requires j < |line| + |eol|
    ensures !(eol + eol <= (line + eol)[j..] + rest)
  {
    var t, blank := (line + eol)[j..] + rest, eol + eol;
    if j < |line| {
      assert t[0] == line[j];
    } else {
      var k := |line| + |eol| - j;
      assert t[k] == rest[0] && IsBreak(blank[k]);
    }
  }

  lemma BlankPastLine(line: string, eol: string, rest: string)
    requires IsLine(line) && IsEol(eol) && rest != "" && !IsBreak(rest[0])
    requires Index(rest, eol + eol) >= 0
    ensures Index(line + eol + rest, eol + eol) == |line| + |eol| + Index(rest, eol + eol)
  {
    forall j | 0 <= j < |line + eol|
      ensures !(eol + eol <= (line + eol)[j..] + rest)
    {
      NoBlankInLine(line, eol, rest, j);
    }
    IndexSkips(line + eol, rest, eol + eol);
  }

  lemma BlankAfterLine(line: string, eol: string, body: string)
    requires IsLine(line) && IsEol(eol)
    ensures Index(line + (eol + eol + body), eol + eol) == |line|
  {
    var rest := eol + eol + body;
    assert IsBreak(eol[0]) && (eol + eol)[0] == eol[0];
    IndexPast(line, rest, eol + eol);
  }

  lemma LineParts(line: string, eol: string, tail: string, body: string)
    ensures line + eol + tail + eol + body == line + eol + (tail + eol + body)
    ensures line + eol + eol + body == line + (eol + eol + body)
  {
  }

  // The first blank line is the one that ends the header block.
  lemma {:induction false} FirstBlankLine(lines: seq<string>, eol: string, body: string)
    requires IsEol(eol) && lines != [] && forall l | l in lines :: IsLine(l)
    ensures |Lines(lines, eol)| >= |eol|
    ensures Index(Lines(lines, eol) + eol + body, eol + eol) == |Lines(lines, eol)| - |eol|
  {
    var line, tail := lines[0], Lines(lines[1..], eol);
    assert line in lines;
    LineParts(line, eol, tail, body);
    if |lines| == 1 {
      assert Lines(lines, eol) == line + eol;
      BlankAfterLine(line, eol, body);
    } else {
      assert lines[1..][0] == lines[1] && lines[1] in lines;
      assert tail[0] == lines[1][0];
      FirstBlankLine(lines[1..], eol, body);
      BlankPastLine(line, eol, tail + eol + body);
    }
  }

  // A CRLF response: exactly the body is returned, even if it holds further blank lines.
  lemma StripCrlf(lines: seq<string>, body: string)
    requires lines != [] && forall l | l in lines :: IsLine(l)
    ensures Stripped(Lines(lines, "\r\n") + "\r\n" + body) == body
  {
    FirstBlankLine(lines, CRLF, body);
    var head := Lines(lines, CRLF) + CRLF;
    assert (head + body)[|head|..] == body;
  }

  lemma {:induction false} LinesHaveNoCr(lines: seq<string>, eol: string)
    requires '\r' !in eol && forall l | l in lines :: IsLine(l)
    ensures '\r' !in Lines(lines, eol)
  {
    if lines != [] {
      LinesHaveNoCr(lines[1..], eol);
      assert lines[0] in lines;
      assert forall i | 0 <= i < |lines[0]| :: !IsBreak(lines[0][i]);
    }
  }

  lemma DropHead(head: string, body: string)
    ensures (head + body)[|head|..] == body
  {
  }

  lemma CutAtLf(s: string, crlf: string, lf: string, n: nat)
    requires Index(s, crlf) < 0 && |lf| <= n <= |s| && Index(s, lf) == n - |lf|
    ensures StrippedAt(s, crlf, lf) == s[n..]
  {
  }

  lemma CutTooFar(s: string, crlf: string, lf: string, n: nat)
    requires n <= Index(s, crlf) && crlf != ""
    ensures |StrippedAt(s, crlf, lf)| < |s| - n
  {
  }

  lemma StripPastHead(head: string, body: string, crlf: string, lf: string)
    requires crlf != "" && crlf[0] !in head && |lf| <= |head|
    requires Index(head + body, lf) == |head| - |lf|
    ensures StrippedAt(head + body, crlf, lf) == body <==> Index(body, crlf) < 0
  {
    IndexPast(head, body, crlf);
    if Index(body, crlf) < 0 {
      CutAtLf(head + body, crlf, lf, |head|);
      DropHead(head, body);
    } else {
      CutTooFar(head + body, crlf, lf, |head|);
    }
  }

  // An LF response is cut at the right place exactly when its body holds no CRLF CRLF: that is
  // looked for in the whole response first.
  lemma StripLf(lines: seq<string>, body: string)
    requires lines != [] && forall l | l in lines :: IsLine(l)
    ensures Stripped(Lines(lines, "\n") + "\n" + body) == body <==> Absent(body, "\r\n\r\n")
  {
    var head := Lines(lines, LF) + LF;
    LinesHaveNoCr(lines, LF);
    FirstBlankLine(lines, LF, body);
    StripPastHead(head, body, CRLF + CRLF, LF + LF);
    assert CRLF + CRLF == "\r\n\r\n";
    FirstIsIndex(body, "\r\n\r\n", 0);
  }

  // A body for which it goes wrong.
  lemma StripLfFails(line: string, before: string, after: string)
    requires IsLine(line) && '\r' !in before
    ensures Stripped(Lines([line], "\n") + "\n" + (before + ("\r\n\r\n" + after))) == after
    ensures after != before + ("\r\n\r\n" + after)
  {
    var head, body := Lines([line], LF) + LF, before + (CRLF + CRLF + after);
    assert CRLF + CRLF == "\r\n\r\n";
    LinesHaveNoCr([line], LF);
    CutAtMark(head, before, CRLF + CRLF, after);
  }

  lemma CutAtMark(head: string, before: string, mark: string, after: string)
    requires mark != "" && mark[0] !in head && mark[0] !in before
    ensures Index(head + (before + (mark + after)), mark) == |head| + |before|
    ensures (head + (before + (mark + after)))[|head| + |before| + |mark|..] == after
  {
    IndexPast(head, before + (mark + after), mark);
    IndexPast(before, mark + after, mark);
  }
}
