/** A reader of SCGI requests, written after the SCGI and netstring specifications. */
module ScgiReader {
  import opened Wrappers
  import opened Decimal
  import opened Text
  import opened Scgi

  // What the SCGI specification demands of the headers: the name of the first one, and a further one.
  datatype Demands = Demands(length: string, marker: (string, string))

  const SPECIFIED := Demands("CONTENT_LENGTH", ("SCGI", "1"))

  function ReadNetstring(s: string): Option<(string, string)> {
    var k := DigitPrefix(s);
    if !Canonical(s[..k]) then None else CutNetstring(Number(s[..k]), s[k..])
  }

  // What follows the length: a colon, so many bytes, a comma.
  function CutNetstring(n: nat, s: string): Option<(string, string)> {
    if |s| < n + 2 || s[0] != ':' || s[n + 1] != ',' then None else Some((s[1..n + 1], s[n + 2..]))
  }

  // The byte 00 ends a field.
  const ZERO := 0 as char

  // A field up to its end, and what follows.
  function ReadField(block: string): (r: Option<(string, string)>)
    ensures r.Some? ==> |r.value.1| < |block|
  {
    var i := Index(block, [ZERO]);
    if i < 0 then None else Some((block[..i], block[i + 1..]))
  }

  function ReadHeaders(block: string): Option<seq<(string, string)>>
    decreases |block|
  {
    if block == "" then Some([])
    else
      match ReadField(block)
      case None => None
      case Some((name, afterName)) =>
        match ReadField(afterName)
        case None => None
        case Some((value, rest)) =>
          match ReadHeaders(rest)
          case None => None
          case Some(headers) => Some([(name, value)] + headers)
  }

  datatype Request = Request(headers: seq<(string, string)>, body: string, rest: string)

  function ReadRequest(d: Demands, s: string): Option<Request> {
    match ReadNetstring(s)
    case None => None
    case Some((block, after)) =>
      match ReadHeaders(block)
      case None => None
      case Some(headers) => CutBody(d, headers, after)
  }

  predicate NamesDiffer(headers: seq<(string, string)>) {
    forall i, j | 0 <= i < j < |headers| :: headers[i].0 != headers[j].0
  }

  // The length comes first, in digits; no name occurs twice; the marker is there.
  predicate Meets(d: Demands, headers: seq<(string, string)>) {
    && headers != [] && headers[0].0 == d.length && headers[0].1 != "" && AllDigits(headers[0].1)
    && NamesDiffer(headers) && d.marker in headers
  }

  function CutBody(d: Demands, headers: seq<(string, string)>, after: string): Option<Request> {
    if !Meets(d, headers) then None
    else
      var n := Number(headers[0].1);
      if n <= |after| then Some(Request(headers, after[..n], after[n..])) else None
  }

  // Reading what was written.

  lemma NetstringParts(digits: string, s: string, rest: string)
    ensures (digits + ([':'] + (s + [',']))) + rest == digits + ([':'] + (s + ([','] + rest)))
  {
  }

  lemma CutNetstringOf(s: string, rest: string)
    ensures CutNetstring(|s|, [':'] + (s + ([','] + rest))) == Some((s, rest))
  {
    var t := [':'] + (s + ([','] + rest));
    assert t[1..|s| + 1] == s && t[|s| + 2..] == rest;
  }

  lemma ReadNetstringOf(s: string, rest: string)
    ensures ReadNetstring(Netstring(s) + rest) == Some((s, rest))
  {
    var digits, tail := Itoa(|s|), [':'] + (s + ([','] + rest));
    NetstringParts(digits, s, rest);
    assert tail[0] == ':';
    ReadLength(digits, tail, |s|);
    CutNetstringOf(s, rest);
  }

  lemma ReadLength(digits: string, tail: string, n: nat)
    requires digits == Digits(n) && tail != "" && !IsDigit(tail[0])
    ensures ReadNetstring(digits + tail) == CutNetstring(n, tail)
  {
    DigitPrefixEnds(digits, tail);
    NumberOfDigits(n);
    assert (digits + tail)[..|digits|] == digits && (digits + tail)[|digits|..] == tail;
  }

  lemma ReadFieldOf(field: string, rest: string)
    requires NUL !in field
    ensures ReadField(field + ([NUL] + rest)) == Some((field, rest))
  {
    var s := field + ([NUL] + rest);
    IndexPast(field, [NUL] + rest, [NUL]);
    assert s[..|field|] == field && s[|field| + 1..] == rest;
  }

  lemma HeaderParts(name: string, value: string, rest: string)
    ensures HeaderText(name, value) + rest == name + ([NUL] + (value + ([NUL] + rest)))
  {
  }

  lemma ReadHeader(h: (string, string), rest: string, more: seq<(string, string)>, block: string)
    requires NUL !in h.0 && NUL !in h.1 && ReadHeaders(rest) == Some(more)
    requires block == h.0 + ([NUL] + (h.1 + ([NUL] + rest)))
    ensures ReadHeaders(block) == Some([h] + more)
  {
    var afterName := h.1 + ([NUL] + rest);
    ReadFieldOf(h.0, afterName);
    ReadFieldOf(h.1, rest);
  }

  lemma FirstOf(headers: seq<(string, string)>)
    requires headers != []
    ensures [headers[0]] + headers[1..] == headers
  {
  }

  lemma {:induction false} ReadHeadersOf(headers: seq<(string, string)>)
    requires forall h | h in headers :: NUL !in h.0 && NUL !in h.1
    ensures ReadHeaders(HeaderBlock(headers)) == Some(headers)
  {
    if headers != [] {
      var h, rest := headers[0], HeaderBlock(headers[1..]);
      ReadHeadersOf(headers[1..]);
      HeaderParts(h.0, h.1, rest);
      ReadHeader(h, rest, headers[1..], HeaderText(h.0, h.1) + rest);
      FirstOf(headers);
    }
  }

  // The driver's headers are the ones that the specification demands.
  lemma WriterMeetsDemands()
    ensures SCGI == Protocol(SPECIFIED.length, SPECIFIED.marker) && NUL == ZERO
    ensures NUL !in SCGI.lengthName && NUL !in SCGI.marker.0 && NUL !in SCGI.marker.1
    ensures SPECIFIED.length != SPECIFIED.marker.0
  {
  }

  lemma HeadersMeet(d: Demands, p: Protocol, body: string)
    requires p == Protocol(d.length, d.marker) && d.length != d.marker.0
    ensures Meets(d, RequestHeaders(p, body))
  {
    assert RequestHeaders(p, body)[1] == d.marker;
  }

  lemma CutBodyOf(d: Demands, headers: seq<(string, string)>, body: string, rest: string)
    requires Meets(d, headers) && headers[0].1 == Digits(|body|)
    ensures CutBody(d, headers, body + rest) == Some(Request(headers, body, rest))
  {
    NumberOfDigits(|body|);
    assert (body + rest)[..|body|] == body && (body + rest)[|body|..] == rest;
  }

  lemma ReadRequestParts(d: Demands, block: string, headers: seq<(string, string)>, after: string, s: string)
    requires ReadNetstring(s) == Some((block, after)) && ReadHeaders(block) == Some(headers)
    ensures ReadRequest(d, s) == CutBody(d, headers, after)
  {
  }

  // The specification's reader recovers the two headers, CONTENT_LENGTH first with the body's length,
  // and the exact body, whatever bytes follow the request.
  lemma ReadRequestOf(body: string, rest: string)
    ensures ReadRequest(SPECIFIED, RequestText(SCGI, body) + rest)
         == Some(Request([(SPECIFIED.length, Itoa(|body|)), SPECIFIED.marker], body, rest))
  {
    WriterMeetsDemands();
    ReadRequestAs(SPECIFIED, SCGI, body, rest);
  }

  lemma ReadRequestAs(d: Demands, p: Protocol, body: string, rest: string)
    requires p == Protocol(d.length, d.marker) && d.length != d.marker.0
    requires NUL !in p.lengthName && NUL !in p.marker.0 && NUL !in p.marker.1
    ensures ReadRequest(d, RequestText(p, body) + rest) == Some(Request(RequestHeaders(p, body), body, rest))
  {
    var headers := RequestHeaders(p, body);
    HeadersMeet(d, p, body);
    ReadHeadersOf(headers);
    CutBodyOf(d, headers, body, rest);
    ReadFramed(d, HeaderBlock(headers), headers, body, rest);
  }

  lemma ReadFramed(d: Demands, block: string, headers: seq<(string, string)>, body: string, rest: string)
    requires ReadHeaders(block) == Some(headers)
    ensures ReadRequest(d, Netstring(block) + body + rest) == CutBody(d, headers, body + rest)
  {
    Assoc(Netstring(block), body, rest);
    ReadNetstringOf(block, body + rest);
    ReadRequestParts(d, block, headers, body + rest, Netstring(block) + body + rest);
  }
}
