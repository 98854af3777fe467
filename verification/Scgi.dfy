/** The SCGI request framing of scgiSend. A char is a byte here. */
module Scgi {
  import opened Decimal
  import opened Buffers

  const NUL := '\0'

  // One header as it stands in the header block.
  function HeaderText(name: string, value: string): string {
    (name + [NUL]) + (value + [NUL])
  }

  function HeaderBlock(headers: seq<(string, string)>): string {
    if headers == [] then "" else HeaderText(headers[0].0, headers[0].1) + HeaderBlock(headers[1..])
  }

  // A netstring, as the SCGI specification defines it.
  function Netstring(s: string): string {
    Itoa(|s|) + ([':'] + (s + [',']))
  }

  // The headers the driver writes: the one that comes first, whose value is the body's length, and the
  // one that marks the protocol.
  datatype Protocol = Protocol(lengthName: string, marker: (string, string))

  const SCGI := Protocol("CONTENT_LENGTH", ("SCGI", "1"))

  function RequestHeaders(p: Protocol, body: string): seq<(string, string)> {
    [(p.lengthName, Itoa(|body|)), p.marker]
  }

  function RequestText(p: Protocol, body: string): string {
    Netstring(HeaderBlock(RequestHeaders(p, body))) + body
  }

  // The request, which ScgiReader takes apart.
  method FrameRequest(body: string) returns (request: string)
    ensures request == RequestText(SCGI, body)
  {
    request := Frame(SCGI, body);
  }

  method Frame(p: Protocol, body: string) returns (request: string)
    ensures request == RequestText(p, body)
  {
    var hdr := new Buffer();
    WriteHeader(hdr, p.lengthName, Itoa(|body|));
    WriteHeader(hdr, p.marker.0, p.marker.1);
    TwoHeaders(RequestHeaders(p, body)[0], RequestHeaders(p, body)[1]);

    var req := new Buffer();
    WriteNetstring(req, hdr.data);
    req.WriteString(body);
    request := req.data;
  }

  method WriteNetstring(req: Buffer, s: string)
    requires req.data == ""
    modifies req
    ensures req.data == Netstring(s)
  {
    req.WriteString(Itoa(|s|));
    req.WriteByte(':');
    req.WriteString(s);
    req.WriteByte(',');
  }

  method WriteHeader(hdr: Buffer, name: string, value: string)
    modifies hdr
    ensures hdr.data == old(hdr.data) + HeaderText(name, value)
  {
    hdr.WriteString(name);
    hdr.WriteByte(NUL);
    label written:
    hdr.WriteString(value);
    hdr.WriteByte(NUL);
    assert hdr.data == old@written(hdr.data) + (value + [NUL]);
  }

  lemma TwoHeaders(a: (string, string), b: (string, string))
    ensures HeaderBlock([a, b]) == "" + HeaderText(a.0, a.1) + HeaderText(b.0, b.1)
  {
    assert [a, b][1..] == [b] && [b][1..] == [];
    assert HeaderBlock([b]) == HeaderText(b.0, b.1) + "";
  }
}
