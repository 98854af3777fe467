/** The XML-RPC value writer of the rtorrent driver. A char is a Unicode code point here. */
module XmlRpcWriter {
  import opened Buffers
  import opened Decimal
  import opened Text

  type Octet = n: int | 0 <= n < 256

  // The dynamic types writeXMLRPCValue tells apart. A value of any other type is written as what
  // fmt.Sprint makes of it.
  datatype Value =
    | Str(s: string)
    | Bytes(bytes: seq<Octet>)
    | Int(i: int64)
    | Int64(n: int64)
    | Bool(b: bool)
    | Array(items: seq<Value>)
    | Other(sprint: string)

  // The code points XML 1.0 admits (production 2, Char).
  predicate XmlCharacter(c: char) {
    var n := c as int;
    n in {0x9, 0xA, 0xD} || 0x20 <= n <= 0xD7FF || 0xE000 <= n <= 0xFFFD || 0x10000 <= n <= 0x10FFFF
  }

  // The range that xml.EscapeText passes.
  predicate IsXmlChar(c: char): (b: bool)
    ensures b <==> XmlCharacter(c)
  {
    || c == '\t' || c == '\n' || c == '\r'
    || ' ' <= c <= '\U{D7FF}' || '\U{E000}' <= c <= '\U{FFFD}' || '\U{10000}' <= c
  }

  function EscapeChar(c: char): string {
    match c
    case '"' => "&#34;"
    case '\'' => "&#39;"
    case '&' => "&amp;"
    case '<' => "&lt;"
    case '>' => "&gt;"
    case '\t' => "&#x9;"
    case '\n' => "&#xA;"
    case '\r' => "&#xD;"
    case _ => if IsXmlChar(c) then [c] else ['\U{FFFD}']
  }

  // xml.EscapeText
  function Escape(s: string): string {
    if s == "" then "" else EscapeChar(s[0]) + Escape(s[1..])
  }

  function Base64Char(n: int): char
    requires 0 <= n < 64
  {
    if n < 26 then ('A' as int + n) as char
    else if n < 52 then ('a' as int + n - 26) as char
    else if n < 62 then ('0' as int + n - 52) as char
    else if n == 62 then '+'
    else '/'
  }

  // Four characters for three bytes.
  function Base64Group(a: Octet, b: Octet, c: Octet): string {
    [Base64Char(a / 4), Base64Char(a % 4 * 16 + b / 16), Base64Char(b % 16 * 4 + c / 64), Base64Char(c % 64)]
  }

  // base64.StdEncoding.EncodeToString
  function Base64(bytes: seq<Octet>): string {
    if bytes == [] then ""
    else if |bytes| == 1 then [Base64Char(bytes[0] / 4), Base64Char(bytes[0] % 4 * 16)] + "=="
    else if |bytes| == 2 then
      var a, b := bytes[0], bytes[1];
      [Base64Char(a / 4), Base64Char(a % 4 * 16 + b / 16), Base64Char(b % 16 * 4)] + "="
    else Base64Group(bytes[0], bytes[1], bytes[2]) + Base64(bytes[3..])
  }

  // The text writeXMLRPCValue appends.
  function Render(v: Value): string
    decreases v, 1
  {
    match v
    case Str(s) => "<string>" + Escape(s) + "</string>"
    case Bytes(bytes) => "<base64>" + Base64(bytes) + "</base64>"
    case Int(i) => "<i4>" + Itoa(i) + "</i4>"
    case Int64(n) => "<i8>" + Itoa(n) + "</i8>"
    case Bool(b) => "<boolean>" + (if b then "1" else "0") + "</boolean>"
    case Array(items) => "<array><data>" + RenderAll(items, "<value>", "</value>") + "</data></array>"
    case Other(sprint) => "<string>" + Escape(sprint) + "</string>"
  }

  // Several values, each between an opening and a closing text.
  function RenderAll(items: seq<Value>, open: string, close: string): string
    decreases items, 0
  {
    if items == [] then "" else (open + Render(items[0]) + close) + RenderAll(items[1..], open, close)
  }

  // The three writes of a scalar element.
  method WriteElement(b: Buffer, open: string, text: string, close: string)
    modifies b
    ensures b.data == old(b.data) + (open + text + close)
  {
    AppendParts(b.data, open, text, close);
    b.WriteString(open);
    b.WriteString(text);
    b.WriteString(close);
  }

  method WriteXmlRpcValue(b: Buffer, v: Value)
    modifies b
    ensures b.data == old(b.data) + Render(v)
    decreases v, 1
  {
    match v
    case Str(s) => WriteElement(b, "<string>", Escape(s), "</string>");
    case Bytes(bytes) => WriteElement(b, "<base64>", Base64(bytes), "</base64>");
    case Int(i) => WriteElement(b, "<i4>", Itoa(i), "</i4>");
    case Int64(n) => WriteElement(b, "<i8>", Itoa(n), "</i8>");
    case Bool(flag) => WriteElement(b, "<boolean>", if flag then "1" else "0", "</boolean>");
    case Array(items) =>
      AppendParts(b.data, "<array><data>", RenderAll(items, "<value>", "</value>"), "</data></array>");
      b.WriteString("<array><data>");
      WriteAll(b, items, "<value>", "</value>");
      b.WriteString("</data></array>");
    case Other(sprint) => WriteElement(b, "<string>", Escape(sprint), "</string>");
  }

  // The loops over array items and call parameters.
  method WriteAll(b: Buffer, items: seq<Value>, open: string, close: string)
    modifies b
    ensures b.data == old(b.data) + RenderAll(items, open, close)
    decreases items, 0
  {
    for k := 0 to |items|
      invariant b.data + RenderAll(items[k..], open, close) == old(b.data) + RenderAll(items, open, close)
    {
      AppendParts(b.data, open, Render(items[k]), close);
      Assoc(b.data, open + Render(items[k]) + close, RenderAll(items[k + 1..], open, close));
      assert items[k..][1..] == items[k + 1..];
      b.WriteString(open);
      WriteXmlRpcValue(b, items[k]);
      b.WriteString(close);
    }
  }

  // A call document: the parts around the escaped method name and around the parameters are fixed.
  datatype CallLayout = CallLayout(head: string, middle: string, open: string, close: string, tail: string)

  const CALL := CallLayout(
    "<?xml version=\"1.0\"?>" + "<methodCall>" + "<methodName>", "</methodName><params>",
    "<param><value>", "</value></param>",
    "</params></methodCall>")

  function RenderCall(c: CallLayout, name: string, params: seq<Value>): string {
    (c.head + Escape(name) + c.middle) + RenderAll(params, c.open, c.close) + c.tail
  }

  method EncodeXmlRpc(name: string, params: seq<Value>) returns (body: string)
    ensures body == RenderCall(CALL, name, params)
  {
    var b := new Buffer();
    WriteCall(b, CALL, name, params);
    body := b.data;
  }

  method WriteCall(b: Buffer, c: CallLayout, name: string, params: seq<Value>)
    requires b.data == ""
    modifies b
    ensures b.data == RenderCall(c, name, params)
  {
    AppendNothing(c.head + Escape(name) + c.middle);
    WriteElement(b, c.head, Escape(name), c.middle);
    WriteAll(b, params, c.open, c.close);
    b.WriteString(c.tail);
  }
}
