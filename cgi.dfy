/** What the three handlers share: the bytes and files they serve, the
    standard output they write to, the HTML error page of the Java and Go
    handlers, and the web server's reading of a CGI response (the header
    block up to the first blank line, the `Status:` pseudo-header that
    defaults to 200, and named header values). */
module Cgi {
  import opened Text

  type byte = bv8

  /** What the operating system reports for a path. */
  datatype Node =
    | Directory
    | File(regular: bool, readable: bool, data: seq<byte>)

  /** The file system, keyed by the path string handed to the operating
      system; a path that is not a key does not exist. */
  type FileSystem = map<string, Node>

  const DefaultMime := "application/octet-stream"
  const HtmlType := "text/html; charset=UTF-8"

  /** The path of the script in the request URI (Java and Go). */
  const Marker := "/index.cgi"
  const ServerError := "Internal Server Error"

  /** `MIME_TYPES` of the Java handler and `mimeTypes` of the Go handler,
      which agree: lower-case extension, dot included, to content type. */
  const MimeTypes: map<string, string> := map[
    ".html" := "text/html; charset=UTF-8",
    ".htm" := "text/html; charset=UTF-8",
    ".css" := "text/css; charset=UTF-8",
    ".js" := "application/javascript; charset=UTF-8",
    ".png" := "image/png",
    ".jpg" := "image/jpeg",
    ".jpeg" := "image/jpeg",
    ".gif" := "image/gif",
    ".ico" := "image/x-icon",
    ".txt" := "text/plain; charset=UTF-8"
  ]

  lemma MimeKeysShape(key: string)
    requires key in MimeTypes
    ensures |key| >= 2 && key[0] == '.' && '.' !in key[1..]
  {
  }

  lemma MimeKeysNonEmpty()
    ensures [] !in MimeTypes
  {
  }

  /** Lower-casing maps no letter to a dot, so dots stay where they were. */
  lemma LowerDotShape(s: string)
    requires var key := ToLower(s); key != [] && key[0] == '.' && '.' !in key[1..]
    ensures s[0] == '.' && '.' !in s[1..]
  {
    var key := ToLower(s);
    assert LowerChar(s[0]) == '.';
    var tail := s[1..];
    forall i | 0 <= i < |tail|
      ensures tail[i] != '.'
    {
      assert LowerChar(tail[i]) == key[i + 1];
      assert key[1..][i] == key[i + 1];
    }
  }

  /** Step 2 of the Java and Go handlers: the request path after the
      first `/index.cgi`, or `/` when the URI does not contain it. Nothing
      is stripped: a query string stays part of the target. */
  function TargetPath(uri: string): (r: string)
    ensures !Contains(uri, Marker) ==> r == "/"
    ensures Contains(uri, Marker) ==>
      |r| + |Marker| <= |uri| && uri[|uri| - |r|..] == r &&
      OccursAt(uri, Marker, |uri| - |r| - |Marker|)
  {
    match IndexOf(uri, Marker)
    case None => "/"
    case Some(i) => uri[i + |Marker|..]
  }

  /** The target is exactly the text after the FIRST `/index.cgi`. */
  lemma TargetPathAfterFirstMarker(prefix: string, rest: string)
    requires forall j: nat :: j < |prefix| ==> !OccursAt(prefix + Marker + rest, Marker, j)
    ensures TargetPath(prefix + Marker + rest) == rest
  {
    SplitAtFirst(prefix, Marker, rest);
  }

  /** A URI that ends with its first `/index.cgi` gives the empty target,
      not `/`. */
  lemma TargetPathAtEnd(prefix: string)
    requires forall j: nat :: j < |prefix| ==> !OccursAt(prefix + Marker, Marker, j)
    ensures TargetPath(prefix + Marker) == []
  {
    assert prefix + Marker + [] == prefix + Marker;
    SplitAtFirst(prefix, Marker, []);
  }

  /** The lines of an error page (Java `sendErrorResponse`, Go
      `sendErrorResponse`): status, content type, blank line, and a small
      HTML document; the message is inserted without escaping. */
  function ErrorLines(code: nat, reason: string, message: string): seq<string> {
    var status := NatToString(code) + " " + reason;
    [ "Status: " + status,
      "Content-Type: " + HtmlType,
      "",
      "<html>",
      "<head><title>" + status + "</title></head>",
      "<body>",
      "<h1>" + status + "</h1>",
      "<p>" + message + "</p>",
      "</body>",
      "</html>" ]
  }

  /** The header lines of a successful Java or Go response. */
  function SuccessHeaders(contentType: string, length: nat): seq<string> {
    ["Content-Type: " + contentType, "Content-Length: " + NatToString(length), ""]
  }

  // ---------------------------------------------------------------------
  // The web server's reading of what the handler printed.

  /** Value of the first header line `name: value` before the blank line. */
  function Header(lines: seq<string>, name: string): (r: Option<string>)
    ensures r.Some? ==> exists i :: 0 <= i < |lines| && lines[i] == name + ": " + r.value
  {
    if lines == [] || lines[0] == "" then None
    else if StartsWith(lines[0], name + ": ") then
      assert lines[0] == name + ": " + lines[0][|name| + 2..];
      Some(lines[0][|name| + 2..])
    else
      var r := Header(lines[1..], name);
      assert r.Some? ==> lines[1..][0] == lines[1];
      r
  }

  /** The HTTP status the server sends: the number that starts the
      `Status:` header, or 200 when there is none. */
  function Status(lines: seq<string>): nat {
    match Header(lines, "Status")
    case None => 200
    case Some(v) => ParseNat(LeadingDigits(v))
  }

  /** Lines after the first blank line: the part that belongs to the body. */
  function Document(lines: seq<string>): seq<string> {
    if lines == [] then []
    else if lines[0] == "" then lines[1..]
    else Document(lines[1..])
  }

  lemma NotStartsWith(s: string, p: string, i: nat)
    requires i < |s| && i < |p| && s[i] != p[i]
    ensures !StartsWith(s, p)
  {
    if |p| <= |s| {
      assert s[..|p|][i] == s[i];
    }
  }

  /** Reading the headers of a block whose first line is not `name: ...`
      moves on to the next line. */
  lemma HeaderSkip(lines: seq<string>, name: string)
    requires lines != [] && lines[0] != "" && !StartsWith(lines[0], name + ": ")
    ensures Header(lines, name) == Header(lines[1..], name)
  {
  }

  lemma HeaderHere(lines: seq<string>, name: string, value: string)
    requires lines != [] && lines[0] == name + ": " + value
    ensures Header(lines, name) == Some(value)
  {
    assert lines[0][..|name + ": "|] == name + ": ";
    assert lines[0][|name| + 2..] == value;
  }

  lemma DocumentAfterBlank(lines: seq<string>, k: nat)
    requires k < |lines| && lines[k] == ""
    requires forall i :: 0 <= i < k ==> lines[i] != ""
    ensures Document(lines) == lines[k + 1..]
  {
    if k > 0 {
      DocumentAfterBlank(lines[1..], k - 1);
    }
  }

  /** The server reads an error page as the intended status, an HTML
      content type and no length, and its document shows the status in
      title and heading and the message in a paragraph. */
  lemma ErrorLinesRead(code: nat, reason: string, message: string)
    ensures var lines := ErrorLines(code, reason, message);
      var status := NatToString(code) + " " + reason;
      && Status(lines) == code
      && Header(lines, "Content-Type") == Some(HtmlType)
      && Header(lines, "Content-Length") == None
      && Document(lines) == lines[3..]
      && "<p>" + message + "</p>" in Document(lines)
      && "<h1>" + status + "</h1>" in Document(lines)
  {
    var lines := ErrorLines(code, reason, message);
    var digits := NatToString(code);
    var status := digits + " " + reason;
    ErrorStatusRead(lines, digits, reason, code);
    ErrorContentRead(lines);
    ErrorDocument(lines, "<h1>" + status + "</h1>", "<p>" + message + "</p>");
  }

  lemma ErrorDocument(lines: seq<string>, heading: string, paragraph: string)
    requires |lines| == 10 && lines[0] != "" && lines[1] != "" && lines[2] == ""
    requires lines[6] == heading && lines[7] == paragraph
    ensures Document(lines) == lines[3..]
    ensures heading in Document(lines) && paragraph in Document(lines)
  {
    DocumentAfterBlank(lines, 2);
    assert lines[3..][3] == heading;
    assert lines[3..][4] == paragraph;
  }

  lemma ErrorStatusRead(lines: seq<string>, digits: string, reason: string, code: nat)
    requires digits == NatToString(code)
    requires lines != [] && lines[0] == "Status: " + (digits + " " + reason)
    ensures Status(lines) == code
  {
    var value := digits + " " + reason;
    HeaderHere(lines, "Status", value);
    assert value == digits + (" " + reason);
    LeadingDigitsOfNumber(digits, " " + reason);
    ParseNatToString(code);
    assert Status(lines) == ParseNat(LeadingDigits(value));
  }

  lemma ErrorContentRead(lines: seq<string>)
    requires |lines| >= 3 && |lines[0]| >= 2 && lines[0][1] == 't'
    requires lines[1] == "Content-Type: " + HtmlType && lines[2] == ""
    ensures Header(lines, "Content-Type") == Some(HtmlType)
    ensures Header(lines, "Content-Length") == None
  {
    NotStartsWith(lines[0], "Content-Type: ", 1);
    HeaderSkip(lines, "Content-Type");
    HeaderHere(lines[1..], "Content-Type", HtmlType);
    NotStartsWith(lines[0], "Content-Length: ", 1);
    HeaderSkip(lines, "Content-Length");
    NotStartsWith(lines[1], "Content-Length: ", 8);
    HeaderSkip(lines[1..], "Content-Length");
    assert lines[1..][1..][0] == "";
  }

  /** The server reads a success header block as status 200, the content
      type, and a `Content-Length` that parses back to the length. */
  lemma SuccessHeadersRead(contentType: string, length: nat)
    ensures var lines := SuccessHeaders(contentType, length);
      && Status(lines) == 200
      && Header(lines, "Content-Type") == Some(contentType)
      && Header(lines, "Content-Length").Some?
      && AllDigits(Header(lines, "Content-Length").value)
      && ParseNat(Header(lines, "Content-Length").value) == length
      && Document(lines) == []
  {
    var lines := SuccessHeaders(contentType, length);
    // Status
    NotStartsWith(lines[0], "Status: ", 0);
    HeaderSkip(lines, "Status");
    NotStartsWith(lines[1], "Status: ", 0);
    HeaderSkip(lines[1..], "Status");
    assert lines[1..][1..][0] == "";
    // Content-Type
    HeaderHere(lines, "Content-Type", contentType);
    // Content-Length
    NotStartsWith(lines[0], "Content-Length: ", 8);
    HeaderSkip(lines, "Content-Length");
    HeaderHere(lines[1..], "Content-Length", NatToString(length));
    ParseNatToString(length);
    // Document
    DocumentAfterBlank(lines, 2);
  }

  /** The process's standard output: the text lines printed so far and the
      raw bytes written after them. Every handler prints all of its lines
      before it writes any byte, so the two parts are kept apart. */
  class Output {
    var lines: seq<string>
    var body: seq<byte>

    constructor ()
      ensures lines == [] && body == []
    {
      lines, body := [], [];
    }

    /** `println`: one line of text. */
    method PrintLine(s: string)
      modifies this
      ensures lines == old(lines) + [s] && body == old(body)
    {
      lines := lines + [s];
    }

    /** `write(buffer, 0, n)`: the first `n` bytes of a buffer. */
    method Write(buffer: array<byte>, n: nat)
      requires n <= buffer.Length
      modifies this
      ensures body == old(body) + buffer[..n] && lines == old(lines)
    {
      body := body + buffer[..n];
    }

    /** A bulk write of a whole byte string. */
    method WriteAll(data: seq<byte>)
      modifies this
      ensures body == old(body) + data && lines == old(lines)
    {
      body := body + data;
    }

    /** `sendErrorResponse(statusCode, statusMessage, message)`. */
    method SendErrorResponse(code: nat, reason: string, message: string)
      modifies this
      ensures lines == old(lines) + ErrorLines(code, reason, message)
      ensures body == old(body)
    {
      var status := NatToString(code) + " " + reason;
      PrintLine("Status: " + status);
      PrintLine("Content-Type: " + HtmlType);
      PrintLine("");
      PrintLine("<html>");
      PrintLine("<head><title>" + status + "</title></head>");
      PrintLine("<body>");
      PrintLine("<h1>" + status + "</h1>");
      PrintLine("<p>" + message + "</p>");
      PrintLine("</body>");
      PrintLine("</html>");
    }

    /** The three success header lines of the Java and Go handlers. */
    method SendSuccessHeaders(contentType: string, length: nat)
      modifies this
      ensures lines == old(lines) + SuccessHeaders(contentType, length)
      ensures body == old(body)
    {
      PrintLine("Content-Type: " + contentType);
      PrintLine("Content-Length: " + NatToString(length));
      PrintLine("");
    }
  }
}
