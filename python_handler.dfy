/** The Python handler (python/python_cgi_index.py): the request URI
    loses its query string, the text after the first `index.cgi` (no
    leading `/` required) is appended to a fixed base directory, any `..`
    in the result is refused, and a regular file is written out with a
    content type taken from the text after the last `.` of the whole
    path. No `Content-Length` is sent.

    `os.environ.get("REQUEST_URI", "")` reads an unset variable as the
    empty string. `os.path.isfile` is true for an existing regular file
    whatever its permissions; `open` then fails on an unreadable one,
    after the headers are printed. */
module Python {
  import opened Text
  import opened Cgi

  /** `BASE_PATH`. */
  const BasePath := "/var/apps/aria2/target/ui"
  /** The text the URI is split at (no leading `/`). */
  const ScriptName := "index.cgi"
  const Home := "/index.html"
  const PlainType := "text/plain; charset=utf-8"

  /** `mime_map`: lower-case extension, without the dot, to content type. */
  const MimeMap: map<string, string> := map[
    "html" := "text/html; charset=utf-8",
    "htm" := "text/html; charset=utf-8",
    "css" := "text/css; charset=utf-8",
    "js" := "application/javascript; charset=utf-8",
    "jpg" := "image/jpeg",
    "jpeg" := "image/jpeg",
    "png" := "image/png",
    "gif" := "image/gif",
    "svg" := "image/svg+xml",
    "txt" := "text/plain; charset=utf-8",
    "log" := "text/plain; charset=utf-8"
  ]

  /** `URI_NO_QUERY`: everything before the first `?`. */
  function StripQuery(uri: string): (r: string)
    ensures StartsWith(uri, r) && '?' !in r
    ensures '?' !in uri ==> r == uri
  {
    ContainsChar(uri, '?');
    BeforeHasNoChar(uri, '?');
    Before(uri, "?")
  }

  lemma BeforeHasNoChar(s: string, c: char)
    ensures c !in Before(s, [c])
  {
    var r := Before(s, [c]);
    forall i | 0 <= i < |r|
      ensures r[i] != c
    {
      assert !OccursAt(s, [c], i);
      assert s[i..i + 1] == [s[i]];
      assert s[..|r|][i] == r[i];
    }
  }

  /** The final `REL_PATH`: the text after the first `index.cgi`, or `/`
      without one; the empty path and `/` both become `/index.html`. */
  function RelPath(uriNoQuery: string): (r: string)
    ensures r != "" && r != "/"
  {
    var rel := match After(uriNoQuery, ScriptName) case None => "/" case Some(tail) => tail;
    if rel == "" || rel == "/" then Home else rel
  }

  /** `TARGET_FILE`: plain concatenation onto the base directory. */
  function TargetFile(requestUri: Option<string>): (r: string)
    ensures StartsWith(r, BasePath)
  {
    BasePath + RelPath(StripQuery(requestUri.GetOr("")))
  }

  /** The content type: `mime_map` at the lower-cased text after the last
      `.` of the whole path (the whole path when it has no `.`). */
  function MimeOf(targetFile: string): (r: string)
    ensures r == DefaultMime || r in MimeMap.Values
    ensures '/' in AfterLast(targetFile, '.') ==> r == DefaultMime
  {
    var extension := ToLower(AfterLast(targetFile, '.'));
    ToLowerKeepsSlash(AfterLast(targetFile, '.'));
    MimeMapKeys(extension);
    if extension in MimeMap then MimeMap[extension] else DefaultMime
  }

  lemma MimeMapKeys(key: string)
    ensures key in MimeMap ==> '/' !in key && '.' !in key
  {
  }

  lemma ToLowerKeepsSlash(s: string)
    ensures '/' in s ==> '/' in ToLower(s)
  {
    if '/' in s {
      var i :| 0 <= i < |s| && s[i] == '/';
      assert ToLower(s)[i] == '/';
    }
  }

  /** `os.path.isfile`: a missing path, a directory and a special file
      are no regular files; readability does not matter. */
  predicate IsFile(fs: FileSystem, path: string)
    ensures IsFile(fs, path) ==> path in fs && fs[path].File?
    ensures path !in fs || fs[path].Directory? || !fs[path].regular ==> !IsFile(fs, path)
  {
    path in fs && fs[path].File? && fs[path].regular
  }

  /** What one run of the script answers. */
  datatype Reply =
    | BadRequest
    | NotFound(relPath: string)
    | Served(contentType: string, data: seq<byte>)
      /** The headers are out when `open` raises on an unreadable file;
          the traceback goes to standard error and no byte follows. */
    | OpenFailed(contentType: string)

  /** The decision chain of the script. */
  function Respond(requestUri: Option<string>, fs: FileSystem): (r: Reply)
    ensures r.BadRequest? <==> Contains(TargetFile(requestUri), "..")
  {
    Decide(RelPath(StripQuery(requestUri.GetOr(""))), fs)
  }

  /** The checks on `TARGET_FILE` for the final `REL_PATH`. */
  function Decide(relPath: string, fs: FileSystem): (r: Reply)
    ensures r.BadRequest? <==> Contains(BasePath + relPath, "..")
    ensures r.NotFound? ==> r.relPath == relPath && !IsFile(fs, BasePath + relPath)
    ensures r.Served? || r.OpenFailed? ==> IsFile(fs, BasePath + relPath)
  {
    var target := BasePath + relPath;
    if Contains(target, "..") then BadRequest
    else if !IsFile(fs, target) then NotFound(relPath)
    else if fs[target].readable then Served(MimeOf(target), fs[target].data)
    else OpenFailed(MimeOf(target))
  }

  /** The text lines a reply prints. */
  function Lines(reply: Reply): (r: seq<string>)
    ensures |r| >= 2
    ensures reply.Served? || reply.OpenFailed? <==> r[|r| - 1] == ""
    ensures reply.BadRequest? || reply.NotFound? <==> StartsWith(r[0], "Status: ")
  {
    match reply
    case BadRequest =>
      ["Status: 400 Bad Request", "Content-Type: " + PlainType, "", "Bad Request"]
    case NotFound(relPath) =>
      ["Status: 404 Not Found", "Content-Type: " + PlainType, "", "404 Not Found: " + relPath]
    case Served(contentType, _) =>
      assert ("Content-Type: " + contentType)[..8][0] == 'C';
      ["Content-Type: " + contentType, ""]
    case OpenFailed(contentType) =>
      assert ("Content-Type: " + contentType)[..8][0] == 'C';
      ["Content-Type: " + contentType, ""]
  }

  /** The bytes a reply writes after its lines. */
  function Body(reply: Reply): seq<byte> {
    if reply.Served? then reply.data else []
  }

  // ---------------------------------------------------------------------
  // The script, step by step

  /** The module-level statements: `REL_PATH` starts as `/` and is
      reassigned on the way; everything printed is what `Respond`
      decides. */
  method Handle(requestUri: Option<string>, fs: FileSystem, out: Output)
    modifies out
    ensures var reply := Respond(requestUri, fs);
      out.lines == old(out.lines) + Lines(reply) && out.body == old(out.body) + Body(reply)
  {
    var uri := requestUri.GetOr("");
    var uriNoQuery := StripQuery(uri);
    var relPath := "/";
    if Contains(uriNoQuery, ScriptName) {
      relPath := After(uriNoQuery, ScriptName).value;
    }
    if relPath == "" || relPath == "/" {
      relPath := Home;
    }
    assert relPath == RelPath(uriNoQuery);
    Serve(relPath, fs, out);
  }

  /** From `TARGET_FILE` on, as `Decide` describes it. */
  method Serve(relPath: string, fs: FileSystem, out: Output)
    modifies out
    ensures var reply := Decide(relPath, fs);
      out.lines == old(out.lines) + Lines(reply) && out.body == old(out.body) + Body(reply)
  {
    var targetFile := BasePath + relPath;

    if Contains(targetFile, "..") {
      out.PrintLine("Status: 400 Bad Request");
      out.PrintLine("Content-Type: " + PlainType);
      out.PrintLine("");
      out.PrintLine("Bad Request");
      return;
    }

    if !(targetFile in fs && fs[targetFile].File? && fs[targetFile].regular) {
      out.PrintLine("Status: 404 Not Found");
      out.PrintLine("Content-Type: " + PlainType);
      out.PrintLine("");
      out.PrintLine("404 Not Found: " + relPath);
      return;
    }

    var mime := MimeOf(targetFile);
    out.PrintLine("Content-Type: " + mime);
    out.PrintLine("");
    if !fs[targetFile].readable {
      return;
    }
    out.WriteAll(fs[targetFile].data);
  }

  // ---------------------------------------------------------------------
  // Properties

  /** An unset `REQUEST_URI` is the empty one, and both ask for the home
      page below the base directory. */
  lemma AbsentUriServesHome(fs: FileSystem)
    ensures Respond(None, fs) == Respond(Some(""), fs)
    ensures TargetFile(None) == BasePath + Home
  {
    assert !Contains("", ScriptName);
  }

  /** Everything from the first `?` on is ignored. */
  lemma QueryIgnored(uri: string, query: string, fs: FileSystem)
    requires '?' !in uri
    ensures TargetFile(Some(uri + "?" + query)) == TargetFile(Some(uri))
    ensures Respond(Some(uri + "?" + query), fs) == Respond(Some(uri), fs)
  {
    forall j: nat | j < |uri|
      ensures !OccursAt(uri + "?" + query, "?", j)
    {
      assert (uri + "?" + query)[j] == uri[j];
    }
    SplitAtFirst(uri, "?", query);
  }

  /** The path is the text after the FIRST `index.cgi`, a `/` before it
      not required; an empty or `/` rest, or no marker at all, means
      `/index.html`. */
  lemma RelPathAfterMarker(prefix: string, rest: string)
    requires forall j: nat :: j < |prefix| ==> !OccursAt(prefix + ScriptName + rest, ScriptName, j)
    ensures RelPath(prefix + ScriptName + rest) == (if rest == "" || rest == "/" then Home else rest)
  {
    SplitAtFirst(prefix, ScriptName, rest);
  }

  lemma RelPathWithoutMarker(uriNoQuery: string)
    requires !Contains(uriNoQuery, ScriptName)
    ensures RelPath(uriNoQuery) == Home
  {
  }

  /** A `..` anywhere in the target path is a 400, whatever the file
      system holds. */
  lemma DotDotRejected(requestUri: Option<string>, fs: FileSystem, otherFs: FileSystem)
    requires Contains(TargetFile(requestUri), "..")
    ensures Respond(requestUri, fs) == BadRequest == Respond(requestUri, otherFs)
    ensures Status(Lines(BadRequest)) == 400 && Body(BadRequest) == []
  {
    BadRequestRead();
  }

  /** A file is served exactly when the target path has no `..` and names
      a readable regular file; the body is that file's contents, and the
      path is the base directory followed by the requested path. */
  lemma ServedExactlyWhenChecksPass(requestUri: Option<string>, fs: FileSystem)
    ensures var target := TargetFile(requestUri);
      var reply := Respond(requestUri, fs);
      reply.Served? <==>
        && !Contains(target, "..")
        && IsFile(fs, target) && fs[target].readable
        && reply.data == fs[target].data
        && reply.contentType == MimeOf(target)
  {
  }

  /** A regular file that cannot be read still gets its success headers,
      then nothing; a target that is not a regular file is a 404 that
      names the requested path. */
  lemma FileChecks(requestUri: Option<string>, fs: FileSystem)
    requires !Contains(TargetFile(requestUri), "..")
    ensures var target := TargetFile(requestUri);
      var reply := Respond(requestUri, fs);
      && (!IsFile(fs, target) <==> reply == NotFound(RelPath(StripQuery(requestUri.GetOr("")))))
      && (IsFile(fs, target) && !fs[target].readable <==> reply == OpenFailed(MimeOf(target)))
  {
  }

  /** The `..` ban does not keep requests inside the base directory: the
      marker needs no `/` after it, so a URI such as `/index.cgi2/secret`
      asks for `BASE_PATH + "2/secret"`, a file in a sibling of the base
      directory, and it is served when it exists. */
  lemma MarkerWithoutSlashEscapes(prefix: string, rest: string, fs: FileSystem)
    requires forall j: nat :: j < |prefix| ==> !OccursAt(prefix + ScriptName + rest, ScriptName, j)
    requires '?' !in prefix + ScriptName + rest
    requires rest != [] && rest[0] != '/'
    ensures var target := TargetFile(Some(prefix + ScriptName + rest));
      && target == BasePath + rest
      && !StartsWith(target, BasePath + "/")
      && (!Contains(target, "..") && IsFile(fs, target) && fs[target].readable ==>
            Respond(Some(prefix + ScriptName + rest), fs) == Served(MimeOf(target), fs[target].data))
  {
    var uri := prefix + ScriptName + rest;
    assert StripQuery(uri) == uri;
    RelPathAfterMarker(prefix, rest);
    assert Respond(Some(uri), fs) == Decide(rest, fs);
    BesideBase(rest);
  }

  lemma BesideBase(rest: string)
    requires rest != [] && rest[0] != '/'
    ensures !StartsWith(BasePath + rest, BasePath + "/")
  {
    var target := BasePath + rest;
    assert target[|BasePath|] == rest[0];
    assert (BasePath + "/")[|BasePath|] == '/';
  }

  /** The web server reads every reply with the status it stands for and
      never finds a `Content-Length`; error pages are plain text. */
  lemma ServerReadsReply(reply: Reply)
    ensures Status(Lines(reply)) ==
      (match reply case BadRequest => 400 case NotFound(_) => 404 case _ => 200)
    ensures Header(Lines(reply), "Content-Length") == None
    ensures Header(Lines(reply), "Content-Type") ==
      Some(match reply
           case Served(contentType, _) => contentType
           case OpenFailed(contentType) => contentType
           case _ => PlainType)
    ensures reply.Served? ==> Document(Lines(reply)) == [] && Body(reply) == reply.data
  {
    match reply
    case BadRequest => BadRequestRead();
    case NotFound(relPath) => NotFoundRead(relPath);
    case Served(contentType, _) => HeadersRead(Lines(reply), contentType);
    case OpenFailed(contentType) => HeadersRead(Lines(reply), contentType);
  }

  lemma BadRequestRead()
    ensures Status(Lines(BadRequest)) == 400
    ensures Header(Lines(BadRequest), "Content-Length") == None
    ensures Header(Lines(BadRequest), "Content-Type") == Some(PlainType)
  {
    var lines := Lines(BadRequest);
    Decimal(400, "400");
    assert lines[0] == "Status: " + "400" + " Bad Request";
    ErrorHeadersRead(lines, "400", " Bad Request", 400);
  }

  lemma NotFoundRead(relPath: string)
    ensures Status(Lines(NotFound(relPath))) == 404
    ensures Header(Lines(NotFound(relPath)), "Content-Length") == None
    ensures Header(Lines(NotFound(relPath)), "Content-Type") == Some(PlainType)
  {
    var lines := Lines(NotFound(relPath));
    Decimal(404, "404");
    assert lines[0] == "Status: " + "404" + " Not Found";
    ErrorHeadersRead(lines, "404", " Not Found", 404);
  }

  /** The status codes the script prints as literals are their decimal
      renderings. */
  lemma Decimal(code: nat, digits: string)
    requires (code, digits) == (400, "400") || (code, digits) == (404, "404")
    ensures NatToString(code) == digits
  {
    assert NatToString(code / 10) == digits[..2];
  }

  lemma ErrorHeadersRead(lines: seq<string>, digits: string, reason: string, code: nat)
    requires digits == NatToString(code) && reason != [] && reason[0] == ' '
    requires |lines| >= 3 && lines[0] == "Status: " + digits + reason
    requires lines[1] == "Content-Type: " + PlainType && lines[2] == ""
    ensures Status(lines) == code
    ensures Header(lines, "Content-Length") == None
    ensures Header(lines, "Content-Type") == Some(PlainType)
  {
    StatusRead(lines, digits, reason, code);
    PlainHeadersRead(lines);
  }

  lemma StatusRead(lines: seq<string>, digits: string, reason: string, code: nat)
    requires digits == NatToString(code) && reason != [] && reason[0] == ' '
    requires lines != [] && lines[0] == "Status: " + digits + reason
    ensures Status(lines) == code
  {
    assert lines[0] == "Status: " + (digits + reason);
    HeaderHere(lines, "Status", digits + reason);
    LeadingDigitsOfNumber(digits, reason);
    ParseNatToString(code);
  }

  lemma PlainHeadersRead(lines: seq<string>)
    requires |lines| >= 3 && |lines[0]| >= 2 && lines[0][1] == 't'
    requires lines[1] == "Content-Type: " + PlainType && lines[2] == ""
    ensures Header(lines, "Content-Length") == None
    ensures Header(lines, "Content-Type") == Some(PlainType)
  {
    NotStartsWith(lines[0], "Content-Type: ", 1);
    HeaderSkip(lines, "Content-Type");
    HeaderHere(lines[1..], "Content-Type", PlainType);
    NotStartsWith(lines[0], "Content-Length: ", 1);
    HeaderSkip(lines, "Content-Length");
    NotStartsWith(lines[1], "Content-Length: ", 8);
    HeaderSkip(lines[1..], "Content-Length");
    assert lines[1..][1..][0] == "";
  }

  lemma HeadersRead(lines: seq<string>, contentType: string)
    requires lines == ["Content-Type: " + contentType, ""]
    ensures Status(lines) == 200
    ensures Header(lines, "Content-Length") == None
    ensures Header(lines, "Content-Type") == Some(contentType)
    ensures Document(lines) == []
  {
    NotStartsWith(lines[0], "Status: ", 0);
    HeaderSkip(lines, "Status");
    NotStartsWith(lines[0], "Content-Length: ", 8);
    HeaderSkip(lines, "Content-Length");
    HeaderHere(lines, "Content-Type", contentType);
  }

  /** An extension in the table selects its entry in any letter case,
      after any path without a `.` in the extension itself. */
  lemma KnownExtension(stem: string, extension: string)
    requires ToLower(extension) in MimeMap && '.' !in extension
    ensures MimeOf(stem + "." + extension) == MimeMap[ToLower(extension)]
  {
    AfterLastAppend(stem + ".", extension, '.');
    assert AfterLast(stem + ".", '.') == [] by {
      LastIndexOfUnique(stem + ".", '.', |stem|);
    }
    assert [] + extension == extension;
  }

  /** An extension the table does not know, in any letter case, gives
      `application/octet-stream`. */
  lemma UnknownExtension(stem: string, extension: string)
    requires ToLower(extension) !in MimeMap && '.' !in extension
    ensures MimeOf(stem + "." + extension) == DefaultMime
  {
    AfterLastAppend(stem + ".", extension, '.');
    assert AfterLast(stem + ".", '.') == [] by {
      LastIndexOfUnique(stem + ".", '.', |stem|);
    }
    assert [] + extension == extension;
  }
}
