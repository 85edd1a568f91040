/** The Go handler (go/goCgiParsingService.go): the request URI after
    `/index.cgi` loses one leading `/` and is joined onto the directory of
    the script with `filepath.Join`, both paths are made absolute with
    `filepath.Abs` and compared as strings, and the file is streamed to
    standard output with `io.Copy`.

    `os.Getenv` reads an unset variable as the empty string, so both are
    one case here. `os.Getwd`, which `filepath.Abs` consults for a
    relative path, is the parameter `cwd` (None when it fails). The file
    system is looked up with the absolute target path. */
module Go {
  import opened Text
  import opened Cgi
  import opened GoPath

  const NotFound := "Not Found"
  const NotFoundMessage := "The requested resource was not found on this server."
  const NotReadableMessage := "The requested resource was not found on this server or not readable."

  /** `os.Getenv`: an unset variable reads as empty. */
  function Getenv(value: Option<string>): (r: string)
    ensures value.Some? ==> r == value.value
    ensures r == [] <==> value.None? || value == Some([])
  {
    value.GetOr("")
  }

  /** `strings.TrimPrefix`. */
  function TrimPrefix(s: string, prefix: string): (r: string)
    ensures StartsWith(s, prefix) ==> s == prefix + r
    ensures !StartsWith(s, prefix) ==> r == s
  {
    if StartsWith(s, prefix) then
      assert s == s[..|prefix|] + s[|prefix|..];
      s[|prefix|..]
    else s
  }

  /** `getContentType`: the table entry for the lower-cased
      `filepath.Ext` of the name. */
  function GetContentType(fileName: string): (r: string)
    ensures r == DefaultMime || r in MimeTypes.Values
    ensures Ext(fileName) == [] ==> r == DefaultMime
  {
    var extension := ToLower(Ext(fileName));
    MimeKeysNonEmpty();
    if extension in MimeTypes then MimeTypes[extension] else DefaultMime
  }

  /** Step 3: `/` stands for `index.html`; any other target loses at
      most one leading `/`. */
  function Relative(target: string): (r: string)
    ensures target == "/" ==> r == "index.html"
    ensures target != "/" && StartsWith(target, "/") ==> target == "/" + r
    ensures !StartsWith(target, "/") ==> r == target
  {
    if target == "/" then "index.html" else TrimPrefix(target, "/")
  }

  /** Step 3: the relative target joined onto the web root. */
  function CandidateFile(webRoot: string, target: string): (r: string)
    ensures webRoot != [] ==> (IsAbs(r) <==> IsAbs(webRoot))
  {
    Join(webRoot, Relative(target))
  }

  /** What one run of `main` answers. */
  datatype Reply =
    | Failure(code: nat, reason: string, message: string)
    | Served(contentType: string, data: seq<byte>)

  /** The decision chain of `main`: the two environment checks, then the
      path work of `Decide`. */
  function Respond(requestUri: Option<string>, scriptFileName: Option<string>,
                   fs: FileSystem, cwd: Option<string>): (r: Reply)
    ensures r.Failure? ==> r.code == 500 || r.code == 403 || r.code == 404
    ensures Getenv(requestUri) == "" || Getenv(scriptFileName) == "" ==> r.Failure? && r.code == 500
  {
    var uri := Getenv(requestUri);
    if uri == "" then
      Failure(500, ServerError, "REQUEST_URI environment variable is not set.")
    else
      var script := Getenv(scriptFileName);
      if script == "" then
        Failure(500, ServerError, "SCRIPT_FILENAME environment variable is not set.")
      else
        Decide(Dir(script), TargetPath(uri), fs, cwd)
  }

  /** Steps 3 to 6 of `main` for a web root and a target path. */
  function Decide(webRoot: string, target: string, fs: FileSystem, cwd: Option<string>): (r: Reply)
    ensures r.Failure? ==> r.code == 500 || r.code == 403 || r.code == 404
  {
    match Abs(CandidateFile(webRoot, target), cwd)
    case None => Failure(500, ServerError, "Failed to resolve file path.")
    case Some(absTarget) =>
      match Abs(webRoot, cwd)
      case None => Failure(500, ServerError, "Failed to resolve web root path.")
      case Some(absWebRoot) =>
        if !StartsWith(absTarget, absWebRoot) then
          Failure(403, "Forbidden", "Access denied. Path traversal attempt detected.")
        else Deliver(absTarget, fs)
  }

  /** Step 5 and 6 of `main`: `os.Stat`, `os.Open`, then the file. */
  function Deliver(path: string, fs: FileSystem): (r: Reply)
    ensures r.Served? <==> path in fs && !fs[path].Directory? && fs[path].readable
    ensures r.Failure? ==> r.code == 404
  {
    if path !in fs || fs[path].Directory? then
      Failure(404, NotFound, NotFoundMessage)
    else if !fs[path].readable then
      Failure(404, NotFound, NotReadableMessage)
    else
      Served(GetContentType(Base(path)), fs[path].data)
  }

  /** The text lines a reply prints. */
  function Lines(reply: Reply): seq<string> {
    match reply
    case Failure(code, reason, message) => ErrorLines(code, reason, message)
    case Served(contentType, data) => SuccessHeaders(contentType, |data|)
  }

  /** The bytes a reply writes after its lines. */
  function Body(reply: Reply): seq<byte> {
    if reply.Served? then reply.data else []
  }

  // ---------------------------------------------------------------------
  // The program, step by step

  /** `main`: everything it prints is what `Respond` decides. */
  method Handle(requestUri: Option<string>, scriptFileName: Option<string>,
                fs: FileSystem, cwd: Option<string>, out: Output)
    modifies out
    ensures var reply := Respond(requestUri, scriptFileName, fs, cwd);
      out.lines == old(out.lines) + Lines(reply) && out.body == old(out.body) + Body(reply)
  {
    var uri := Getenv(requestUri);
    if uri == "" {
      out.SendErrorResponse(500, ServerError, "REQUEST_URI environment variable is not set.");
      return;
    }
    var targetPath: string;
    var cgiIndex := IndexOf(uri, Marker);
    if cgiIndex.Some? {
      targetPath := uri[cgiIndex.value + |Marker|..];
    } else {
      targetPath := "/";
    }
    assert targetPath == TargetPath(uri);

    var script := Getenv(scriptFileName);
    if script == "" {
      out.SendErrorResponse(500, ServerError, "SCRIPT_FILENAME environment variable is not set.");
      return;
    }
    Serve(Dir(script), targetPath, fs, cwd, out);
  }

  /** Steps 3 to 7 of `main`, as `Decide` describes them. */
  method Serve(webRoot: string, targetPath: string, fs: FileSystem, cwd: Option<string>, out: Output)
    modifies out
    ensures var reply := Decide(webRoot, targetPath, fs, cwd);
      out.lines == old(out.lines) + Lines(reply) && out.body == old(out.body) + Body(reply)
  {
    var targetFile: string;
    if targetPath == "/" {
      targetFile := Join(webRoot, "index.html");
    } else {
      var cleanPath := TrimPrefix(targetPath, "/");
      targetFile := Join(webRoot, cleanPath);
    }

    var absTarget := Abs(targetFile, cwd);
    if absTarget.None? {
      out.SendErrorResponse(500, ServerError, "Failed to resolve file path.");
      return;
    }
    var absWebRoot := Abs(webRoot, cwd);
    if absWebRoot.None? {
      out.SendErrorResponse(500, ServerError, "Failed to resolve web root path.");
      return;
    }
    if !StartsWith(absTarget.value, absWebRoot.value) {
      out.SendErrorResponse(403, "Forbidden", "Access denied. Path traversal attempt detected.");
      return;
    }

    SendFile(absTarget.value, fs, out);
  }

  /** Steps 5 to 7 of `main`, as `Deliver` describes them. */
  method SendFile(path: string, fs: FileSystem, out: Output)
    modifies out
    ensures var reply := Deliver(path, fs);
      out.lines == old(out.lines) + Lines(reply) && out.body == old(out.body) + Body(reply)
  {
    if path !in fs || fs[path].Directory? {
      out.SendErrorResponse(404, NotFound, NotFoundMessage);
      return;
    }
    if !fs[path].readable {
      out.SendErrorResponse(404, NotFound, NotReadableMessage);
      return;
    }

    var contentType := GetContentType(Base(path));
    var contents := fs[path].data;
    out.SendSuccessHeaders(contentType, |contents|);
    out.WriteAll(contents);
  }

  // ---------------------------------------------------------------------
  // Properties

  /** An unset and an empty `REQUEST_URI` are the same: a single 500 page,
      whatever the script location, the file system and the working
      directory. */
  lemma MissingRequestUri(scriptFileName: Option<string>, fs: FileSystem, cwd: Option<string>,
                          otherScript: Option<string>, otherFs: FileSystem, otherCwd: Option<string>)
    ensures var reply := Respond(None, scriptFileName, fs, cwd);
      && reply == Respond(Some(""), otherScript, otherFs, otherCwd)
      && reply == Failure(500, ServerError, "REQUEST_URI environment variable is not set.")
      && Status(Lines(reply)) == 500 && Body(reply) == []
  {
    ErrorLinesRead(500, ServerError, "REQUEST_URI environment variable is not set.");
  }

  /** With a request URI present, an unset or empty `SCRIPT_FILENAME`
      gives its own 500 page, before any path or file is looked at. */
  lemma MissingScriptFileName(uri: string, fs: FileSystem, cwd: Option<string>,
                              otherFs: FileSystem, otherCwd: Option<string>)
    requires uri != ""
    ensures var reply := Respond(Some(uri), None, fs, cwd);
      && reply == Respond(Some(uri), Some(""), otherFs, otherCwd)
      && reply == Failure(500, ServerError, "SCRIPT_FILENAME environment variable is not set.")
  {
  }

  /** `/` is `index.html` below the web root; any other target is joined
      below it with one leading `/` removed. */
  lemma CandidateFileShape(webRoot: string, rest: string)
    requires webRoot != [] && rest != []
    ensures CandidateFile(webRoot, "/") == Clean(webRoot + "/index.html")
    ensures CandidateFile(webRoot, "/" + rest) == Clean(webRoot + "/" + rest)
  {
    assert webRoot + "/" + "index.html" == webRoot + "/index.html";
    assert ("/" + rest)[..1] == "/";
    assert "/" + rest != "/";
  }

  /** The empty target names the web root itself. */
  lemma EmptyTargetIsWebRoot(webRoot: string)
    requires webRoot != []
    ensures CandidateFile(webRoot, "") == Clean(webRoot)
  {
    SplitAppend(webRoot, "");
    ReduceAppend([], Split(webRoot), [[]], webRoot[0] == '/');
    assert webRoot + "/" + "" == webRoot + "/";
  }

  /** The target is absolute exactly when the web root is, so either
      both `filepath.Abs` calls fail or neither does: the "web root" 500
      answer never appears. */
  lemma RootErrorUnreachable(requestUri: Option<string>, scriptFileName: Option<string>,
                             fs: FileSystem, cwd: Option<string>)
    ensures Respond(requestUri, scriptFileName, fs, cwd)
      != Failure(500, ServerError, "Failed to resolve web root path.")
  {
    var uri := Getenv(requestUri);
    var script := Getenv(scriptFileName);
    if uri != "" && script != "" {
      var webRoot := Dir(script);
      var target := TargetPath(uri);
      assert CandidateFile(webRoot, target) == Clean(webRoot + "/" + Relative(target));
      assert IsAbs(CandidateFile(webRoot, target)) <==> IsAbs(webRoot);
    }
  }

  /** A URI that ends with its first `/index.cgi` does not get the home
      page: its empty target names the web root itself, which is a
      directory (or missing), so the answer is 404. */
  lemma TrailingMarkerNotFound(prefix: string, script: string, fs: FileSystem, cwd: Option<string>)
    requires forall j: nat :: j < |prefix| ==> !OccursAt(prefix + Marker, Marker, j)
    requires script != []
    requires var root := Abs(Dir(script), cwd);
      root.Some? && (root.value in fs ==> fs[root.value].Directory?)
    ensures Respond(Some(prefix + Marker), Some(script), fs, cwd)
      == Failure(404, NotFound, NotFoundMessage)
  {
    TargetPathAtEnd(prefix);
    var webRoot := Dir(script);
    assert Respond(Some(prefix + Marker), Some(script), fs, cwd) == Decide(webRoot, [], fs, cwd);
    EmptyTargetIsWebRoot(webRoot);
    DirClean(script);
    var root := Abs(webRoot, cwd).value;
    assert StartsWith(root, root);
    assert Decide(webRoot, [], fs, cwd) == Deliver(root, fs);
  }

  /** When the absolute target does not start with the absolute web root
      the answer is 403, decided before, and independently of, any look at
      the file system. */
  lemma TraversalDenied(webRoot: string, target: string, fs: FileSystem, otherFs: FileSystem,
                        cwd: Option<string>)
    requires var absTarget := Abs(CandidateFile(webRoot, target), cwd);
      && absTarget.Some? && Abs(webRoot, cwd).Some?
      && !StartsWith(absTarget.value, Abs(webRoot, cwd).value)
    ensures var reply := Decide(webRoot, target, fs, cwd);
      && reply == Failure(403, "Forbidden", "Access denied. Path traversal attempt detected.")
      && reply == Decide(webRoot, target, otherFs, cwd)
      && Status(Lines(reply)) == 403 && Body(reply) == []
  {
    ErrorLinesRead(403, "Forbidden", "Access denied. Path traversal attempt detected.");
  }

  /** When `filepath.Abs` of the candidate fails (a relative path and no
      working directory) the answer is the 500 "Failed to resolve file
      path." page, whatever the file system holds. */
  lemma TargetUnresolved(webRoot: string, target: string, fs: FileSystem, otherFs: FileSystem,
                         cwd: Option<string>)
    requires Abs(CandidateFile(webRoot, target), cwd).None?
    ensures var reply := Decide(webRoot, target, fs, cwd);
      && reply == Failure(500, ServerError, "Failed to resolve file path.")
      && reply == Decide(webRoot, target, otherFs, cwd)
      && Status(Lines(reply)) == 500 && Body(reply) == []
  {
    ErrorLinesRead(500, ServerError, "Failed to resolve file path.");
  }

  /** A path none of whose elements is `..`. */
  predicate NoDotDot(path: string) {
    forall i :: 0 <= i < |Split(path)| ==> Split(path)[i] != ".."
  }

  /** Below an absolute script, a target without `..` elements is never
      refused as traversal and never fails to resolve: the answer is 404
      or the file. */
  lemma NoDotDotNeverForbidden(uri: string, script: string, fs: FileSystem, cwd: Option<string>)
    requires uri != "" && IsAbs(script)
    requires NoDotDot(TargetPath(uri))
    ensures var reply := Respond(Some(uri), Some(script), fs, cwd);
      reply.Served? || reply.code == 404
  {
    var webRoot := Dir(script);
    var rel := Relative(TargetPath(uri));
    RelativeNoDotDot(TargetPath(uri));
    JoinBelow(webRoot, rel);
    AbsoluteCandidate(webRoot, TargetPath(uri), cwd);
    DirClean(script);
  }

  /** Dropping the leading `/` or choosing `index.html` adds no `..`. */
  lemma RelativeNoDotDot(target: string)
    requires NoDotDot(target)
    ensures NoDotDot(Relative(target))
  {
    var rel := Relative(target);
    if target == "/" {
      SplitWithoutSlash("index.html");
    } else if StartsWith(target, "/") {
      assert target == "/" + rel;
      assert Split(target) == [[]] + Split(rel);
      forall i | 0 <= i < |Split(rel)|
        ensures Split(rel)[i] != ".."
      {
        assert Split(rel)[i] == Split(target)[i + 1];
      }
    }
  }

  /** Below an absolute web root, `filepath.Abs` of the candidate is the
      cleaned join itself, and of the web root its cleaned form. */
  lemma AbsoluteCandidate(webRoot: string, target: string, cwd: Option<string>)
    requires IsAbs(webRoot)
    ensures var file := Clean(webRoot + "/" + Relative(target));
      && CandidateFile(webRoot, target) == file
      && Abs(file, cwd) == Some(file)
      && Abs(webRoot, cwd) == Some(Clean(webRoot))
  {
    var whole := webRoot + "/" + Relative(target);
    assert IsAbs(whole);
    CleanIdempotent(whole);
  }

  /** Below an absolute script, whatever is served (a `..` target
      included) is a file whose cleaned absolute path starts with the web
      root and has no `.` or `..` element; the body is that file's
      contents. */
  lemma ServedBelowWebRoot(uri: string, script: string, fs: FileSystem, cwd: Option<string>)
    requires IsAbs(script)
    requires Respond(Some(uri), Some(script), fs, cwd).Served?
    ensures var path := CandidateFile(Dir(script), TargetPath(uri));
      var elements := Split(path);
      && StartsWith(path, Dir(script))
      && path in fs && !fs[path].Directory?
      && Respond(Some(uri), Some(script), fs, cwd).data == fs[path].data
      && elements[0] == []
      && forall i :: 1 <= i < |elements| ==> elements[i] != ".." && elements[i] != "."
  {
    var webRoot := Dir(script);
    AbsoluteCandidate(webRoot, TargetPath(uri), cwd);
    DirClean(script);
    CleanAbsoluteElements(webRoot + "/" + Relative(TargetPath(uri)));
  }

  /** A file is served exactly when both variables are set, both paths
      resolve, the absolute target starts with the absolute web root and
      names an existing, readable non-directory; the body is its contents
      and the type follows its base name. */
  lemma ServedExactlyWhenChecksPass(requestUri: Option<string>, scriptFileName: Option<string>,
                                    fs: FileSystem, cwd: Option<string>)
    ensures var reply := Respond(requestUri, scriptFileName, fs, cwd);
      reply.Served? <==>
        && Getenv(requestUri) != "" && Getenv(scriptFileName) != ""
        && var webRoot := Dir(Getenv(scriptFileName));
           var absTarget := Abs(CandidateFile(webRoot, TargetPath(Getenv(requestUri))), cwd);
           && absTarget.Some? && Abs(webRoot, cwd).Some?
           && StartsWith(absTarget.value, Abs(webRoot, cwd).value)
           && absTarget.value in fs && !fs[absTarget.value].Directory?
           && fs[absTarget.value].readable
           && reply.data == fs[absTarget.value].data
           && reply.contentType == GetContentType(Base(absTarget.value))
  {
  }

  /** Once the prefix check has passed, a missing path or a directory and
      an unreadable file are both 404, told apart only by the message. */
  lemma NotFoundMessages(webRoot: string, target: string, fs: FileSystem, cwd: Option<string>)
    requires var absTarget := Abs(CandidateFile(webRoot, target), cwd);
      && absTarget.Some? && Abs(webRoot, cwd).Some?
      && StartsWith(absTarget.value, Abs(webRoot, cwd).value)
    ensures var path := Abs(CandidateFile(webRoot, target), cwd).value;
      var reply := Decide(webRoot, target, fs, cwd);
      && ((path !in fs || fs[path].Directory?) <==> reply == Failure(404, NotFound, NotFoundMessage))
      && ((path in fs && fs[path].File? && !fs[path].readable)
            <==> reply == Failure(404, NotFound, NotReadableMessage))
  {
  }

  /** The containment test is a string prefix, not a directory test: an
      absolute target in a sibling directory whose name merely extends the
      web root's (`root + "2/secret"`) passes it and is served. */
  lemma PrefixCheckAdmitsSibling(webRoot: string, target: string, fs: FileSystem,
                                 cwd: Option<string>, sibling: string)
    requires Abs(webRoot, cwd).Some?
    requires var path := Abs(webRoot, cwd).value + sibling;
      && Abs(CandidateFile(webRoot, target), cwd) == Some(path)
      && path in fs && fs[path].File? && fs[path].readable
    ensures var path := Abs(webRoot, cwd).value + sibling;
      Decide(webRoot, target, fs, cwd) == Served(GetContentType(Base(path)), fs[path].data)
  {
    var root := Abs(webRoot, cwd).value;
    assert (root + sibling)[..|root|] == root;
  }

  /** `filepath.Ext` takes the suffix from the last `.` of the final
      element, so a known extension selects its entry in any letter case
      and after any stem, the empty one included: unlike the Java handler,
      a name such as `.html` is typed by its extension. */
  lemma KnownExtension(stem: string, extension: string)
    requires ToLower(extension) in MimeTypes && '/' !in extension
    ensures GetContentType(stem + extension) == MimeTypes[ToLower(extension)]
  {
    MimeKeysShape(ToLower(extension));
    LowerDotShape(extension);
    ExtOfSuffix(stem, extension);
  }

  /** After any stem, an extension the table does not know, in any
      letter case, gives `application/octet-stream`. */
  lemma UnknownExtension(stem: string, extension: string)
    requires extension != [] && extension[0] == '.' && '.' !in extension[1..] && '/' !in extension
    requires ToLower(extension) !in MimeTypes
    ensures GetContentType(stem + extension) == DefaultMime
  {
    ExtOfSuffix(stem, extension);
  }

  lemma ExtOfSuffix(stem: string, extension: string)
    requires extension != [] && extension[0] == '.' && '.' !in extension[1..] && '/' !in extension
    ensures Ext(stem + extension) == extension
  {
    AfterLastAppend(stem, extension, '/');
    LastOccurrence(AfterLast(stem, '/'), extension, '.');
  }

  /** Every reply is read by the web server with the status it stands
      for; a served reply announces a `Content-Length` that parses back to
      the number of body bytes. */
  lemma ServerReadsReply(reply: Reply)
    ensures Status(Lines(reply)) == (if reply.Served? then 200 else reply.code)
    ensures reply.Served? ==>
      && Header(Lines(reply), "Content-Type") == Some(reply.contentType)
      && Header(Lines(reply), "Content-Length").Some?
      && AllDigits(Header(Lines(reply), "Content-Length").value)
      && ParseNat(Header(Lines(reply), "Content-Length").value) == |Body(reply)|
      && Body(reply) == reply.data
    ensures reply.Failure? ==> Body(reply) == [] && Header(Lines(reply), "Content-Length") == None
  {
    match reply
    case Failure(code, reason, message) => ErrorLinesRead(code, reason, message);
    case Served(contentType, data) => SuccessHeadersRead(contentType, |data|);
  }
}
