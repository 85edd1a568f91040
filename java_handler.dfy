/** The Java handler (java/javaCgiParsingService.java): the request URI
    after `/index.cgi` is joined onto the directory of the script with
    `java.io.File`, both paths are canonicalised and compared as strings,
    and the file is copied to standard output through a 4096-byte buffer.

    `java.io.File` is modelled as it behaves on Unix (`/` separator):
    construction normalises the path (no repeated `/`, no trailing `/`),
    `getParent` and `getName` split at the last `/`. `getCanonicalPath`
    consults the live file system and is an oracle that may fail. */
module Java {
  import opened Text
  import opened Cgi

  const BufferSize := 4096

  // ---------------------------------------------------------------------
  // java.io.File on Unix

  /** Drops every `/` that follows another `/`. */
  function Collapse(s: string): (r: string)
    ensures |r| <= |s|
    ensures s != [] ==> r != [] && r[0] == s[0] && r[|r| - 1] == s[|s| - 1]
    ensures NoDoubleSlash(r)
  {
    if |s| < 2 then s
    else if s[0] == '/' && s[1] == '/' then Collapse(s[1..])
    else
      var rest := Collapse(s[1..]);
      assert forall i :: 1 <= i < |rest| ==> ([s[0]] + rest)[i] == rest[i - 1];
      [s[0]] + rest
  }

  /** No `/` directly follows another. */
  predicate NoDoubleSlash(s: string) {
    forall i :: 0 <= i < |s| - 1 ==> !(s[i] == '/' && s[i + 1] == '/')
  }

  /** `UnixFileSystem.normalize`: repeated `/` collapsed, a trailing `/`
      removed unless the path is `/` itself. */
  function Normalize(path: string): (r: string)
    ensures path != [] ==> r != [] && r[0] == path[0]
    ensures |r| > 1 ==> r[|r| - 1] != '/'
    ensures path != [] && path[|path| - 1] != '/' ==> r[|r| - 1] == path[|path| - 1]
    ensures NoDoubleSlash(r)
  {
    var c := Collapse(path);
    if |c| > 1 && c[|c| - 1] == '/' then
      NormalizeTail(path);
      c[..|c| - 1]
    else c
  }

  /** After collapsing, at most one `/` ends the path. */
  lemma {:induction false} CollapseTail(s: string)
    requires |Collapse(s)| > 1 && Collapse(s)[|Collapse(s)| - 1] == '/'
    ensures Collapse(s)[|Collapse(s)| - 2] != '/'
  {
    if |s| >= 2 {
      if s[0] == '/' && s[1] == '/' {
        CollapseTail(s[1..]);
      } else if |Collapse(s[1..])| > 1 {
        CollapseTail(s[1..]);
      } else {
        assert s[0] != '/';
      }
    }
  }

  lemma NormalizeTail(path: string)
    requires |Collapse(path)| > 1 && Collapse(path)[|Collapse(path)| - 1] == '/'
    ensures var c := Collapse(path); |c[..|c| - 1]| > 1 ==> c[|c| - 2] != '/'
  {
    CollapseTail(path);
  }

  /** `UnixFileSystem.resolve(parent, child)` for normalised strings: a
      leading `/` of the child does not make it absolute, so the result
      starts with the parent and ends with the child. */
  function Resolve(parent: string, child: string): (r: string)
    ensures parent != [] ==> StartsWith(r, parent)
    ensures EndsWith(r, child)
    ensures child == [] ==> r == parent
    ensures parent != "/" && child != [] ==> StartsWith(r, parent + "/") && |r| <= |parent| + 1 + |child|
  {
    if child == [] then parent
    else if child[0] == '/' then
      if parent == "/" then
        assert child[..1] == "/";
        child
      else
        assert (parent + child)[..|parent|] == parent;
        assert (parent + child)[..|parent| + 1] == parent + "/";
        parent + child
    else if parent == "/" then
      assert (parent + child)[..1] == "/";
      parent + child
    else
      assert (parent + "/" + child)[..|parent|] == parent;
      assert (parent + "/" + child)[..|parent| + 1] == parent + "/";
      assert (parent + "/" + child)[|parent| + 1..] == child;
      parent + "/" + child
  }

  /** `new File(parent, child).getPath()`; a null parent is None. The
      path starts with the normalised parent and ends with the normalised
      child, and an empty child names the parent itself. */
  function FilePath(parent: Option<string>, child: string): (r: string)
    ensures parent.Some? && parent.value != [] ==>
      && StartsWith(r, Normalize(parent.value))
      && EndsWith(r, Normalize(child))
      && (Normalize(child) == [] ==> r == Normalize(parent.value))
      && (Normalize(parent.value) != "/" && child != [] ==> StartsWith(r, Normalize(parent.value) + "/"))
    ensures parent.None? ==> r == Normalize(child)
  {
    match parent
    case None => Normalize(child)
    case Some(p) =>
      if p == [] then Resolve("/", Normalize(child))
      else Resolve(Normalize(p), Normalize(child))
  }

  /** `getParent()` of a normalised path: the text before the last `/`,
      `/` for a top-level absolute path, null when there is no `/` to cut
      at. */
  function Parent(path: string): (r: Option<string>)
    ensures r.Some? ==> r.value != [] && StartsWith(path, r.value)
    ensures r.None? <==> '/' !in path || path == "/"
  {
    var prefixLength := if path != [] && path[0] == '/' then 1 else 0;
    match LastIndexOf(path, '/')
    case None => None
    case Some(i) =>
      if i < prefixLength then
        (if |path| > prefixLength then Some("/") else None)
      else Some(path[..i])
  }

  /** `getName()`: the text after the last `/`. */
  function Name(path: string): (r: string)
    ensures '/' !in r && EndsWith(path, r)
    ensures '/' in path ==> |r| < |path| && path[|path| - |r| - 1] == '/'
    ensures '/' !in path ==> r == path
  {
    AfterLast(path, '/')
  }

  /** `getParent()` and `getName()` split a path at its last `/`: the
      parent, a `/` and the name give the path back (the `/` of a
      top-level path is the parent itself). */
  lemma ParentName(path: string)
    requires Parent(path).Some?
    ensures var parent := Parent(path).value;
      || path == parent + "/" + Name(path)
      || (parent == "/" && path == parent + Name(path))
  {
    var i := LastIndexOf(path, '/').value;
    assert Name(path) == path[i + 1..];
    if i == 0 && path[0] == '/' {
      assert path == "/" + path[1..];
    } else {
      assert path == path[..i] + "/" + path[i + 1..];
    }
  }

  // ---------------------------------------------------------------------
  // The handler's own steps

  /** Step 3: `/` is served as `index.html` of the web root; every other
      target, the empty one included, is joined onto the web root. */
  function CandidateFile(webRoot: Option<string>, target: string): (r: string)
    ensures webRoot.Some? && webRoot.value != [] ==> StartsWith(r, Normalize(webRoot.value))
    ensures webRoot.Some? && webRoot.value != [] && Normalize(webRoot.value) != "/" && target != [] ==>
      StartsWith(r, Normalize(webRoot.value) + "/")
  {
    FilePath(webRoot, if target == "/" then "index.html" else target)
  }

  /** `getContentType`: the table entry for the lower-cased suffix from
      the last `.`, when that dot is not the first character. */
  function GetContentType(fileName: string): (r: string)
    ensures r == DefaultMime || r in MimeTypes.Values
    ensures (forall i :: 0 < i < |fileName| ==> fileName[i] != '.') ==> r == DefaultMime
  {
    match LastIndexOf(fileName, '.')
    case None => DefaultMime
    case Some(d) =>
      var extension := ToLower(fileName[d..]);
      if d > 0 && extension in MimeTypes then MimeTypes[extension] else DefaultMime
  }

  /** What one run of `main` answers. */
  datatype Reply =
    | Failure(code: nat, reason: string, message: string)
    | Served(contentType: string, data: seq<byte>)
      /** `new File(null)` throws an unchecked exception that nothing
          catches: the process dies before printing anything. */
    | Aborted

  /** `exists() && canRead() && isFile()`: a missing path, a directory
      and a special file are never served. */
  predicate IsServable(fs: FileSystem, path: string)
    ensures IsServable(fs, path) ==> path in fs && fs[path].File? && fs[path].readable
    ensures path !in fs || fs[path].Directory? || !fs[path].regular ==> !IsServable(fs, path)
  {
    path in fs && fs[path].File? && fs[path].regular && fs[path].readable
  }

  /** The decision chain of `main`: the two environment checks, then
      the path work of `Decide`. */
  function Respond(requestUri: Option<string>, scriptFileName: Option<string>,
                   fs: FileSystem, canonical: string -> Option<string>): (r: Reply)
    ensures r.Failure? ==> r.code == 500 || r.code == 403 || r.code == 404
    ensures requestUri.None? || scriptFileName.None? ==> r.Failure? && r.code == 500
  {
    if requestUri.None? then
      Failure(500, ServerError, "REQUEST_URI environment variable is not set.")
    else if scriptFileName.None? then
      Failure(500, ServerError, "SCRIPT_FILENAME environment variable is not set.")
    else
      Decide(Parent(Normalize(scriptFileName.value)), TargetPath(requestUri.value), fs, canonical)
  }

  /** Steps 3 to 6 of `main` for a web root (null when the script path
      has no parent) and a target path. */
  function Decide(webRoot: Option<string>, target: string,
                  fs: FileSystem, canonical: string -> Option<string>): (r: Reply)
    ensures r.Failure? ==> r.code == 500 || r.code == 403 || r.code == 404
    ensures r.Aborted? ==> webRoot.None?
  {
    var file := CandidateFile(webRoot, target);
    match canonical(file)
    case None => Failure(500, ServerError, "Failed to resolve file path.")
    case Some(canonicalPath) =>
      if webRoot.None? then Aborted
      else
        match canonical(Normalize(webRoot.value))
        case None => Failure(500, ServerError, "Failed to resolve file path.")
        case Some(canonicalRoot) =>
          if !StartsWith(canonicalPath, canonicalRoot) then
            Failure(403, "Forbidden", "Access denied. Path traversal attempt detected.")
          else Deliver(file, fs)
  }

  /** Steps 5 and 6 of `main`: the existence check, then the file. */
  function Deliver(file: string, fs: FileSystem): (r: Reply)
    ensures r.Served? <==> IsServable(fs, file)
    ensures !r.Served? ==> r.Failure? && r.code == 404
  {
    if !IsServable(fs, file) then
      Failure(404, "Not Found", "The requested resource was not found on this server.")
    else
      Served(GetContentType(Name(file)), fs[file].data)
  }

  /** The text lines a reply prints. */
  function Lines(reply: Reply): seq<string> {
    match reply
    case Failure(code, reason, message) => ErrorLines(code, reason, message)
    case Served(contentType, data) => SuccessHeaders(contentType, |data|)
    case Aborted => []
  }

  /** The bytes a reply writes after its lines. */
  function Body(reply: Reply): seq<byte> {
    if reply.Served? then reply.data else []
  }

  // ---------------------------------------------------------------------
  // The program, step by step

  /** Step 7: the `in.read(buffer)` / `out.write(buffer, 0, bytesRead)`
      loop. A read may return fewer bytes than the buffer holds; whatever
      it returns is written, so the bytes written so far are always a
      prefix of the file and all of it at end of file. */
  method CopyStream(data: seq<byte>, out: Output)
    modifies out
    ensures out.body == old(out.body) + data
    ensures out.lines == old(out.lines)
  {
    var buffer := new byte[BufferSize];
    var position := 0;
    while position < |data|
      invariant position <= |data|
      invariant out.body == old(out.body) + data[..position]
      invariant out.lines == old(out.lines)
      decreases |data| - position
    {
      var bytesRead :| 0 < bytesRead <= buffer.Length && bytesRead <= |data| - position;
      forall i | 0 <= i < bytesRead {
        buffer[i] := data[position + i];
      }
      assert buffer[..bytesRead] == data[position..position + bytesRead];
      out.Write(buffer, bytesRead);
      assert data[..position + bytesRead] == data[..position] + data[position..position + bytesRead];
      position := position + bytesRead;
    }
    assert data[..position] == data;
  }

  /** `main`: everything it prints is what `Respond` decides. */
  method Handle(requestUri: Option<string>, scriptFileName: Option<string>,
                fs: FileSystem, canonical: string -> Option<string>, out: Output)
    modifies out
    ensures var reply := Respond(requestUri, scriptFileName, fs, canonical);
      out.lines == old(out.lines) + Lines(reply) && out.body == old(out.body) + Body(reply)
  {
    if requestUri.None? {
      out.SendErrorResponse(500, ServerError, "REQUEST_URI environment variable is not set.");
      return;
    }
    var targetPath: string;
    var cgiIndex := IndexOf(requestUri.value, Marker);
    if cgiIndex.Some? {
      targetPath := requestUri.value[cgiIndex.value + |Marker|..];
    } else {
      targetPath := "/";
    }
    assert targetPath == TargetPath(requestUri.value);

    if scriptFileName.None? {
      out.SendErrorResponse(500, ServerError, "SCRIPT_FILENAME environment variable is not set.");
      return;
    }
    var webRoot := Parent(Normalize(scriptFileName.value));
    Serve(webRoot, targetPath, fs, canonical, out);
  }

  /** Steps 3 to 7 of `main`, as `Decide` describes them. */
  method Serve(webRoot: Option<string>, targetPath: string,
               fs: FileSystem, canonical: string -> Option<string>, out: Output)
    modifies out
    ensures var reply := Decide(webRoot, targetPath, fs, canonical);
      out.lines == old(out.lines) + Lines(reply) && out.body == old(out.body) + Body(reply)
  {
    var targetFile: string;
    if targetPath == "/" {
      targetFile := FilePath(webRoot, "index.html");
    } else {
      targetFile := FilePath(webRoot, targetPath);
    }

    var canonicalPath := canonical(targetFile);
    if canonicalPath.None? {
      out.SendErrorResponse(500, ServerError, "Failed to resolve file path.");
      return;
    }
    if webRoot.None? {
      // `new File(null)` throws before anything is printed.
      assert out.body == old(out.body) + [];
      return;
    }
    var canonicalRoot := canonical(Normalize(webRoot.value));
    if canonicalRoot.None? {
      out.SendErrorResponse(500, ServerError, "Failed to resolve file path.");
      return;
    }
    if !StartsWith(canonicalPath.value, canonicalRoot.value) {
      out.SendErrorResponse(403, "Forbidden", "Access denied. Path traversal attempt detected.");
      return;
    }

    SendFile(targetFile, fs, out);
  }

  /** Steps 5 to 7 of `main`, as `Deliver` describes them. */
  method SendFile(targetFile: string, fs: FileSystem, out: Output)
    modifies out
    ensures var reply := Deliver(targetFile, fs);
      out.lines == old(out.lines) + Lines(reply) && out.body == old(out.body) + Body(reply)
  {
    if !(targetFile in fs && fs[targetFile].File? && fs[targetFile].readable && fs[targetFile].regular) {
      out.SendErrorResponse(404, "Not Found", "The requested resource was not found on this server.");
      return;
    }

    var contentType := GetContentType(Name(targetFile));
    var contents := fs[targetFile].data;
    out.SendSuccessHeaders(contentType, |contents|);
    CopyStream(contents, out);
  }

  // ---------------------------------------------------------------------
  // Properties

  /** A missing `REQUEST_URI` yields a single 500 page, whatever the
      script location and the file system: `SCRIPT_FILENAME` is never
      consulted. */
  lemma MissingRequestUri(scriptFileName: Option<string>, fs: FileSystem,
                          canonical: string -> Option<string>,
                          otherScript: Option<string>, otherFs: FileSystem,
                          otherCanonical: string -> Option<string>)
    ensures var reply := Respond(None, scriptFileName, fs, canonical);
      && reply == Respond(None, otherScript, otherFs, otherCanonical)
      && Status(Lines(reply)) == 500 && Body(reply) == []
  {
    ErrorLinesRead(500, ServerError, "REQUEST_URI environment variable is not set.");
  }

  /** Only `/` maps to `index.html`; every other target, the empty one
      included, is joined below the web root with a leading `/` read as
      relative. The empty target names the web root itself. */
  lemma CandidateFileShape(webRoot: string, target: string)
    requires webRoot != []
    ensures var root := Normalize(webRoot);
      && CandidateFile(Some(webRoot), "/") == (if root == "/" then "/index.html" else root + "/index.html")
      && StartsWith(CandidateFile(Some(webRoot), target), root)
      && (root != "/" && target != [] ==> StartsWith(CandidateFile(Some(webRoot), target), root + "/"))
      && CandidateFile(Some(webRoot), "") == root
  {
    NormalizeWithoutSlash("index.html");
    assert Normalize("") == "";
    ResolveIndexHtml(Normalize(webRoot));
  }

  lemma ResolveIndexHtml(root: string)
    ensures Resolve(root, "index.html") == (if root == "/" then "/index.html" else root + "/index.html")
  {
    if root != "/" {
      assert Resolve(root, "index.html") == root + "/" + "index.html";
      assert root + "/" + "index.html" == root + "/index.html";
    }
  }

  lemma {:induction false} CollapseWithoutSlash(s: string)
    requires '/' !in s
    ensures Collapse(s) == s
  {
    if |s| >= 2 {
      assert s[0] != '/' && '/' !in s[1..];
      CollapseWithoutSlash(s[1..]);
    }
  }

  lemma NormalizeWithoutSlash(s: string)
    requires '/' !in s
    ensures Normalize(s) == s
  {
    CollapseWithoutSlash(s);
  }

  /** A URI that ends with its first `/index.cgi` does not get the home
      page: its empty target names the web root itself, which is no
      regular file, so the answer is 404. */
  lemma TrailingMarkerNotFound(prefix: string, scriptFileName: string, webRoot: string,
                               fs: FileSystem, canonical: string -> Option<string>)
    requires forall j: nat :: j < |prefix| ==> !OccursAt(prefix + Marker, Marker, j)
    requires Parent(Normalize(scriptFileName)) == Some(webRoot)
    requires canonical(Normalize(webRoot)).Some?
    requires Normalize(webRoot) in fs ==> fs[Normalize(webRoot)].Directory?
    ensures Respond(Some(prefix + Marker), Some(scriptFileName), fs, canonical)
      == Failure(404, "Not Found", "The requested resource was not found on this server.")
  {
    TargetPathAtEnd(prefix);
    assert Respond(Some(prefix + Marker), Some(scriptFileName), fs, canonical)
      == Decide(Some(webRoot), [], fs, canonical);
    EmptyTargetNotFound(webRoot, fs, canonical);
  }

  lemma EmptyTargetNotFound(webRoot: string, fs: FileSystem, canonical: string -> Option<string>)
    requires webRoot != [] && canonical(Normalize(webRoot)).Some?
    requires Normalize(webRoot) in fs ==> fs[Normalize(webRoot)].Directory?
    ensures Decide(Some(webRoot), [], fs, canonical)
      == Failure(404, "Not Found", "The requested resource was not found on this server.")
  {
    EmptyTargetIsWebRoot(webRoot);
    var root := Normalize(webRoot);
    var c := canonical(root).value;
    assert StartsWith(c, c);
    assert Decide(Some(webRoot), [], fs, canonical) == Deliver(root, fs);
  }

  /** The empty target names the web root itself. */
  lemma EmptyTargetIsWebRoot(webRoot: string)
    requires webRoot != []
    ensures CandidateFile(Some(webRoot), []) == Normalize(webRoot)
  {
    assert Collapse([]) == [];
    assert Normalize([]) == [];
  }

  /** When the canonical target does not start with the canonical web
      root the answer is 403, decided before, and independently of, any
      existence check; a failing canonicalisation answers 500 instead. */
  lemma TraversalDenied(requestUri: string, scriptFileName: string,
                        fs: FileSystem, otherFs: FileSystem,
                        canonical: string -> Option<string>)
    requires var webRoot := Parent(Normalize(scriptFileName));
      && webRoot.Some?
      && canonical(CandidateFile(webRoot, TargetPath(requestUri))).Some?
      && canonical(Normalize(webRoot.value)).Some?
      && !StartsWith(canonical(CandidateFile(webRoot, TargetPath(requestUri))).value,
                     canonical(Normalize(webRoot.value)).value)
    ensures var reply := Respond(Some(requestUri), Some(scriptFileName), fs, canonical);
      && reply == Failure(403, "Forbidden", "Access denied. Path traversal attempt detected.")
      && reply == Respond(Some(requestUri), Some(scriptFileName), otherFs, canonical)
      && Status(Lines(reply)) == 403 && Body(reply) == []
  {
    ErrorLinesRead(403, "Forbidden", "Access denied. Path traversal attempt detected.");
  }

  /** With a request URI present, a missing `SCRIPT_FILENAME` gives its
      own 500 page, whatever the file system and the canonicalisation. */
  lemma MissingScriptFileName(requestUri: string, fs: FileSystem,
                              canonical: string -> Option<string>,
                              otherFs: FileSystem, otherCanonical: string -> Option<string>)
    ensures var reply := Respond(Some(requestUri), None, fs, canonical);
      && reply == Failure(500, ServerError, "SCRIPT_FILENAME environment variable is not set.")
      && reply == Respond(Some(requestUri), None, otherFs, otherCanonical)
      && Status(Lines(reply)) == 500 && Body(reply) == []
  {
    ErrorLinesRead(500, ServerError, "SCRIPT_FILENAME environment variable is not set.");
  }

  /** An `IOException` from either `getCanonicalPath` gives the 500
      "Failed to resolve file path." page, before any existence check;
      the target's failure comes first, even without a web root. */
  lemma CanonicalFailure(webRoot: Option<string>, target: string, fs: FileSystem,
                         otherFs: FileSystem, canonical: string -> Option<string>)
    requires var file := CandidateFile(webRoot, target);
      || canonical(file).None?
      || (canonical(file).Some? && webRoot.Some? && canonical(Normalize(webRoot.value)).None?)
    ensures var reply := Decide(webRoot, target, fs, canonical);
      && reply == Failure(500, ServerError, "Failed to resolve file path.")
      && reply == Decide(webRoot, target, otherFs, canonical)
  {
  }

  /** A null web root (a script path without a parent) makes
      `new File(webRoot)` throw once the target has been canonicalised:
      nothing at all is printed. */
  lemma NullWebRootAborts(target: string, fs: FileSystem, canonical: string -> Option<string>)
    requires canonical(CandidateFile(None, target)).Some?
    ensures var reply := Decide(None, target, fs, canonical);
      reply == Aborted && Lines(reply) == [] && Body(reply) == []
  {
  }

  /** A script path without a `/`, and the root `/` itself, have no
      parent directory. */
  lemma NoParent(scriptFileName: string)
    requires '/' !in scriptFileName || Normalize(scriptFileName) == "/"
    ensures Parent(Normalize(scriptFileName)).None?
  {
    if '/' !in scriptFileName {
      NormalizeWithoutSlash(scriptFileName);
    } else {
      assert LastIndexOf("/", '/') == Some(0);
    }
  }

  /** The converse of NoParent for an ordinary script: an absolute path
      that does not end in `/` always has a web root, so the run never
      aborts. */
  lemma ScriptHasParent(scriptFileName: string)
    requires |scriptFileName| > 1 && scriptFileName[0] == '/'
    requires scriptFileName[|scriptFileName| - 1] != '/'
    ensures Parent(Normalize(scriptFileName)).Some?
  {
    var path := Normalize(scriptFileName);
    assert path[0] == '/' && path[|path| - 1] != '/';
  }

  /** The script `/var/apps/app/ui/index.cgi` has the web root
      `/var/apps/app/ui`. */
  lemma ScriptParentExample()
    ensures Parent(Normalize("/var/apps/app/ui/index.cgi")) == Some("/var/apps/app/ui")
  {
    var dir, name := "/var/apps/app/ui", "/index.cgi";
    assert dir + name == "/var/apps/app/ui/index.cgi";
    NormalizeIdentity(dir + name);
    LastOccurrence(dir, name, '/');
    assert (dir + name)[..|dir|] == dir;
  }

  /** An absolute target below a web root that is already normal is
      appended to the root as it stands: `/` is the only separator
      between the two. */
  lemma CandidateFileBelowRoot(root: string, target: string)
    requires |root| > 1 && root[|root| - 1] != '/' && NoDoubleSlash(root)
    requires |target| > 1 && target[0] == '/' && target[|target| - 1] != '/' && NoDoubleSlash(target)
    ensures CandidateFile(Some(root), target) == root + target
  {
    NormalizeIdentity(root);
    NormalizeIdentity(target);
  }

  /** Once the canonical prefix check has passed, a joined path that is
      missing, unreadable or not a regular file is a 404, whatever its
      extension. */
  lemma NotFoundAfterPrefix(webRoot: string, target: string, fs: FileSystem,
                            canonical: string -> Option<string>)
    requires var file := CandidateFile(Some(webRoot), target);
      && canonical(file).Some? && canonical(Normalize(webRoot)).Some?
      && StartsWith(canonical(file).value, canonical(Normalize(webRoot)).value)
      && !IsServable(fs, file)
    ensures var reply := Decide(Some(webRoot), target, fs, canonical);
      && reply == Failure(404, "Not Found", "The requested resource was not found on this server.")
      && Status(Lines(reply)) == 404 && Body(reply) == []
  {
    ErrorLinesRead(404, "Not Found", "The requested resource was not found on this server.");
  }

  /** A file is served only after every check has passed: both
      environment variables are set, the canonical target starts with the
      canonical web root, and the joined path is an existing, readable,
      regular file; the body is that file's contents. Conversely, when all
      of this holds the file is served. */
  lemma ServedExactlyWhenChecksPass(requestUri: Option<string>, scriptFileName: Option<string>,
                                    fs: FileSystem, canonical: string -> Option<string>)
    ensures var reply := Respond(requestUri, scriptFileName, fs, canonical);
      reply.Served? <==>
        && requestUri.Some? && scriptFileName.Some?
        && var webRoot := Parent(Normalize(scriptFileName.value));
           var file := CandidateFile(webRoot, TargetPath(requestUri.value));
           && webRoot.Some?
           && canonical(file).Some?
           && canonical(Normalize(webRoot.value)).Some?
           && StartsWith(canonical(file).value, canonical(Normalize(webRoot.value)).value)
           && IsServable(fs, file)
           && reply.data == fs[file].data
           && reply.contentType == GetContentType(Name(file))
  {
  }

  /** The containment test is a string prefix, not a directory test: a
      canonical target in a sibling directory whose name merely extends
      the web root's (`root + "2/secret"`) passes it and is served. */
  lemma PrefixCheckAdmitsSibling(requestUri: string, scriptFileName: string, fs: FileSystem,
                                 canonical: string -> Option<string>, canonicalRoot: string,
                                 sibling: string)
    requires var webRoot := Parent(Normalize(scriptFileName));
      var file := CandidateFile(webRoot, TargetPath(requestUri));
      && webRoot.Some?
      && canonical(Normalize(webRoot.value)) == Some(canonicalRoot)
      && canonical(file) == Some(canonicalRoot + sibling)
      && IsServable(fs, file)
    ensures var file := CandidateFile(Parent(Normalize(scriptFileName)), TargetPath(requestUri));
      Respond(Some(requestUri), Some(scriptFileName), fs, canonical)
        == Served(GetContentType(Name(file)), fs[file].data)
  {
    assert (canonicalRoot + sibling)[..|canonicalRoot|] == canonicalRoot;
  }

  /** A path without repeated or trailing `/` is already normal. */
  lemma {:induction false} CollapseIdentity(s: string)
    requires NoDoubleSlash(s)
    ensures Collapse(s) == s
  {
    if |s| >= 2 {
      CollapseIdentity(s[1..]);
    }
  }

  lemma NormalizeIdentity(s: string)
    requires NoDoubleSlash(s)
    requires |s| > 1 ==> s[|s| - 1] != '/'
    ensures Normalize(s) == s
  {
    CollapseIdentity(s);
  }

  /** Every reply except an abort is read by the web server with the
      status it stands for; a served reply announces a `Content-Length`
      that parses back to the number of body bytes. */
  lemma ServerReadsReply(reply: Reply)
    requires !reply.Aborted?
    ensures Status(Lines(reply)) == (if reply.Served? then 200 else reply.code)
    ensures reply.Served? ==>
      && Header(Lines(reply), "Content-Type") == Some(reply.contentType)
      && Header(Lines(reply), "Content-Length").Some?
      && AllDigits(Header(Lines(reply), "Content-Length").value)
      && ParseNat(Header(Lines(reply), "Content-Length").value) == |Body(reply)|
      && Body(reply) == reply.data
  {
    match reply
    case Failure(code, reason, message) => ErrorLinesRead(code, reason, message);
    case Served(contentType, data) => SuccessHeadersRead(contentType, |data|);
  }

  /** A known extension after a non-empty stem selects its table entry,
      in any letter case. */
  lemma KnownExtension(stem: string, extension: string)
    requires stem != [] && ToLower(extension) in MimeTypes
    ensures GetContentType(stem + extension) == MimeTypes[ToLower(extension)]
  {
    MimeKeysShape(ToLower(extension));
    LowerDotShape(extension);
    LastOccurrence(stem, extension, '.');
  }

  /** After a non-empty stem, an extension the table does not know, in
      any letter case, gives `application/octet-stream`. */
  lemma UnknownExtension(stem: string, extension: string)
    requires stem != [] && extension != [] && extension[0] == '.' && '.' !in extension[1..]
    requires ToLower(extension) !in MimeTypes
    ensures GetContentType(stem + extension) == DefaultMime
  {
    LastOccurrence(stem, extension, '.');
  }
}
