# CGI static-file handlers, modelled in Dafny

The repository ships three interchangeable CGI programs: one in Java, one
in Go and one in Python. A web server runs one of them for a request
below `…/index.cgi/…`, and the program answers with a file from the
application's `ui` directory. Each program:

- reads `REQUEST_URI` (and, in Java and Go, `SCRIPT_FILENAME`) from the
  environment;
- cuts the URI at `index.cgi`;
- maps the rest onto a directory on disk;
- refuses path traversal in its own way;
- prints CGI header lines (`Status:`, `Content-Type:`, `Content-Length:`),
  a blank line, then the file's bytes or an error page.

The project models each program as a decision function over its inputs.
`Respond` returns a `Reply`, and `Lines` and `Body` say what that reply
prints. Each program also has an imperative `Handle` method that writes,
step by step, into an `Output` object holding the printed lines and the
bytes after them. Each `Handle` is proved to print exactly
`Lines(Respond(…))` followed by `Body(Respond(…))`.

The properties are stated about `Respond`:

- when each error status is answered;
- when a file is served, and with which contents;
- what the traversal checks do and do not guarantee;
- how the content type follows the extension.

A small model of the web server's side (`Cgi.Status`, `Cgi.Header`,
`Cgi.Document`) reads the printed header lines back. It proves that every
reply, except Java's `Aborted` (which prints nothing), is understood with
the status it stands for. For Java and Go it
also proves that the announced `Content-Length` parses back to the number
of body bytes.

Modules:

- `Text`: substring search, ASCII lower-casing, and decimal printing and
  parsing.
- `Cgi`: the file system, the shared MIME table, the target-path
  extraction, the error page, the server's reading of header lines, and
  the `Output` class.
- `GoPath`: the lexical functions of Go's `path/filepath` that the Go
  program calls (`Clean`, `Dir`, `Join`, `Abs`, `Base`, `Ext`) on a `/`
  separator.
- `Java`, `Go`, `Python`: one module per program.

Environment and operating-system access are parameters:

- An environment variable is an `Option<string>`.
- The file system is a `map` from the path string handed to the OS to a
  `Node`. A node is a directory or a file. A file has a regular-file
  flag, a readable flag and its bytes.
- Java's `getCanonicalPath` is an oracle `string -> Option<string>`
  (None is an `IOException`).
- Go's `os.Getwd`, which `filepath.Abs` consults, is `cwd: Option<string>`.

## Model

| member | source | states |
|---|---|---|
| Cgi.TargetPath | java/javaCgiParsingService.java:45-56 | The target is `/` when the URI holds no `/index.cgi`. Otherwise it is a suffix of the URI that directly follows an occurrence of the marker. The Go program does the same at go/goCgiParsingService.go:44-52. |
| Cgi.TargetPathAfterFirstMarker | go/goCgiParsingService.go:44-52 | The target is exactly the text after the first `/index.cgi`. Later occurrences and a query string stay in it. |
| Cgi.TargetPathAtEnd | java/javaCgiParsingService.java:47-52 | A URI ending in its first `/index.cgi` gives the empty target, not `/`. |
| Cgi.ErrorLinesRead | java/javaCgiParsingService.java:145-156 | An error page is read back with the given status code, an HTML content type and no length. Its document holds the status heading and the message paragraph. |
| Cgi.SuccessHeadersRead | java/javaCgiParsingService.java:99-102 | The success headers are read back as status 200 with the given content type. The `Content-Length` value is all digits and parses back to the length. Nothing follows the blank line. |
| Cgi.Output.SendErrorResponse | java/javaCgiParsingService.java:145-156 | Appends exactly the ten lines of the error page and writes no body byte. |
| Cgi.Output.SendSuccessHeaders | java/javaCgiParsingService.java:100-102 | Appends the `Content-Type` line, the `Content-Length` line and the blank line. |
| Cgi.Output.Write | java/javaCgiParsingService.java:111 | Appends the first `n` bytes of the buffer to the body and prints no line. |
| Cgi.Output.WriteAll | go/goCgiParsingService.go:113 | Appends the whole byte string to the body and prints no line. |
| Text.IndexOf | java/javaCgiParsingService.java:47 | `indexOf` and `strings.Index`: the index of an occurrence with none before it, and None exactly when the pattern does not occur. |
| Text.After | python/python_cgi_index.py:38 | The second part of `split(p, 1)`: text that follows an occurrence of `p`, and None exactly when `p` does not occur. |
| Text.Before | python/python_cgi_index.py:30 | The first part of `split(p, 1)`: a prefix before which `p` does not occur, followed by `p` when `p` occurs, and the whole string otherwise. |
| Text.ToLower | java/javaCgiParsingService.java:131 | Lower-casing keeps the length and maps each character by itself. |
| Text.ParseNatToString | java/javaCgiParsingService.java:101 | Printing a length in decimal and parsing it back gives the length. |
| Java.Normalize | java/javaCgiParsingService.java:67 | `new File(path)` collapses repeated `/`: no `/` of the result follows another. It keeps the first character of a non-empty path, and the last one when that is not `/`. The result does not end in `/` unless it is `/`. |
| Java.NormalizeIdentity | java/javaCgiParsingService.java:67 | A path with no repeated `/` and no trailing `/` is left unchanged. |
| Java.Parent | java/javaCgiParsingService.java:68 | `getParent` returns a non-empty prefix of the path. It returns null exactly when the path has no `/` or is `/` itself. |
| Java.Name | java/javaCgiParsingService.java:99 | `getName` returns the suffix of the path after its last `/`: it holds no `/`, and the character before it is `/` when the path has one. A path without `/` is its own name. |
| Java.ParentName | java/javaCgiParsingService.java:59-68 | The parent, a `/` and the name give the path back, with the `/` of a top-level path being the parent itself. The web root is therefore the script's directory. |
| Java.NoParent | java/javaCgiParsingService.java:67-68 | A script path without `/`, or one that normalises to `/`, has no parent. |
| Java.ScriptHasParent | java/javaCgiParsingService.java:67-68 | An absolute script path that does not end in `/` always has a parent, so such a script gets a web root and the run does not abort. |
| Java.ScriptParentExample | java/javaCgiParsingService.java:67-68 | The script `/var/apps/app/ui/index.cgi` has the web root `/var/apps/app/ui`. |
| Java.Resolve | java/javaCgiParsingService.java:73-76 | Resolving a child against a non-empty parent gives a path that starts with the parent and ends with the child. Unless the parent is `/`, a non-empty child lies below `parent + "/"`, and at most the one `/` is added. An empty child gives the parent. |
| Java.FilePath | java/javaCgiParsingService.java:73-76 | `new File(parent, child)` starts with the normalised parent and ends with the normalised child. A leading `/` of the child does not make it absolute. Unless the parent is `/`, a non-empty child lies below the normalised parent followed by `/`. An empty child gives the parent. |
| Java.CandidateFile | java/javaCgiParsingService.java:70-77 | The candidate file starts with the normalised web root. For a non-empty target and a web root other than `/`, it starts with the normalised web root followed by `/`. |
| Java.CandidateFileShape | java/javaCgiParsingService.java:70-77 | Target `/` maps to `index.html` in the web root. Every other non-empty target is joined below the web root followed by `/`. The empty target names the web root itself. |
| Java.CandidateFileBelowRoot | java/javaCgiParsingService.java:70-77 | For a web root and an absolute target that are already normal, the candidate is the root followed directly by the target. |
| Java.GetContentType | java/javaCgiParsingService.java:128-137 | The result is a table entry or `application/octet-stream`. A name with no `.` after its first character gets the default. |
| Java.KnownExtension | java/javaCgiParsingService.java:128-137 | After a non-empty stem, a known extension selects its table entry in any ASCII letter case. |
| Java.UnknownExtension | java/javaCgiParsingService.java:128-137 | After a non-empty stem, an extension the table does not know, in any letter case, gives `application/octet-stream`. |
| Java.Respond | java/javaCgiParsingService.java:35-120 | `main`'s decision: every failure is a 500, 403 or 404. A missing environment variable is a 500. |
| Java.Decide | java/javaCgiParsingService.java:67-119 | Steps 3 to 7: every failure is a 500, 403 or 404. An abort happens only without a web root. |
| Java.Deliver | java/javaCgiParsingService.java:92-119 | A file is served exactly when it is servable. Otherwise the answer is a 404. |
| Java.IsServable | java/javaCgiParsingService.java:93 | A missing path, a directory and a special file are never servable. A servable path is a readable file. |
| Java.CopyStream | java/javaCgiParsingService.java:105-113 | The 4096-byte read/write loop writes exactly the file's bytes, for any read sizes, and prints no line. |
| Java.Handle | java/javaCgiParsingService.java:35-120 | `main` prints exactly `Lines(Respond(…))` and then writes exactly `Body(Respond(…))`. |
| Java.Serve | java/javaCgiParsingService.java:70-119 | Steps 3 to 7 print exactly what `Decide` answers for the web root and the target. |
| Java.SendFile | java/javaCgiParsingService.java:92-119 | The existence, readability and regular-file checks, then the headers and the copy, print exactly what `Deliver` answers. |
| Java.MissingRequestUri | java/javaCgiParsingService.java:37-43 | A missing `REQUEST_URI` gives the same 500 page whatever the other inputs, and no body. |
| Java.MissingScriptFileName | java/javaCgiParsingService.java:62-66 | With a URI present, a missing `SCRIPT_FILENAME` gives its own 500 page whatever the file system and canonicalisation hold, and no body. |
| Java.CanonicalFailure | java/javaCgiParsingService.java:79-90 | A failed `getCanonicalPath` of the target, or of the web root after the target's succeeded, gives the 500 "Failed to resolve file path." page whatever the file system holds. |
| Java.NullWebRootAborts | java/javaCgiParsingService.java:67-82 | Without a web root, once the target has been canonicalised, the run aborts and prints nothing. |
| Java.NotFoundAfterPrefix | java/javaCgiParsingService.java:92-96 | Once the prefix check has passed, a joined path that is not a readable regular file gets a 404 page with no body. |
| Java.TrailingMarkerNotFound | java/javaCgiParsingService.java:47-96 | A URI ending in its first `/index.cgi` is answered 404, because the web root is a directory, not the home page. |
| Java.EmptyTargetNotFound | java/javaCgiParsingService.java:70-96 | For the empty target, the canonical prefix check passes trivially and the existence check answers 404. |
| Java.TraversalDenied | java/javaCgiParsingService.java:79-90 | When the canonical target does not start with the canonical web root, the answer is 403 whatever the file system holds. |
| Java.ServedExactlyWhenChecksPass | java/javaCgiParsingService.java:35-120 | A file is served if and only if: both variables are set, the script path has a parent directory, both paths canonicalise, the canonical prefix test passes, and the joined path is a readable regular file. The body is then that file's bytes and the type follows its name. |
| Java.PrefixCheckAdmitsSibling | java/javaCgiParsingService.java:82 | The containment test is a string prefix: a readable file at canonical root + any suffix, such as a sibling `root2/…`, is served. |
| Java.ServerReadsReply | java/javaCgiParsingService.java:98-102 | Every non-aborted reply is read with its status. A served reply's `Content-Length` parses back to its body length. |
| Go.TrimPrefix | go/goCgiParsingService.go:68 | `strings.TrimPrefix` removes the prefix exactly when the string starts with it, and otherwise returns the string unchanged. |
| Go.Getenv | go/goCgiParsingService.go:36-55 | `os.Getenv` gives a set variable's value. The result is empty exactly when the variable is unset or set to the empty string. |
| Go.GetContentType | go/goCgiParsingService.go:120-126 | The result is a table entry or `application/octet-stream`. A name without an extension gets the default. |
| Go.KnownExtension | go/goCgiParsingService.go:120-126 | After any stem, the empty one included, a known extension selects its entry in any ASCII letter case. |
| Go.UnknownExtension | go/goCgiParsingService.go:120-126 | After any stem, an extension the table does not know, in any letter case, gives `application/octet-stream`. |
| Go.Relative | go/goCgiParsingService.go:64-70 | Target `/` becomes `index.html`. A target starting with `/` loses exactly that `/`. Any other target is kept. |
| Go.CandidateFile | go/goCgiParsingService.go:61-70 | Below a non-empty web root, the candidate is absolute exactly when the web root is. |
| Go.Respond | go/goCgiParsingService.go:34-118 | `main`'s decision: every failure is a 500, 403 or 404. An empty or unset variable is a 500. |
| Go.Decide | go/goCgiParsingService.go:61-117 | Steps 3 to 7: every failure is a 500, 403 or 404. |
| Go.Deliver | go/goCgiParsingService.go:92-117 | A file is served exactly when the path exists, is not a directory and is readable. Every failure is a 404. |
| Go.ExtOfSuffix | go/goCgiParsingService.go:121 | `filepath.Ext` of a name ending in a dot-suffix with no further `.` or `/` is that suffix. |
| Go.Handle | go/goCgiParsingService.go:34-118 | `main` prints exactly `Lines(Respond(…))` and then writes exactly `Body(Respond(…))`. |
| Go.Serve | go/goCgiParsingService.go:61-117 | Steps 3 to 7 print exactly what `Decide` answers. |
| Go.SendFile | go/goCgiParsingService.go:92-117 | `os.Stat`, `os.Open`, the headers and `io.Copy` print exactly what `Deliver` answers. |
| Go.MissingRequestUri | go/goCgiParsingService.go:36-41 | An unset and an empty `REQUEST_URI` give the same 500 page, whatever the other inputs. |
| Go.MissingScriptFileName | go/goCgiParsingService.go:55-59 | An unset and an empty `SCRIPT_FILENAME` give the same 500 page, before any path is examined. |
| Go.CandidateFileShape | go/goCgiParsingService.go:61-70 | Target `/` maps to `index.html` in the web root. A target `/rest` is joined as `rest` and cleaned. |
| Go.EmptyTargetIsWebRoot | go/goCgiParsingService.go:66-69 | The empty target names the cleaned web root. |
| Go.RootErrorUnreachable | go/goCgiParsingService.go:78-82 | The "Failed to resolve web root path." answer never occurs. The candidate is absolute exactly when the web root is, so the first `filepath.Abs` fails whenever the second would. |
| Go.TrailingMarkerNotFound | go/goCgiParsingService.go:44-97 | A URI ending in its first `/index.cgi` is answered 404, because the web root is a directory or missing. |
| Go.TargetUnresolved | go/goCgiParsingService.go:73-77 | When `filepath.Abs` of the candidate fails, the answer is the 500 "Failed to resolve file path." page whatever the file system holds, with no body. |
| Go.TraversalDenied | go/goCgiParsingService.go:84-90 | When the absolute target does not start with the absolute web root, the answer is 403 whatever the file system holds. |
| Go.NoDotDotNeverForbidden | go/goCgiParsingService.go:61-97 | Below an absolute script, a target with no `..` element is never refused and never fails to resolve. The answer is the file or 404. |
| Go.RelativeNoDotDot | go/goCgiParsingService.go:64-70 | Choosing `index.html` or trimming the leading `/` adds no `..` element. |
| Go.AbsoluteCandidate | go/goCgiParsingService.go:73-82 | Below an absolute web root, `filepath.Abs` of the candidate is the candidate itself, and of the web root its cleaned form. |
| Go.ServedBelowWebRoot | go/goCgiParsingService.go:73-113 | Below an absolute script, whatever is served, with `..` in the target or not, is an existing non-directory whose path starts with the web root and has no `.` or `..` element. The body is that file's bytes. |
| Go.ServedExactlyWhenChecksPass | go/goCgiParsingService.go:34-118 | A file is served if and only if: both variables are non-empty, both paths resolve, the prefix test passes, and the absolute target is an existing readable non-directory. The body and type follow that file. |
| Go.NotFoundMessages | go/goCgiParsingService.go:92-103 | After the prefix check, "missing or a directory" and "exists but unreadable" are exactly the two 404 messages. |
| Go.PrefixCheckAdmitsSibling | go/goCgiParsingService.go:87 | The containment test is a string prefix: a readable file at absolute root + any suffix is served. |
| Go.ServerReadsReply | go/goCgiParsingService.go:106-110 | Every reply is read with its status. A served reply's `Content-Length` parses back to its body length. An error page has no length and no body. |
| GoPath.Clean | go/goCgiParsingService.go:65 | The `filepath.Clean` used by `Join` and `Abs` is never empty, and it is absolute exactly when its input is. |
| GoPath.Dir | go/goCgiParsingService.go:61 | `filepath.Dir` is never empty, and it is absolute exactly when its input is. |
| GoPath.DirOfChild | go/goCgiParsingService.go:61 | `filepath.Dir` of `dir/name` is the cleaned `dir`, so the web root is the script's directory. |
| GoPath.CleanTrailingSlash | go/goCgiParsingService.go:61 | A trailing `/` does not change a cleaned non-empty path. |
| GoPath.Join | go/goCgiParsingService.go:65-69 | `filepath.Join` is empty only when both arguments are empty. With a non-empty first argument it is absolute exactly when that argument is. |
| GoPath.Abs | go/goCgiParsingService.go:73-82 | `filepath.Abs` fails exactly for a relative path without a working directory. It is absolute for an absolute path, and for any path once the working directory is absolute. |
| GoPath.Base | go/goCgiParsingService.go:107 | `filepath.Base` is never empty. It is `/`, `.`, or a `/`-free suffix of the path without its trailing `/`. When that trimmed path holds a `/`, the suffix starts right after its last `/`. A trimmed path without `/` is its own base. |
| GoPath.Ext | go/goCgiParsingService.go:121 | `filepath.Ext` is empty or a suffix of the path that starts with `.` and holds no other `.` and no `/`. |
| GoPath.SplitJoin | go/goCgiParsingService.go:65-69 | Joining `/`-free elements with `/` and splitting again gives them back. |
| GoPath.CleanIdempotent | go/goCgiParsingService.go:65-78 | Cleaning a cleaned path changes nothing. |
| GoPath.DirClean | go/goCgiParsingService.go:61 | `filepath.Dir` returns a clean path. |
| GoPath.CleanAbsoluteElements | go/goCgiParsingService.go:73 | A cleaned absolute path has no empty, `.` or `..` element after the leading `/`. |
| GoPath.ReduceWithoutDotDot | go/goCgiParsingService.go:69 | Cleaning elements with no `..` only drops the empty and `.` ones: it never removes what came before. |
| GoPath.JoinBelow | go/goCgiParsingService.go:69 | Joining a path with no `..` element onto an absolute directory gives a path that starts with the cleaned directory. |
| Python.StripQuery | python/python_cgi_index.py:29-30 | The path is a prefix of the URI without `?`. A URI without `?` is kept whole. |
| Python.RelPath | python/python_cgi_index.py:32-42 | The final `REL_PATH` is never empty and never `/`. |
| Python.TargetFile | python/python_cgi_index.py:44-45 | The target path always starts with `BASE_PATH`. |
| Python.IsFile | python/python_cgi_index.py:62 | `os.path.isfile` is false for a missing path, a directory and a special file. A path it accepts is a file. |
| Python.MimeOf | python/python_cgi_index.py:73-89 | The result is a table entry or `application/octet-stream`. When the text after the last `.` contains `/`, the default is chosen. |
| Python.UnknownExtension | python/python_cgi_index.py:73-89 | After any path, an extension the table does not know, following a `.`, gives `application/octet-stream` in any letter case. |
| Python.Respond | python/python_cgi_index.py:27-99 | The answer is a 400 exactly when `TARGET_FILE` contains `..`. |
| Python.Decide | python/python_cgi_index.py:45-99 | The answer is a 400 exactly when the target contains `..`. A 404 names the requested path and means the target is not a regular file. A success or an open failure means it is one. |
| Python.Lines | python/python_cgi_index.py:52-96 | Every reply prints at least two lines. Its last line is the blank header terminator exactly for a success. The first line is a `Status:` header exactly for a 400 or 404 page. |
| Python.KnownExtension | python/python_cgi_index.py:73-89 | After any path, a known extension following a `.` selects its entry in any ASCII letter case. |
| Python.Handle | python/python_cgi_index.py:27-45 | The script prints exactly `Lines(Respond(…))` and then writes exactly `Body(Respond(…))`, with `REL_PATH` reassigned as in the source. |
| Python.Serve | python/python_cgi_index.py:51-99 | From `TARGET_FILE` on, the script prints exactly what `Decide` answers. |
| Python.AbsentUriServesHome | python/python_cgi_index.py:27-42 | An unset `REQUEST_URI` behaves as the empty one, and both ask for `BASE_PATH + "/index.html"`. |
| Python.QueryIgnored | python/python_cgi_index.py:29-30 | Whatever follows the first `?` changes neither the target nor the answer. |
| Python.RelPathAfterMarker | python/python_cgi_index.py:35-42 | The path is the text after the first `index.cgi`. An empty or `/` rest becomes `/index.html`. |
| Python.RelPathWithoutMarker | python/python_cgi_index.py:32-42 | Without `index.cgi`, the path is `/index.html`. |
| Python.DotDotRejected | python/python_cgi_index.py:51-56 | A `..` anywhere in the target gives 400 whatever the file system holds, with no body. |
| Python.ServedExactlyWhenChecksPass | python/python_cgi_index.py:51-99 | A file is served if and only if the target has no `..` and is a readable regular file. The body is that file's bytes and the type comes from `MimeOf`. |
| Python.FileChecks | python/python_cgi_index.py:62-99 | A target that is not a regular file gets a 404 naming the requested path. An unreadable regular file gets the success headers and no body. |
| Python.MarkerWithoutSlashEscapes | python/python_cgi_index.py:35-56 | The `..` ban does not confine requests. A URI like `/index.cgi2/secret` reaches `BASE_PATH + "2/secret"`, outside the base directory, and it is served when it exists. |
| Python.ServerReadsReply | python/python_cgi_index.py:52-96 | Every reply is read with its status: 400, 404 or 200. No reply has a `Content-Length`. Error pages are plain text. |

## Left out

- Environment access, the file system, Java's canonicalisation and Go's working directory are parameters. The model does not say how the operating system computes them.
- Java `getCanonicalPath` is an arbitrary oracle. Symlink resolution and `..` removal by the operating system are not modelled. Properties that depend on them take the oracle's answer as a hypothesis.
- Java `new File(null)` throws an unchecked null-reference exception when the normalised script path has no parent (it has no `/`, or it is just `/`). The throw happens only after the target was canonicalised; a failed canonicalisation prints the 500 page instead. It is modelled as the reply `Aborted`: nothing is printed and the stack trace on standard error is left out.
- Stack traces and other standard-error output (Java `printStackTrace`, Python tracebacks) are not modelled.
- Java.CopyStream: a read that fails part way through (the `IOException` after the headers) is not modelled. Each read is chosen nondeterministically from the bytes that remain, and `flush` and `close` are left out.
- Go.SendFile: `io.Copy` is one bulk write. A copy error, which the source ignores, is not modelled.
- Go `os.Stat` errors other than "does not exist" are not modelled. Examples are ENOTDIR for a path through a regular file (the URI `/index.cgi/index.html/x`), ENAMETOOLONG and ELOOP. For these the source dereferences a nil `info` and panics, printing nothing to standard output. The model finds such a path absent from the map and answers 404. So `Go.Deliver`'s "every failure is a 404" and `Go.NoDotDotNeverForbidden`'s "the file or a 404" hold for the model only.
- Go's `Content-Length` comes from `info.Size()`, and Java's from `File.length()`. Both are modelled as the length of the file's bytes.
- Go.RootErrorUnreachable: both `filepath.Abs` calls consult one fixed working directory `cwd`. The program may call `os.Getwd` twice, and a working directory that changes or fails between the two calls is not modelled.
- Go `filepath` is modelled for a `/` separator only. Windows volume names and case-insensitive paths are left out.
- Unicode lower-casing (`toLowerCase`, `strings.ToLower`, `str.lower`) is modelled for ASCII letters only.
- Java.GetContentType: `toLowerCase()` follows the JVM's default locale. It is modelled for a locale without special casing rules. Under a Turkish or Azeri locale `I` becomes a dotless `ı`, so `x.GIF` and `x.ICO` would get `application/octet-stream`. Go's `strings.ToLower` and Python's `str.lower` do not depend on the locale.
- Python: standard output is modelled as the header lines followed by the bytes. The interleaving of Python's text-mode buffer with `sys.stdout.buffer` is not modelled.
- The unused Python imports (`urllib.parse`, `mimetypes`) are not modelled.
- Text inserted into the error pages is not HTML-escaped, and the model prints it exactly as the programs do.
- Java.Normalize: `java.io.File` is modelled with the Unix normalisation only, meaning repeated and trailing `/`. Platform path rules beyond that are left out.
