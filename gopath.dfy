/** The lexical path functions of Go's `path/filepath` that the Go
    handler calls, as they behave on Unix (`/` separator, no volume
    names): `Clean`, `Dir`, `Join`, `Abs`, `Base` and `Ext`.

    `Clean` is stated over the path's `/`-separated elements: empty and
    `.` elements are dropped, `..` removes the element before it, and a
    `..` that has nothing to remove is dropped at the root of an absolute
    path and kept at the front of a relative one. */
module GoPath {
  import opened Text

  /** The elements of `s` between `/` separators, empty ones included
      (`"/a//b"` has the elements `"", "a", "", "b"`). */
  function Split(s: string): (r: seq<string>)
    ensures |r| >= 1
  {
    if s == [] then [[]]
    else if s[0] == '/' then [[]] + Split(s[1..])
    else
      var t := Split(s[1..]);
      [[s[0]] + t[0]] + t[1..]
  }

  /** Elements joined with `/`. */
  function JoinPath(elements: seq<string>): string {
    if elements == [] then []
    else if |elements| == 1 then elements[0]
    else elements[0] + "/" + JoinPath(elements[1..])
  }

  /** The effect of one element on the stack of kept elements. */
  function Step(stack: seq<string>, element: string, rooted: bool): seq<string> {
    if element == "" || element == "." then stack
    else if element == ".." then
      if |stack| > 0 && stack[|stack| - 1] != ".." then stack[..|stack| - 1]
      else if rooted then stack
      else stack + [".."]
    else stack + [element]
  }

  function Reduce(stack: seq<string>, elements: seq<string>, rooted: bool): seq<string>
    decreases |elements|
  {
    if elements == [] then stack
    else Reduce(Step(stack, elements[0], rooted), elements[1..], rooted)
  }

  /** The kept elements of a path: none is empty, `.` or contains `/`; an
      absolute path keeps no `..`, a relative one keeps `..` only in front. */
  predicate CleanStack(stack: seq<string>, rooted: bool) {
    && (forall i :: 0 <= i < |stack| ==> stack[i] != "" && stack[i] != "." && '/' !in stack[i])
    && (rooted ==> forall i :: 0 <= i < |stack| ==> stack[i] != "..")
    && (forall i, j :: 0 <= i < j < |stack| && stack[j] == ".." ==> stack[i] == "..")
  }

  function Render(stack: seq<string>, rooted: bool): string {
    if rooted then "/" + JoinPath(stack)
    else if stack == [] then "."
    else JoinPath(stack)
  }

  predicate IsAbs(path: string) {
    path != [] && path[0] == '/'
  }

  /** `filepath.Clean`: the shortest lexically equal path. */
  function Clean(path: string): (r: string)
    ensures r != []
    ensures IsAbs(r) <==> IsAbs(path)
  {
    if path == [] then "."
    else
      var rooted := path[0] == '/';
      var stack := Reduce([], Split(path), rooted);
      SplitElements(path);
      ReduceClean([], Split(path), rooted);
      RenderShape(stack, rooted);
      Render(stack, rooted)
  }

  /** `filepath.Dir`: everything up to the last `/`, cleaned. */
  function Dir(path: string): (r: string)
    ensures r != [] && (IsAbs(r) <==> IsAbs(path))
  {
    match LastIndexOf(path, '/')
    case None => Clean("")
    case Some(i) => Clean(path[..i + 1])
  }

  /** `filepath.Join(a, b)`: the non-empty arguments joined with `/` and
      cleaned; the empty string when both are empty. */
  function Join(a: string, b: string): (r: string)
    ensures a != [] ==> r != [] && (IsAbs(r) <==> IsAbs(a))
    ensures a == [] && b != [] ==> r != [] && (IsAbs(r) <==> IsAbs(b))
    ensures a == [] && b == [] ==> r == []
  {
    if a == [] && b == [] then []
    else if a == [] then Clean(b)
    else
      assert (a + "/" + b)[0] == a[0];
      Clean(a + "/" + b)
  }

  /** `filepath.Abs`: an absolute path is cleaned; a relative one is joined
      onto the working directory, whose lookup (`os.Getwd`) may fail. */
  function Abs(path: string, cwd: Option<string>): (r: Option<string>)
    ensures r.None? <==> !IsAbs(path) && cwd.None?
    ensures IsAbs(path) ==> IsAbs(r.value)
    ensures cwd.Some? && IsAbs(cwd.value) ==> r.Some? && IsAbs(r.value)
  {
    if IsAbs(path) then Some(Clean(path))
    else match cwd
      case None => None
      case Some(dir) => Some(Join(dir, path))
  }

  /** Removes every trailing `/`. */
  function TrimTrailingSlashes(path: string): (r: string)
    ensures StartsWith(path, r)
    ensures r == [] || r[|r| - 1] != '/'
  {
    if path != [] && path[|path| - 1] == '/' then TrimTrailingSlashes(path[..|path| - 1]) else path
  }

  /** `filepath.Base`: the last element, trailing `/` ignored. */
  function Base(path: string): (r: string)
    ensures r != []
    ensures r == "/" || r == "." || ('/' !in r && EndsWith(TrimTrailingSlashes(path), r))
    ensures var t := TrimTrailingSlashes(path);
      '/' in t ==> |r| < |t| && t[|t| - |r| - 1] == '/'
    ensures var t := TrimTrailingSlashes(path);
      t != [] && '/' !in t ==> r == t
  {
    if path == [] then "."
    else
      var trimmed := TrimTrailingSlashes(path);
      if trimmed == [] then "/" else AfterLast(trimmed, '/')
  }

  /** `filepath.Ext`: the suffix from the last `.` of the final element,
      or empty when that element has no `.`. */
  function Ext(path: string): (r: string)
    ensures r == [] || (r[0] == '.' && '.' !in r[1..] && '/' !in r)
    ensures EndsWith(path, r)
  {
    var last := AfterLast(path, '/');
    match LastIndexOf(last, '.')
    case None => []
    case Some(i) =>
      ExtShape(path, last, i);
      last[i..]
  }

  lemma ExtShape(path: string, last: string, i: nat)
    requires EndsWith(path, last) && '/' !in last
    requires i < |last| && last[i] == '.'
    requires forall j :: i < j < |last| ==> last[j] != '.'
    ensures var r := last[i..];
      && r[0] == '.' && '.' !in r[1..] && '/' !in r
      && EndsWith(path, r)
  {
    var r := last[i..];
    var tail := r[1..];
    forall k | 0 <= k < |tail|
      ensures tail[k] != '.'
    {
      assert tail[k] == last[i + 1 + k];
    }
    forall k | 0 <= k < |r|
      ensures r[k] != '/'
    {
      assert r[k] == last[i + k];
    }
    assert path[|path| - |r|..] == path[|path| - |last|..][i..];
  }

  // ---------------------------------------------------------------------
  // Lemmas about the elements of a path

  lemma {:induction false} SplitWithoutSlash(s: string)
    requires '/' !in s
    ensures Split(s) == [s]
  {
    if s != [] {
      assert s[0] != '/' && '/' !in s[1..];
      SplitWithoutSlash(s[1..]);
      assert [s[0]] + s[1..] == s;
    }
  }

  /** Splitting at a separator splits the element lists. */
  lemma {:induction false} SplitAppend(a: string, b: string)
    ensures Split(a + "/" + b) == Split(a) + Split(b)
    decreases |a|, 1
  {
    if a == [] {
      assert a + "/" + b == [] + ['/'] + b;
      SplitCons('/', b);
    } else {
      var rest := a[1..] + "/" + b;
      assert a + "/" + b == [a[0]] + rest;
      assert a == [a[0]] + a[1..];
      SplitAppendCons(a[0], a[1..], b);
    }
  }

  lemma {:induction false} SplitAppendCons(c: char, a: string, b: string)
    ensures Split([c] + (a + "/" + b)) == Split([c] + a) + Split(b)
    decreases |a| + 1, 0
  {
    SplitAppend(a, b);
    if c == '/' {
      SplitAppendSeparator(a, b);
    } else {
      SplitAppendChar(c, a, b);
    }
  }

  lemma SplitAppendSeparator(a: string, b: string)
    requires Split(a + "/" + b) == Split(a) + Split(b)
    ensures Split(['/'] + (a + "/" + b)) == Split(['/'] + a) + Split(b)
  {
    SplitCons('/', a + "/" + b);
    SplitCons('/', a);
    ConsAppend([], Split(a), Split(b));
  }

  lemma ConsAppend(x: string, u: seq<string>, v: seq<string>)
    ensures [x] + (u + v) == ([x] + u) + v
  {
  }

  lemma SplitAppendChar(c: char, a: string, b: string)
    requires c != '/'
    requires Split(a + "/" + b) == Split(a) + Split(b)
    ensures Split([c] + (a + "/" + b)) == Split([c] + a) + Split(b)
  {
    SplitCons(c, a + "/" + b);
    SplitCons(c, a);
    ConsFirstAppend([c], Split(a), Split(b));
  }

  lemma ConsFirstAppend(x: string, u: seq<string>, v: seq<string>)
    requires |u| >= 1
    ensures [x + (u + v)[0]] + (u + v)[1..] == ([x + u[0]] + u[1..]) + v
  {
    assert (u + v)[0] == u[0];
    assert (u + v)[1..] == u[1..] + v;
  }

  /** No element contains the separator. */
  lemma {:induction false} SplitElements(s: string)
    ensures forall i :: 0 <= i < |Split(s)| ==> '/' !in Split(s)[i]
  {
    if s != [] {
      SplitElements(s[1..]);
      if s[0] != '/' {
        var t := Split(s[1..]);
        assert '/' !in [s[0]] + t[0];
        assert forall i :: 1 <= i < |t| ==> '/' !in t[i];
      }
    }
  }

  /** One step of `Split`: a separator opens a new element, any other
      character extends the first one. */
  lemma SplitCons(c: char, s: string)
    ensures Split([c] + s) ==
      if c == '/' then [[]] + Split(s) else [[c] + Split(s)[0]] + Split(s)[1..]
  {
    assert ([c] + s)[0] == c;
    assert ([c] + s)[1..] == s;
  }

  /** Joining elements free of `/` and splitting again gives them back. */
  lemma {:induction false} SplitJoin(elements: seq<string>)
    requires elements != []
    requires forall i :: 0 <= i < |elements| ==> '/' !in elements[i]
    ensures Split(JoinPath(elements)) == elements
  {
    if |elements| == 1 {
      SplitWithoutSlash(elements[0]);
    } else {
      SplitJoin(elements[1..]);
      SplitAppend(elements[0], JoinPath(elements[1..]));
      SplitWithoutSlash(elements[0]);
    }
  }

  lemma {:induction false} JoinPathPrefix(s: seq<string>, t: seq<string>)
    ensures StartsWith(JoinPath(s + t), JoinPath(s))
  {
    if |s| == 1 {
      assert (s + t)[0] == s[0];
      if t != [] {
        assert (s + t)[1..] == t;
      } else {
        assert s + t == s;
      }
    } else if |s| > 1 {
      assert (s + t)[0] == s[0] && (s + t)[1..] == s[1..] + t;
      JoinPathPrefix(s[1..], t);
    }
  }

  lemma JoinPathStart(elements: seq<string>)
    requires elements != [] && elements[0] != []
    ensures JoinPath(elements) != [] && JoinPath(elements)[0] == elements[0][0]
  {
  }

  lemma {:induction false} ReduceAppend(stack: seq<string>, a: seq<string>, b: seq<string>, rooted: bool)
    ensures Reduce(stack, a + b, rooted) == Reduce(Reduce(stack, a, rooted), b, rooted)
    decreases |a|
  {
    if a == [] {
      assert a + b == b;
    } else {
      assert (a + b)[0] == a[0] && (a + b)[1..] == a[1..] + b;
      ReduceAppend(Step(stack, a[0], rooted), a[1..], b, rooted);
    }
  }

  lemma StepClean(stack: seq<string>, element: string, rooted: bool)
    requires CleanStack(stack, rooted) && '/' !in element
    ensures CleanStack(Step(stack, element, rooted), rooted)
  {
    if element == ".." && !(|stack| > 0 && stack[|stack| - 1] != "..") && !rooted {
      var r := stack + [".."];
      forall i, j | 0 <= i < j < |r| && r[j] == ".."
        ensures r[i] == ".."
      {
        if j == |stack| {
          assert stack[|stack| - 1] == "..";
          if i < |stack| - 1 {
            assert stack[i] == "..";
          }
        }
      }
    }
  }

  /** Reducing elements free of `/` keeps the stack clean. */
  lemma {:induction false} ReduceClean(stack: seq<string>, elements: seq<string>, rooted: bool)
    requires CleanStack(stack, rooted)
    requires forall i :: 0 <= i < |elements| ==> '/' !in elements[i]
    ensures CleanStack(Reduce(stack, elements, rooted), rooted)
    decreases |elements|
  {
    if elements != [] {
      StepClean(stack, elements[0], rooted);
      ReduceClean(Step(stack, elements[0], rooted), elements[1..], rooted);
    }
  }

  /** Replaying a clean stack on top of its own prefix rebuilds it. */
  lemma {:induction false} ReplayClean(prefix: seq<string>, rest: seq<string>, rooted: bool)
    requires CleanStack(prefix + rest, rooted)
    ensures Reduce(prefix, rest, rooted) == prefix + rest
    decreases |rest|
  {
    if rest != [] {
      var whole := prefix + rest;
      assert whole[|prefix|] == rest[0];
      if rest[0] == ".." {
        assert !rooted;
        if |prefix| > 0 {
          assert prefix[|prefix| - 1] == whole[|prefix| - 1] == "..";
        }
      }
      assert Step(prefix, rest[0], rooted) == prefix + [rest[0]];
      assert (prefix + [rest[0]]) + rest[1..] == whole;
      ReplayClean(prefix + [rest[0]], rest[1..], rooted);
    } else {
      assert prefix + rest == prefix;
    }
  }

  lemma RenderShape(stack: seq<string>, rooted: bool)
    requires CleanStack(stack, rooted)
    ensures Render(stack, rooted) != []
    ensures IsAbs(Render(stack, rooted)) <==> rooted
  {
    if !rooted && stack != [] {
      JoinPathStart(stack);
    }
  }

  /** The elements of a rendered clean stack, read back. */
  lemma RenderSplit(stack: seq<string>, rooted: bool)
    requires CleanStack(stack, rooted)
    ensures Reduce([], Split(Render(stack, rooted)), rooted) == stack
  {
    if rooted {
      if stack == [] {
        assert "/" + JoinPath(stack) == "/";
        assert Split("/") == [[]] + Split([]);
        assert Reduce([], [[], []], rooted) == [];
      } else {
        SplitJoin(stack);
        SplitAppend([], JoinPath(stack));
        assert [] + "/" + JoinPath(stack) == "/" + JoinPath(stack);
        assert Split("/" + JoinPath(stack)) == [[]] + stack;
        assert [] + stack == stack;
        ReplayClean([], stack, rooted);
      }
    } else if stack == [] {
      SplitWithoutSlash(".");
    } else {
      SplitJoin(stack);
      assert [] + stack == stack;
      ReplayClean([], stack, rooted);
    }
  }

  // ---------------------------------------------------------------------
  // Properties of Clean

  /** `filepath.Dir` of a path ending in a name is the cleaned directory
      before it: the directory of `…/ui/index.cgi` is `…/ui`. */
  lemma DirOfChild(dir: string, name: string)
    requires dir != [] && name != [] && '/' !in name
    ensures Dir(dir + "/" + name) == Clean(dir)
  {
    var path := dir + "/" + name;
    assert path == dir + ("/" + name);
    LastOccurrence(dir, "/" + name, '/');
    assert path[..|dir| + 1] == dir + "/";
    CleanTrailingSlash(dir);
  }

  /** A trailing `/` does not change the cleaned path. */
  lemma CleanTrailingSlash(dir: string)
    requires dir != []
    ensures Clean(dir + "/") == Clean(dir)
  {
    var rooted := dir[0] == '/';
    assert (dir + "/")[0] == dir[0];
    assert dir + "/" + "" == dir + "/";
    SplitAppend(dir, "");
    ReduceAppend([], Split(dir), Split(""), rooted);
    assert Split("") == [[]];
  }

  /** Cleaning a clean path changes nothing. */
  lemma CleanIdempotent(path: string)
    ensures Clean(Clean(path)) == Clean(path)
  {
    if path != [] {
      var rooted := path[0] == '/';
      var stack := Reduce([], Split(path), rooted);
      SplitElements(path);
      ReduceClean([], Split(path), rooted);
      RenderShape(stack, rooted);
      RenderSplit(stack, rooted);
    } else {
      SplitWithoutSlash(".");
    }
  }

  /** `filepath.Dir` returns a clean path. */
  lemma DirClean(path: string)
    ensures Clean(Dir(path)) == Dir(path)
  {
    match LastIndexOf(path, '/')
    case None => CleanIdempotent("");
    case Some(i) => CleanIdempotent(path[..i + 1]);
  }

  /** A cleaned absolute path has no `..`, `.` or empty element after the
      leading `/`. */
  lemma CleanAbsoluteElements(path: string)
    requires IsAbs(path)
    ensures var elements := Split(Clean(path));
      elements[0] == [] &&
      forall i :: 1 <= i < |elements| ==> elements[i] != ".." && elements[i] != "."
  {
    var stack := Reduce([], Split(path), true);
    SplitElements(path);
    ReduceClean([], Split(path), true);
    if stack == [] {
      assert "/" + JoinPath(stack) == "/";
      assert Split("/") == [[]] + Split([]);
    } else {
      SplitJoin(stack);
      SplitAppend([], JoinPath(stack));
      assert [] + "/" + JoinPath(stack) == "/" + JoinPath(stack);
    }
  }

  /** Elements kept by a reduction without `..`. */
  function Kept(elements: seq<string>): seq<string> {
    if elements == [] then []
    else if elements[0] == "" || elements[0] == "." then Kept(elements[1..])
    else [elements[0]] + Kept(elements[1..])
  }

  lemma {:induction false} ReduceWithoutDotDot(stack: seq<string>, elements: seq<string>, rooted: bool)
    requires forall i :: 0 <= i < |elements| ==> elements[i] != ".."
    ensures Reduce(stack, elements, rooted) == stack + Kept(elements)
    decreases |elements|
  {
    if elements != [] {
      ReduceWithoutDotDot(Step(stack, elements[0], rooted), elements[1..], rooted);
      if elements[0] != "" && elements[0] != "." {
        assert stack + [elements[0]] + Kept(elements[1..]) == stack + Kept(elements);
      }
    } else {
      assert stack + [] == stack;
    }
  }

  /** Joining a path without `..` elements below an absolute directory
      stays below it: the cleaned result starts with the cleaned
      directory. */
  lemma JoinBelow(dir: string, rel: string)
    requires IsAbs(dir)
    requires forall i :: 0 <= i < |Split(rel)| ==> Split(rel)[i] != ".."
    ensures StartsWith(Clean(dir + "/" + rel), Clean(dir))
  {
    var whole := dir + "/" + rel;
    assert whole[0] == '/';
    SplitAppend(dir, rel);
    ReduceAppend([], Split(dir), Split(rel), true);
    var stack := Reduce([], Split(dir), true);
    ReduceWithoutDotDot(stack, Split(rel), true);
    JoinPathPrefix(stack, Kept(Split(rel)));
    assert Clean(whole) == "/" + JoinPath(stack + Kept(Split(rel)));
    assert Clean(dir) == "/" + JoinPath(stack);
  }
}
