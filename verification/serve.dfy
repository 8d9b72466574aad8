/**
  The static server of pkg/cmds/serve/serve.go: the base path taken from
  the site URL, the mapping from a request path to a file under the output
  directory, and `RegexpHandler`, which hands a request to the first
  registered route whose pattern matches. Regular-expression matching is a
  parameter: `matches(pattern, path)` is `pattern.MatchString(path)`.
 */
module Serve {
  import opened GoStrings

  /**
    `basePath` in `RunServer`: the path of the parsed site URL with at most
    one trailing `/` removed, or empty when the URL does not parse.
   */
  function BasePath(urlPath: Option<string>): (r: string)
    ensures urlPath.None? ==> r == ""
    ensures urlPath.Some? && !HasSuffix(urlPath.value, "/") ==> r == urlPath.value
    ensures urlPath.Some? && HasSuffix(urlPath.value, "/") ==> r + "/" == urlPath.value
  {
    match urlPath
    case None => ""
    case Some(p) => if HasSuffix(p, "/") then p[..|p| - 1] else p
  }

  /** Only one slash goes: a path ending in `//` keeps a trailing `/`. */
  lemma BasePathOneSlash(p: string)
    requires |p| >= 2 && p[|p| - 2..] == "//"
    ensures HasSuffix(BasePath(Some(p)), "/")
  {
    assert p[|p| - 1..] == "/";
  }

  /** `filePath` before resolution: the first occurrence of the base path removed from the request path. */
  function StripBase(path: string, basePath: string): string {
    ReplaceFirst(path, basePath, "")
  }

  /**
    A request under the base path loses exactly that prefix; an empty base
    path leaves every request path as it is.
   */
  lemma StripBaseCases(path: string, basePath: string, rest: string)
    ensures StripBase(basePath + rest, basePath) == rest
    ensures StripBase(path, "") == path
  {
    ReplaceFirstAtFront(basePath, rest, "");
    ReplaceFirstEmpty(path);
  }

  /**
    The base path is removed wherever it first occurs, not only at the
    front: the route pattern is not anchored either.
   */
  lemma StripBaseInside(a: string, basePath: string, b: string)
    requires |basePath| >= 1 && basePath[0] !in a
    ensures StripBase(a + basePath + b, basePath) == a + b
  {
    var s := a + basePath + b;
    assert s[..|a|] == a;
    assert s[|a|..|a| + |basePath|] == basePath;
    ReplaceFirstAtFirst(s, basePath, "", |a|);
    assert s[|a| + |basePath|..] == b;
  }

  /**
    The file for a stripped request path: a directory-like path (empty or
    ending in `/`) gets `index.html`; a path with no `.` anywhere in it gets
    `.html`; any other path is served as it is.
   */
  function ResolveFile(p: string): (r: string)
    ensures |r| > 0 && |p| <= |r| && r[..|p|] == p
  {
    if HasSuffix(p, "/") || p == "" then p + "index.html"
    else if !Contains(p, ".") then p + ".html"
    else p
  }

  /** Which suffix is added, stated through membership of `.` rather than `Contains`. */
  lemma ResolveFileSuffix(p: string)
    ensures (HasSuffix(p, "/") || p == "") ==> ResolveFile(p) == p + "index.html"
    ensures !(HasSuffix(p, "/") || p == "") && '.' !in p ==> ResolveFile(p) == p + ".html"
    ensures !(HasSuffix(p, "/") || p == "") && '.' in p ==> ResolveFile(p) == p
  {
    ContainsChar(p, '.');
  }

  /** Resolving a resolved path changes nothing. */
  lemma ResolveFileIdempotent(p: string)
    ensures ResolveFile(ResolveFile(p)) == ResolveFile(p)
  {
    var r := ResolveFile(p);
    ResolveFileSuffix(p);
    ContainsChar(r, '.');
    if HasSuffix(p, "/") || p == "" {
      assert r[|r| - 1] == 'l' && r[|r| - 5] == '.';
    } else if '.' !in p {
      assert r[|r| - 1] == 'l' && r[|r| - 5] == '.';
    }
    assert r[|r| - 1..] == [r[|r| - 1]];
  }

  /**
    The `.` test looks at the whole path, not the last segment: a dot in a
    directory name keeps `.html` from being added to an extension-less page.
   */
  lemma DotInDirectory(dir: string, page: string)
    requires '.' in dir && '/' !in page && '.' !in page && page != ""
    ensures ResolveFile(dir + "/" + page) == dir + "/" + page
  {
    var p := dir + "/" + page;
    assert '.' in p by {
      var k :| 0 <= k < |dir| && dir[k] == '.';
      assert p[k] == '.';
    }
    assert p[|p| - 1] == page[|page| - 1];
    assert !HasSuffix(p, "/") by { assert p[|p| - 1..] == [p[|p| - 1]]; }
    ResolveFileSuffix(p);
  }

  /** The file served for a request path, relative to the output directory. */
  function ServedFile(urlPath: Option<string>, requestPath: string): (r: string)
    ensures var stripped := StripBase(requestPath, BasePath(urlPath));
      |stripped| <= |r| && r[..|stripped|] == stripped
  {
    ResolveFile(StripBase(requestPath, BasePath(urlPath)))
  }

  /** A request for `base + rest` is served from the file `rest` resolves to. */
  lemma ServedUnderBase(urlPath: Option<string>, rest: string)
    ensures ServedFile(urlPath, BasePath(urlPath) + rest) == ResolveFile(rest)
  {
    StripBaseCases("", BasePath(urlPath), rest);
  }

  /** A registered handler: a value given to `Handler`, or a function given to `HandleFunc`. */
  datatype HttpHandler = Value(name: string) | Func(name: string)

  datatype Route = Route(pattern: string, handler: HttpHandler)

  /** What `ServeHTTP` does with a request. */
  datatype Dispatch = NotFound | Handled(handler: HttpHandler)

  /** The first route, in registration order, whose pattern matches `path`. */
  function FirstMatch(routes: seq<Route>, path: string, matches: (string, string) -> bool): (r: Option<nat>)
    ensures r.Some? ==> r.value < |routes| && matches(routes[r.value].pattern, path)
    ensures r.Some? ==> forall j :: 0 <= j < r.value ==> !matches(routes[j].pattern, path)
    ensures r.None? ==> forall j :: 0 <= j < |routes| ==> !matches(routes[j].pattern, path)
  {
    if routes == [] then None
    else if matches(routes[0].pattern, path) then Some(0)
    else match FirstMatch(routes[1..], path, matches)
      case None => None
      case Some(k) => Some(k + 1)
  }

  function DispatchOf(routes: seq<Route>, path: string, matches: (string, string) -> bool): Dispatch {
    match FirstMatch(routes, path, matches)
    case None => NotFound
    case Some(i) => Handled(routes[i].handler)
  }

  /**
    Registering a route never changes where a request that some earlier
    route matches goes; the new route only takes requests nothing else
    matched.
   */
  lemma DispatchAfterRegister(routes: seq<Route>, route: Route, path: string, matches: (string, string) -> bool)
    ensures FirstMatch(routes, path, matches).Some? ==>
      DispatchOf(routes + [route], path, matches) == DispatchOf(routes, path, matches)
    ensures FirstMatch(routes, path, matches).None? ==>
      DispatchOf(routes + [route], path, matches) == (if matches(route.pattern, path) then Handled(route.handler) else NotFound)
  {
    var all := routes + [route];
    var i := FirstMatch(all, path, matches);
    if i.Some? {
      assert i.value < |routes| ==> all[i.value] == routes[i.value];
    }
    if FirstMatch(routes, path, matches).Some? {
      var k := FirstMatch(routes, path, matches).value;
      assert all[k] == routes[k];
    } else {
      assert all[|routes|] == route;
    }
  }

  class RegexpHandler {
    var routes: seq<Route>

    constructor ()
      ensures routes == []
    {
      routes := [];
    }

    /** `Handler`: one route appended at the end. */
    method Handler(pattern: string, handler: string)
      modifies this
      ensures routes == old(routes) + [Route(pattern, Value(handler))]
    {
      routes := routes + [Route(pattern, Value(handler))];
    }

    /** `HandleFunc`: one route, wrapping the function, appended at the end. */
    method HandleFunc(pattern: string, handler: string)
      modifies this
      ensures routes == old(routes) + [Route(pattern, Func(handler))]
    {
      routes := routes + [Route(pattern, Func(handler))];
    }

    /** `ServeHTTP`: the routes are tried in order and the first match serves the request; otherwise it is not found. */
    method ServeHTTP(path: string, matches: (string, string) -> bool) returns (d: Dispatch)
      ensures d == DispatchOf(routes, path, matches)
      ensures d.NotFound? <==> forall j :: 0 <= j < |routes| ==> !matches(routes[j].pattern, path)
    {
      var i := 0;
      while i < |routes|
        invariant 0 <= i <= |routes|
        invariant forall j :: 0 <= j < i ==> !matches(routes[j].pattern, path)
      {
        if matches(routes[i].pattern, path) {
          assert FirstMatch(routes, path, matches) == Some(i) by {
            FirstMatchUnique(routes, path, matches, i);
          }
          return Handled(routes[i].handler);
        }
        i := i + 1;
      }
      d := NotFound;
    }
  }

  /** The first matching index is the only index that matches with no match before it. */
  lemma FirstMatchUnique(routes: seq<Route>, path: string, matches: (string, string) -> bool, i: nat)
    requires i < |routes| && matches(routes[i].pattern, path)
    requires forall j :: 0 <= j < i ==> !matches(routes[j].pattern, path)
    ensures FirstMatch(routes, path, matches) == Some(i)
  {
    var r := FirstMatch(routes, path, matches);
    assert r.Some?;
    assert !(r.value < i);
    assert !(i < r.value);
  }

  /**
    `RunServer`'s set-up: a handler with the single route `basePath + ".*"`,
    registered through `HandleFunc` to the file server.
   */
  method NewServer(urlPath: Option<string>) returns (h: RegexpHandler, basePath: string)
    ensures fresh(h)
    ensures basePath == BasePath(urlPath)
    ensures h.routes == [Route(basePath + ".*", Func("serveFile"))]
  {
    basePath := BasePath(urlPath);
    h := new RegexpHandler();
    h.HandleFunc(basePath + ".*", "serveFile");
  }
}
