/** The well-known addresses clients derive, against the routes and resources the
    server answers for. Paths are escape-free. */
module Discovery {
  import opened Records

  // ---- strings.Trim and strings.TrimRight with "/" ----

  function TrimRight(s: string): (r: string)
    ensures r <= s && (r != "" ==> r[|r| - 1] != '/')
  {
    if s != "" && s[|s| - 1] == '/' then TrimRight(s[..|s| - 1]) else s
  }

  function TrimLeft(s: string): (r: string)
    ensures r == "" || r[0] != '/'
  {
    if s != "" && s[0] == '/' then TrimLeft(s[1..]) else s
  }

  function Trim(s: string): string {
    TrimLeft(TrimRight(s))
  }

  lemma {:induction false} TrimRightAfter(a: string, b: string)
    requires a != "" && a[|a| - 1] != '/'
    ensures TrimRight(a + b) == a + TrimRight(b)
  {
    if b == "" {
      assert a + b == a;
    } else if b[|b| - 1] == '/' {
      assert (a + b)[..|a + b| - 1] == a + b[..|b| - 1];
      TrimRightAfter(a, b[..|b| - 1]);
    }
  }

  lemma {:induction false} TrimLeftEnd(s: string)
    ensures TrimLeft(s) == "" || (s != "" && TrimLeft(s)[|TrimLeft(s)| - 1] == s[|s| - 1])
  {
    if s != "" && s[0] == '/' { TrimLeftEnd(s[1..]); }
  }

  /** What trimming leaves neither starts nor ends with a slash. */
  lemma TrimEnds(s: string)
    ensures Trim(s) == "" || (Trim(s)[0] != '/' && Trim(s)[|Trim(s)| - 1] != '/')
  {
    TrimLeftEnd(TrimRight(s));
  }

  lemma {:induction false} TrimOfTrimRight(s: string)
    ensures Trim(TrimRight(s)) == Trim(s)
  {
  }

  // ---- addresses ----

  /** An absolute URL without escapes, query or fragment. */
  datatype URL = URL(scheme: string, host: string, path: string)

  ghost predicate Absolute(u: URL) {
    u.scheme != "" && u.host != "" && '/' !in u.host && (u.path == "" || u.path[0] == '/')
  }

  function Origin(u: URL): string {
    u.scheme + "://" + u.host
  }

  function Printed(u: URL): string {
    Origin(u) + u.path
  }

  lemma TrimPrinted(u: URL)
    requires Absolute(u)
    ensures TrimRight(Printed(u)) == Origin(u) + TrimRight(u.path)
  {
    assert u.host[|u.host| - 1] in u.host;
    assert Origin(u)[|Origin(u)| - 1] == u.host[|u.host| - 1];
    TrimRightAfter(Origin(u), u.path);
  }

  const SERVER: string := "oauth-authorization-server"
  const OPENID: string := "openid-configuration"
  const RESOURCE: string := "/.well-known/oauth-protected-resource"

  /** The path of RFC 8414 section 3.1 for an issuer path. */
  function WellKnownPath(name: string, path: string): string {
    "/.well-known/" + name + (if Trim(path) == "" then "" else "/" + Trim(path))
  }

  function WellKnownURL(issuer: URL, name: string): string {
    TrimRight(Printed(URL(issuer.scheme, issuer.host, WellKnownPath(name, issuer.path))))
  }

  function SuffixURL(issuer: URL, name: string): string {
    TrimRight(Printed(issuer)) + "/.well-known/" + name
  }

  ghost predicate Name(name: string) {
    name != "" && '/' !in name
  }

  lemma WellKnownEnd(name: string, path: string)
    requires Name(name)
    ensures TrimRight(WellKnownPath(name, path)) == WellKnownPath(name, path)
  {
    TrimEnds(path);
    assert name[|name| - 1] in name;
    var p := WellKnownPath(name, path);
    if Trim(path) == "" {
      assert p[|p| - 1] == name[|name| - 1];
    } else {
      assert p[|p| - 1] == Trim(path)[|Trim(path)| - 1];
    }
  }

  lemma WellKnownPrinted(issuer: URL, name: string)
    requires Absolute(issuer) && Name(name)
    ensures WellKnownURL(issuer, name) == Origin(issuer) + WellKnownPath(name, issuer.path)
  {
    TrimPrinted(URL(issuer.scheme, issuer.host, WellKnownPath(name, issuer.path)));
    WellKnownEnd(name, issuer.path);
  }

  // ---- the candidate lists ----

  ghost predicate NoDuplicates(s: seq<string>) {
    forall i, j :: 0 <= i < j < |s| ==> s[i] != s[j]
  }

  /** Two addresses, then each of two more unless it is one of the first two. */
  function Collected(first: seq<string>, more: seq<string>): seq<string> {
    if more == [] then first
    else Collected(first, more[..|more| - 1]) + (if more[|more| - 1] in first then [] else [more[|more| - 1]])
  }

  lemma CollectedOnce(a: string, b: string, c: string, d: string)
    requires a != b && c != d
    ensures var r := Collected([a, b], [c, d]);
      && NoDuplicates(r) && [a, b] <= r && c in r && d in r
      && (c in [a, b] && d in [a, b] ==> r == [a, b])
  {
    assert [c, d][..1] == [c] && [c][..0] == [];
    assert Collected([a, b], [c]) == [a, b] + (if c in [a, b] then [] else [c]);
  }

  /** The four addresses in order of preference, a suffix form only where it is new. */
  ghost function Candidates(issuer: URL): seq<string> {
    Collected([WellKnownURL(issuer, SERVER), WellKnownURL(issuer, OPENID)], [SuffixURL(issuer, SERVER), SuffixURL(issuer, OPENID)])
  }

  lemma PathsDiffer(path: string)
    ensures WellKnownPath(SERVER, path) != WellKnownPath(OPENID, path)
  {
    assert WellKnownPath(SERVER, path)[14] == 'a' && WellKnownPath(OPENID, path)[14] == 'p';
  }

  lemma SuffixesDiffer(issuer: URL)
    ensures SuffixURL(issuer, SERVER) != SuffixURL(issuer, OPENID)
  {
    assert |SERVER| != |OPENID|;
  }

  /** No candidate is tried twice; all four forms are tried, the issuer-path form first;
      an issuer without a path has just two. */
  lemma CandidatesOnce(issuer: URL)
    requires Absolute(issuer)
    ensures var c := Candidates(issuer);
      && NoDuplicates(c) && |c| >= 2
      && c[0] == Origin(issuer) + WellKnownPath(SERVER, issuer.path)
      && c[1] == Origin(issuer) + WellKnownPath(OPENID, issuer.path)
      && SuffixURL(issuer, SERVER) in c && SuffixURL(issuer, OPENID) in c
      && (Trim(issuer.path) == "" ==> |c| == 2)
  {
    WellKnownPrinted(issuer, SERVER);
    WellKnownPrinted(issuer, OPENID);
    PathsDiffer(issuer.path);
    SuffixesDiffer(issuer);
    CollectedOnce(WellKnownURL(issuer, SERVER), WellKnownURL(issuer, OPENID), SuffixURL(issuer, SERVER), SuffixURL(issuer, OPENID));
    if Trim(issuer.path) == "" {
      RootForms(issuer, SERVER);
      RootForms(issuer, OPENID);
    }
  }

  lemma RootForms(issuer: URL, name: string)
    requires Absolute(issuer) && Name(name) && Trim(issuer.path) == ""
    ensures SuffixURL(issuer, name) == WellKnownURL(issuer, name)
  {
    WellKnownPrinted(issuer, name);
    TrimPrinted(issuer);
    TrimmedAway(issuer.path);
    assert Origin(issuer) + "" == Origin(issuer);
    assert Origin(issuer) + ("/.well-known/" + name) == Origin(issuer) + "/.well-known/" + name;
  }

  lemma {:induction false} TrimmedAway(path: string)
    requires Trim(path) == "" && (path == "" || path[0] == '/')
    ensures TrimRight(path) == ""
  {
    var r := TrimRight(path);
    if r != "" {
      TrimLeftKeeps(r);
      assert false;
    }
  }

  lemma {:induction false} TrimLeftKeeps(s: string)
    requires s != "" && s[|s| - 1] != '/'
    ensures TrimLeft(s) != ""
  {
    if s[0] == '/' { TrimLeftKeeps(s[1..]); }
  }

  /** The Go client. */
  method DiscoveryCandidates(issuer: URL) returns (candidates: seq<string>)
    requires Absolute(issuer)
    ensures candidates == Candidates(issuer)
  {
    candidates := [WellKnownURL(issuer, SERVER), WellKnownURL(issuer, OPENID)];
    ghost var first, more := candidates, [SuffixURL(issuer, SERVER), SuffixURL(issuer, OPENID)];
    var base := TrimRight(Printed(issuer));
    var names := [SERVER, OPENID];
    for i := 0 to |names|
      invariant candidates == Collected(first, more[..i]) && first <= candidates
    {
      var suffix := base + "/.well-known/" + names[i];
      assert suffix == more[i] && more[..i + 1][..i] == more[..i];
      if suffix != candidates[0] && suffix != candidates[1] {
        candidates := candidates + [suffix];
      }
    }
    assert more[..2] == more;
  }

  /** The Python client starts from the issuer's text. `parse` stands for urlparse. */
  method PythonCandidates(text: string, parse: string -> URL, issuer: URL) returns (candidates: seq<string>)
    requires Absolute(issuer) && text == Printed(issuer) && Parses(parse, issuer)
    ensures candidates == Candidates(issuer)
  {
    Names();
    PythonAgrees(parse, issuer, SERVER);
    PythonAgrees(parse, issuer, OPENID);
    var base := TrimRight(text);
    candidates := [PythonWellKnown(text, parse, SERVER), PythonWellKnown(text, parse, OPENID)];
    var suffixes := [base + "/.well-known/" + SERVER, base + "/.well-known/" + OPENID];
    SuffixList(issuer, suffixes);
    candidates := AppendNew(candidates, suffixes);
  }

  lemma SuffixList(issuer: URL, suffixes: seq<string>)
    requires suffixes == [SuffixURL(issuer, SERVER), SuffixURL(issuer, OPENID)]
    ensures NoDuplicates(suffixes)
  {
    SuffixesDiffer(issuer);
  }

  /** The Python loop compares against the whole list so far. */
  method AppendNew(first: seq<string>, more: seq<string>) returns (candidates: seq<string>)
    requires NoDuplicates(more)
    ensures candidates == Collected(first, more)
  {
    candidates := first;
    for i := 0 to |more|
      invariant candidates == Collected(first, more[..i]) && forall c :: c in candidates <==> c in first || c in more[..i]
    {
      assert more[..i + 1][..i] == more[..i];
      assert forall c :: c in more[..i + 1] <==> c in more[..i] || c == more[i];
      if more[i] !in candidates {
        candidates := candidates + [more[i]];
      }
    }
    assert more[..|more|] == more;
  }

  /** urlparse on the issuer's text without its trailing slashes. */
  ghost predicate Parses(parse: string -> URL, issuer: URL) {
    parse(TrimRight(Printed(issuer))) == issuer.(path := TrimRight(issuer.path))
  }

  lemma PythonAgrees(parse: string -> URL, issuer: URL, name: string)
    requires Absolute(issuer) && Parses(parse, issuer) && Name(name)
    ensures PythonWellKnown(Printed(issuer), parse, name) == WellKnownURL(issuer, name)
  {
    WellKnownPrinted(issuer, name);
    TrimOfTrimRight(issuer.path);
  }

  lemma Names()
    ensures Name(SERVER) && Name(OPENID)
  {
  }

  function PythonWellKnown(text: string, parse: string -> URL, name: string): string {
    var parsed := parse(TrimRight(text));
    Printed(URL(parsed.scheme, parsed.host, WellKnownPath(name, parsed.path)))
  }

  // ---- the server's routes ----

  /** The metadata routes registered for a configured issuer. */
  ghost predicate Registered(configured: URL, path: string) {
    || path == "/.well-known/" + SERVER || path == "/.well-known/" + OPENID
    || (Trim(configured.path) != ""
        && (path == "/.well-known/" + SERVER + "/" + Trim(configured.path) || path == "/.well-known/" + OPENID + "/" + Trim(configured.path)))
  }

  /** The address a client tries first is one the server registers exactly when the
      client's issuer has the configured path up to surrounding slashes, or no path. */
  lemma FirstCandidateIsServed(issuer: URL, configured: URL)
    requires Absolute(issuer)
    ensures |Candidates(issuer)| > 0 && Candidates(issuer)[0] == Origin(issuer) + WellKnownPath(SERVER, issuer.path)
    ensures Registered(configured, WellKnownPath(SERVER, issuer.path)) <==>
      Trim(issuer.path) == Trim(configured.path) || Trim(issuer.path) == ""
  {
    CandidatesOnce(issuer);
    RegisteredExactly(issuer.path, configured);
  }

  lemma RegisteredExactly(path: string, configured: URL)
    ensures Registered(configured, WellKnownPath(SERVER, path)) <==> Trim(path) == Trim(configured.path) || Trim(path) == ""
  {
    var asked := WellKnownPath(SERVER, path);
    assert asked[14] == 'a';
    NotOpenID(asked, Trim(configured.path));
    if Trim(path) != "" {
      UnderStem("/.well-known/" + SERVER + "/", Trim(path), Trim(configured.path));
      assert asked == "/.well-known/" + SERVER + "/" + Trim(path);
      assert |asked| > |"/.well-known/" + SERVER|;
    }
  }

  function TypeScriptPath(path: string): string {
    "/.well-known/" + SERVER + (if path == "" || path == "/" then "" else path)
  }

  /** The TypeScript client copies the issuer's path as it is, so with a path it finds
      the document exactly when that path is the configured one without extra slashes. */
  lemma TypeScriptIsServed(issuer: URL, configured: URL)
    requires Absolute(issuer)
    ensures Registered(configured, TypeScriptPath(issuer.path)) <==>
      issuer.path in ["", "/"] || (Trim(configured.path) != "" && issuer.path == "/" + Trim(configured.path))
  {
    var asked, own := TypeScriptPath(issuer.path), Trim(configured.path);
    assert asked[14] == 'a';
    NotOpenID(asked, own);
    if issuer.path !in ["", "/"] {
      var stem := "/.well-known/" + SERVER;
      UnderStem(stem, issuer.path, "/" + own);
      assert asked == stem + issuer.path && |asked| > |stem|;
      assert stem + ("/" + own) == stem + "/" + own;
    }
  }

  lemma NotOpenID(asked: string, own: string)
    requires |asked| > 14 && asked[14] == 'a'
    ensures asked != "/.well-known/" + OPENID && asked != "/.well-known/" + OPENID + "/" + own
  {
    assert ("/.well-known/" + OPENID)[14] == 'p';
  }

  lemma UnderStem(stem: string, a: string, b: string)
    ensures stem + a == stem + b <==> a == b
  {
    assert (stem + a)[|stem|..] == a && (stem + b)[|stem|..] == b;
  }

  // ---- protected resources ----

  /** One configured resource: its text, and its path when it parses. */
  datatype Resource = Resource(text: string, path: Option<string>)

  predicate At(r: Resource, path: string) {
    r.path.Some? && Trim(r.path.value) == Trim(path)
  }

  /** The first configured resource at a path. */
  function FirstAt(resources: seq<Resource>, path: string): (r: Option<nat>)
    ensures r.Some? ==> r.value < |resources| && At(resources[r.value], path)
    ensures r.Some? ==> forall j :: 0 <= j < r.value ==> !At(resources[j], path)
    ensures r.None? ==> forall j :: 0 <= j < |resources| ==> !At(resources[j], path)
  {
    if resources == [] then None
    else if At(resources[0], path) then Some(0)
    else match FirstAt(resources[1..], path) case None => None case Some(i) => Some(i + 1)
  }

  method MatchResource(resources: seq<Resource>, path: string) returns (r: Option<Resource>)
    ensures path == "" ==> r == if |resources| == 1 then Some(resources[0]) else None
    ensures path != "" ==> r == Served(resources, path)
  {
    if path == "" {
      if |resources| == 1 {
        return Some(resources[0]);
      }
      return None;
    }
    var want := "/" + Trim(path);
    for i := 0 to |resources|
      invariant forall j :: 0 <= j < i ==> !At(resources[j], path)
    {
      var resource := resources[i];
      if resource.path.None? {
        continue;
      }
      var have := "/" + Trim(resource.path.value);
      assert have[1..] == Trim(resource.path.value) && want[1..] == Trim(path);
      if have == want {
        return Some(resource);
      }
    }
    return None;
  }

  function Served(resources: seq<Resource>, path: string): Option<Resource> {
    if path == "" then (if |resources| == 1 then Some(resources[0]) else None)
    else match FirstAt(resources, path) case Some(i) => Some(resources[i]) case None => None
  }

  /** The TypeScript client's metadata address; an empty path reads as "/". */
  function MetadataPath(path: string): string {
    RESOURCE + (if path == "" || path == "/" then "" else path)
  }

  /** What the two metadata routes hand to the resource lookup; None when neither matches. */
  function PathValue(path: string): Option<string> {
    if path == RESOURCE then Some("")
    else if RESOURCE + "/" <= path then Some(path[|RESOURCE| + 1..])
    else None
  }

  lemma MetadataRouted(path: string)
    requires path == "" || path[0] == '/'
    ensures PathValue(MetadataPath(path)) == Some(if path == "" then "" else path[1..])
    ensures MetadataPath(path) == if path in ["", "/"] then "/.well-known/oauth-protected-resource" else "/.well-known/oauth-protected-resource" + path
  {
    var full := MetadataPath(path);
    if path != "" && path != "/" {
      assert full == RESOURCE + path && full[|RESOURCE|] == '/';
      assert full[..|RESOURCE| + 1] == RESOURCE + "/";
      assert full[|RESOURCE| + 1..] == path[1..];
    } else if path == "/" {
      assert path[1..] == "" && RESOURCE + "" == RESOURCE;
    }
  }

  lemma {:induction false} TrimRightUnder(rest: string)
    ensures TrimRight("/" + rest) == if TrimRight(rest) == "" then "" else "/" + TrimRight(rest)
  {
    var path := "/" + rest;
    if rest == "" {
      assert path[..|path| - 1] == "";
    } else if rest[|rest| - 1] == '/' {
      assert path[..|path| - 1] == "/" + rest[..|rest| - 1];
      TrimRightUnder(rest[..|rest| - 1]);
    }
  }

  lemma TrimUnderSlash(path: string)
    requires path != "" && path[0] == '/'
    ensures Trim(path[1..]) == Trim(path)
  {
    var rest := path[1..];
    assert path == "/" + rest;
    TrimRightUnder(rest);
    assert ("/" + TrimRight(rest))[1..] == TrimRight(rest);
  }

  /** The address the client derives from a configured resource leads back to that
      resource exactly when no other resource at its path comes first, or, for a
      resource at the root, when it is the only one. */
  lemma {:induction false} ResolvesBack(resources: seq<Resource>, i: nat)
    requires i < |resources| && resources[i].path.Some?
    requires var path := resources[i].path.value; path == "" || path[0] == '/'
    ensures var path := resources[i].path.value;
      var asked := PathValue(MetadataPath(path));
      && asked.Some?
      && (Served(resources, asked.value) == Some(resources[i]) <==>
            if path == "" || path == "/" then |resources| == 1
            else resources[FirstAt(resources, path).value] == resources[i])
  {
    var path := resources[i].path.value;
    MetadataRouted(path);
    if path != "" && path != "/" {
      TrimUnderSlash(path);
      SameFirst(resources, path[1..], path);
      assert At(resources[i], path);
    }
  }

  lemma {:induction false} SameFirst(resources: seq<Resource>, a: string, b: string)
    requires Trim(a) == Trim(b)
    ensures FirstAt(resources, a) == FirstAt(resources, b)
  {
    if resources != [] { SameFirst(resources[1..], a, b); }
  }

  /** Resources with distinct non-empty paths all resolve back. */
  lemma DistinctPathsResolve(resources: seq<Resource>, i: nat)
    requires forall k :: 0 <= k < |resources| ==> resources[k].path.Some? && Trim(resources[k].path.value) != "" && resources[k].path.value[0] == '/'
    requires forall j, k :: 0 <= j < k < |resources| ==> Trim(resources[j].path.value) != Trim(resources[k].path.value)
    requires i < |resources|
    ensures PathValue(MetadataPath(resources[i].path.value)).Some?
    ensures Served(resources, PathValue(MetadataPath(resources[i].path.value)).value) == Some(resources[i])
  {
    var path := resources[i].path.value;
    assert At(resources[i], path);
    assert FirstAt(resources, path).value == i;
    ResolvesBack(resources, i);
    assert TrimRight("/") == "" by { assert "/"[..0] == ""; }
  }
}
