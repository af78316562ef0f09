/** The server's global route prefix and the hook that refuses API
    requests made without a resolved workspace. The base path is the value
    the environment service returns; the request is reduced to its original
    URL and the workspace id attached to it. */
module ServerPrefix {
  import opened Wrappers
  import opened Strings
  import ViteBasePath

  /** `replace(/^\//, '')`: one leading slash removed. */
  function DropLeadingSlash(s: string): (r: string)
    ensures StartsWith(s, "/") ==> "/" + r == s
    ensures !StartsWith(s, "/") ==> r == s
  {
    if StartsWith(s, "/") then s[1..] else s
  }

  /** The prefix given to `setGlobalPrefix`: "api" with no base path. */
  function ApiPrefix(basePath: string): (r: string)
    ensures basePath == "" ==> r == "api"
    ensures basePath != "" ==> EndsWith(r, "/api")
  {
    if basePath != "" then DropLeadingSlash(basePath) + "/api" else "api"
  }

  /** The prefix as it appears at the start of a request URL. */
  function FullApiPrefix(basePath: string): (r: string)
    ensures StartsWith(r, "/") && EndsWith(r, "/api")
  {
    "/" + ApiPrefix(basePath)
  }

  /** The full prefix is the base path, given a leading slash when it lacks
      one, followed by "/api"; a base path of "/" gives "//api". */
  lemma {:induction false} FullApiPrefixOfBasePath(basePath: string)
    ensures basePath == "" ==> FullApiPrefix(basePath) == "/api"
    ensures StartsWith(basePath, "/") ==> FullApiPrefix(basePath) == basePath + "/api"
    ensures basePath != "" && !StartsWith(basePath, "/") ==> FullApiPrefix(basePath) == "/" + basePath + "/api"
  {
    if StartsWith(basePath, "/") {
      var rest := DropLeadingSlash(basePath);
      assert "/" + (rest + "/api") == ("/" + rest) + "/api";
    }
  }

  /** The path tails that may be called without a workspace. */
  const ExcludedTails: seq<string> := ["/auth/setup", "/health", "/billing/stripe/webhook",
    "/workspace/check-hostname", "/sso/google", "/workspace/create", "/workspace/joined"]

  function ExcludedPaths(fullApiPrefix: string): (r: seq<string>)
    ensures |r| == |ExcludedTails|
    ensures forall k :: 0 <= k < |r| ==> r[k] == fullApiPrefix + ExcludedTails[k]
  {
    seq(|ExcludedTails|, k requires 0 <= k < |ExcludedTails| => fullApiPrefix + ExcludedTails[k])
  }

  /** `paths.some(path => url.startsWith(path))` */
  function AnyPrefix(url: string, paths: seq<string>): (r: bool)
    ensures r <==> exists k :: 0 <= k < |paths| && StartsWith(url, paths[k])
  {
    if paths == [] then false
    else StartsWith(url, paths[0]) || AnyPrefix(url, paths[1..])
  }

  datatype Request = Request(originalUrl: string, workspaceId: Option<string>)

  datatype HookOutcome = Done | NotFound(message: string)

  /** The `preHandler` hook: `done()`, or the 'Workspace not found' error. */
  function PreHandler(req: Request, fullApiPrefix: string): (r: HookOutcome)
    ensures r.NotFound? ==> r.message == "Workspace not found"
  {
    if StartsWith(req.originalUrl, fullApiPrefix) && !AnyPrefix(req.originalUrl, ExcludedPaths(fullApiPrefix)) then
      if !Truthy(req.workspaceId) && req.originalUrl != fullApiPrefix then NotFound("Workspace not found")
      else Done
    else Done
  }

  /** A request is refused exactly when its URL lies under the API prefix,
      starts with none of the excluded paths, is not the bare prefix, and
      no workspace was resolved for it. */
  lemma {:induction false} PreHandlerRefusesIff(req: Request, fullApiPrefix: string)
    ensures PreHandler(req, fullApiPrefix).NotFound? <==>
      StartsWith(req.originalUrl, fullApiPrefix)
      && (forall k :: 0 <= k < |ExcludedTails| ==> !StartsWith(req.originalUrl, fullApiPrefix + ExcludedTails[k]))
      && !Truthy(req.workspaceId)
      && req.originalUrl != fullApiPrefix
  {
    var paths := ExcludedPaths(fullApiPrefix);
    if AnyPrefix(req.originalUrl, paths) {
      var k :| 0 <= k < |paths| && StartsWith(req.originalUrl, paths[k]);
      assert paths[k] == fullApiPrefix + ExcludedTails[k];
    }
  }

  /** Requests outside the API prefix, and requests with a workspace, always
      pass. */
  lemma {:induction false} PassesOutsidePrefixOrWithWorkspace(req: Request, fullApiPrefix: string)
    ensures !StartsWith(req.originalUrl, fullApiPrefix) ==> PreHandler(req, fullApiPrefix) == Done
    ensures Truthy(req.workspaceId) ==> PreHandler(req, fullApiPrefix) == Done
  {
  }

  /** The exclusion is by prefix: with no base path, "/api/healthX" passes
      without a workspace, while "/api/pages" does not. */
  lemma ExclusionIsByPrefix()
    ensures PreHandler(Request("/api/healthX", None), FullApiPrefix("")) == Done
    ensures PreHandler(Request("/api/pages", None), FullApiPrefix("")) == NotFound("Workspace not found")
  {
    var full := FullApiPrefix("");
    assert full == "/api";
    var paths := ExcludedPaths(full);
    assert paths[1] == "/api/health";
    assert StartsWith("/api/healthX", paths[1]) by {
      assert "/api/healthX"[..|paths[1]|] == "/api/health";
    }
    var url := "/api/pages";
    assert StartsWith(url, full) by { assert url[..4] == "/api"; }
    forall k | 0 <= k < |paths| ensures !StartsWith(url, paths[k]) {
      assert paths[k] == full + ExcludedTails[k];
      assert |ExcludedTails[k]| > 1 && ExcludedTails[k][1] != 'p';
      assert paths[k][5] == ExcludedTails[k][1];
      assert url[5] == 'p';
    }
    assert url != full by { assert |url| != |full|; }
  }

  /** When the server's base path is the same `BASE_PATH` the client was
      built with, the client's API path and the server's prefix coincide,
      except for the value "/", for which the server's prefix is "//api". */
  lemma {:induction false} ClientAndServerAgreeOnApiPath(env: string)
    ensures env != "/" ==>
      ViteBasePath.DefinedBasePath(ViteBasePath.NormaliseBasePath(Some(env))) + "/api" == FullApiPrefix(env)
    ensures env == "/" ==> FullApiPrefix(env) == "//api"
  {
    FullApiPrefixOfBasePath(env);
    var client := ViteBasePath.DefinedBasePath(ViteBasePath.NormaliseBasePath(Some(env)));
    if env == "/" {
      assert DropLeadingSlash(env) == "";
      assert "/" + ("" + "/api") == "//api";
    } else if env == "" {
      assert client == "";
    } else if StartsWith(env, "/") {
      assert client == env;
    } else {
      assert client == "/" + env;
      assert ("/" + env) + "/api" == "/" + env + "/api";
    }
  }
}
