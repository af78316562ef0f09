/** The client build's base path: how `BASE_PATH` from the environment is
    normalised, the value the bundle sees, and the development proxy keys. */
module ViteBasePath {
  import opened Wrappers
  import opened Strings

  /** The base path Vite serves under: "/" for an unset, empty or "/" value,
      otherwise the value with a leading "/" added when it lacks one; a
      trailing "/" is kept. */
  function NormaliseBasePath(env: Option<string>): (r: string)
    ensures StartsWith(r, "/")
    ensures r == "/" <==> !Truthy(env) || env.value == "/"
    ensures Truthy(env) && StartsWith(env.value, "/") ==> r == env.value
    ensures Truthy(env) && env.value != "/" ==> EndsWith(r, env.value) && |r| <= |env.value| + 1
  {
    if Truthy(env) && env.value != "/" then
      if StartsWith(env.value, "/") then env.value else "/" + env.value
    else "/"
  }

  /** Normalising a normalised base path changes nothing. */
  lemma {:induction false} NormaliseIdempotent(env: Option<string>)
    ensures NormaliseBasePath(Some(NormaliseBasePath(env))) == NormaliseBasePath(env)
  {
  }

  /** The `BASE_PATH` compiled into the bundle: empty at the root. */
  function DefinedBasePath(basePath: string): (r: string)
    ensures r == "" <==> basePath == "/" || basePath == ""
    ensures basePath != "/" ==> r == basePath
  {
    if basePath == "/" then "" else basePath
  }

  /** The compiled value is empty, or a path that starts with "/" and is not
      "/" itself. A trailing "/" of the setting is kept, so the slash can still
      be doubled there (see `TrailingSlashDoublesApiSlash`). */
  lemma {:induction false} DefinedBasePathShape(env: Option<string>)
    ensures var d := DefinedBasePath(NormaliseBasePath(env));
      d == "" || (StartsWith(d, "/") && d != "/")
    ensures DefinedBasePath(NormaliseBasePath(env)) == "" <==> !Truthy(env) || env.value == "/"
  {
  }

  /** A setting that ends in "/" keeps it: the API prefix the bundle builds
      from it has "//" before "api". */
  lemma {:induction false} TrailingSlashDoublesApiSlash(env: string)
    requires env != "/" && EndsWith(env, "/")
    ensures var d := DefinedBasePath(NormaliseBasePath(Some(env)));
      |d| > 0 && d[|d| - 1] == '/' && (d + "/api")[|d|] == '/'
  {
    assert env[|env| - 1..] == "/";
    assert env[|env| - 1] == '/';
    var n := if StartsWith(env, "/") then env else "/" + env;
    assert n == NormaliseBasePath(Some(env));
    assert n[|n| - 1] == '/';
    assert n != "/";
  }

  /** The three proxied prefixes of the development server. */
  function ProxyKeys(basePath: string): (r: seq<string>)
    ensures |r| == 3
    ensures forall k :: 0 <= k < 3 ==> StartsWith(r[k], basePath)
  {
    [basePath + "/api", basePath + "/socket.io", basePath + "/collab"]
  }

  /** The proxy keys are the bundle's own request prefixes except at the
      root, where the keys begin with a doubled slash ("//api"). */
  lemma {:induction false} ProxyKeysMatchClientPathsIff(basePath: string)
    ensures ProxyKeys(basePath)[0] == DefinedBasePath(basePath) + "/api" <==> basePath != "/"
    ensures basePath == "/" ==> ProxyKeys(basePath) == ["//api", "//socket.io", "//collab"]
  {
    if basePath == "/" {
      assert ProxyKeys(basePath)[0][1] == '/';
      assert (DefinedBasePath(basePath) + "/api")[1] == 'a';
      assert "/" + "/api" == "//api";
      assert "/" + "/socket.io" == "//socket.io";
      assert "/" + "/collab" == "//collab";
    }
  }
}
