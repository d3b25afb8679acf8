/** Credential lookup (src/auth.ts): the candidate locations of OpenCode's
    auth.json, the first-success probe over them, and the per-provider OAuth
    resolvers. The file system, the environment, the home directory,
    `JSON.parse` and `Date.now()` are inputs. */
module Auth {
  import opened Common

  /** A location as the components handed to `path.join`. */
  type Path = seq<string>

  /** What the lookup reads from the process: `homedir()` and `process.env.XDG_DATA_HOME`. */
  datatype Env = Env(home: string, xdgDataHome: Option<string>)

  /** One provider's entry in auth.json. */
  datatype AuthEntry =
    | OAuth(refresh: string, access: string, expires: int, accountId: Option<string>)
    | Api(key: string)

  /** The parsed auth.json: provider name to entry. */
  type AuthFile = map<string, AuthEntry>

  /** The files `readFile` can read, with their contents; a path outside the map fails to read. */
  type Files = map<Path, string>

  datatype ClaudeAuth = ClaudeAuth(accessToken: string, expired: bool)

  datatype CodexAuth = CodexAuth(accessToken: string, accountId: Option<string>, expired: bool)

  const NoAuthFileMessage := "No auth.json found. Is OpenCode installed and authenticated?"

  /** `if (process.env.XDG_DATA_HOME)`: set and non-empty. */
  predicate XdgSet(env: Env) {
    env.xdgDataHome.Some? && env.xdgDataHome.value != ""
  }

  function LocalSharePath(home: string): Path {
    [home, ".local", "share", "opencode", "auth.json"]
  }

  function LibraryPath(home: string): Path {
    [home, "Library", "Application Support", "opencode", "auth.json"]
  }

  function XdgPath(xdg: string): Path {
    [xdg, "opencode", "auth.json"]
  }

  /** The candidate locations in probe order: the two per-OS locations, with the
      XDG location in front of them when the variable is set. */
  function CandidatePaths(env: Env): (r: seq<Path>)
    ensures |r| == if XdgSet(env) then 3 else 2
    ensures r[|r| - 2] == LocalSharePath(env.home) && r[|r| - 1] == LibraryPath(env.home)
    ensures XdgSet(env) ==> r[0] == XdgPath(env.xdgDataHome.value)
  {
    var paths := [LocalSharePath(env.home), LibraryPath(env.home)];
    if XdgSet(env) then [XdgPath(env.xdgDataHome.value)] + paths else paths
  }

  /** `getAuthPaths`: builds the two-element list, then `unshift`s the XDG location. */
  method GetAuthPaths(env: Env) returns (paths: seq<Path>)
    ensures paths == CandidatePaths(env)
  {
    paths := [LocalSharePath(env.home), LibraryPath(env.home)];
    if XdgSet(env) {
      paths := [XdgPath(env.xdgDataHome.value)] + paths;
    }
  }

  /** Both the read and the JSON parse of `p` succeed. */
  predicate Loads(files: Files, parse: string -> Option<AuthFile>, p: Path) {
    p in files && parse(files[p]).Some?
  }

  /** What `readAuthFile` resolves to when it probes `paths` in order. */
  function LoadAuthFile(paths: seq<Path>, files: Files, parse: string -> Option<AuthFile>): Result<AuthFile>
    decreases |paths|
  {
    if |paths| == 0 then Failure(NoAuthFileMessage)
    else if Loads(files, parse, paths[0]) then Success(parse(files[paths[0]]).value)
    else LoadAuthFile(paths[1..], files, parse)
  }

  /** The probe yields the parse of the first candidate that reads and parses,
      skipping earlier failures silently, and fails with the fixed message
      exactly when no candidate does. */
  lemma {:induction false} LoadAuthFileFirstSuccess(paths: seq<Path>, files: Files, parse: string -> Option<AuthFile>)
    ensures var r := LoadAuthFile(paths, files, parse);
      && (r.Success? <==> exists i :: 0 <= i < |paths| && Loads(files, parse, paths[i]))
      && (r.Failure? ==> r.error == NoAuthFileMessage)
      && (r.Success? ==> exists i :: 0 <= i < |paths| && Loads(files, parse, paths[i])
                          && (forall j :: 0 <= j < i ==> !Loads(files, parse, paths[j]))
                          && r.value == parse(files[paths[i]]).value)
    decreases |paths|
  {
    if paths != [] && !Loads(files, parse, paths[0]) {
      LoadAuthFileFirstSuccess(paths[1..], files, parse);
      var r := LoadAuthFile(paths[1..], files, parse);
      if r.Success? {
        var i :| 0 <= i < |paths| - 1 && Loads(files, parse, paths[1..][i])
                 && (forall j :: 0 <= j < i ==> !Loads(files, parse, paths[1..][j]))
                 && r.value == parse(files[paths[1..][i]]).value;
        assert Loads(files, parse, paths[i + 1]);
        assert forall j :: 0 <= j < i + 1 ==> !Loads(files, parse, paths[j]) by {
          forall j | 0 <= j < i + 1 ensures !Loads(files, parse, paths[j]) {
            if j > 0 { assert paths[j] == paths[1..][j - 1]; }
          }
        }
      } else {
        forall i | 0 <= i < |paths| ensures !Loads(files, parse, paths[i]) {
          if i > 0 { assert paths[i] == paths[1..][i - 1]; }
        }
      }
    }
  }

  /** `readAuthFile`: tries each candidate in turn and returns on the first that
      reads and parses; a failure on one candidate moves on to the next. */
  method ReadAuthFile(env: Env, files: Files, parse: string -> Option<AuthFile>) returns (r: Result<AuthFile>)
    ensures r == LoadAuthFile(CandidatePaths(env), files, parse)
  {
    var paths := GetAuthPaths(env);
    for i := 0 to |paths|
      invariant LoadAuthFile(paths[i..], files, parse) == LoadAuthFile(paths, files, parse)
    {
      assert paths[i..][1..] == paths[i + 1..];
      var path := paths[i];
      if path in files {
        var parsed := parse(files[path]);
        if parsed.Some? {
          return Success(parsed.value);
        }
      }
    }
    return Failure(NoAuthFileMessage);
  }

  /** The anthropic entry as a usable bearer token: absent unless the entry
      exists and is an OAuth entry; expired strictly after its expiry instant. */
  function ResolveClaudeAuth(file: AuthFile, now: int): (r: Option<ClaudeAuth>)
    ensures r.Some? <==> "anthropic" in file && file["anthropic"].OAuth?
    ensures r.Some? ==> r.value.accessToken == file["anthropic"].access
    ensures r.Some? ==> (r.value.expired <==> now > file["anthropic"].expires)
  {
    if "anthropic" !in file || !file["anthropic"].OAuth? then None
    else
      var entry := file["anthropic"];
      Some(ClaudeAuth(entry.access, now > entry.expires))
  }

  /** The openai entry as a usable bearer token plus the account id, passed on
      unchanged (absent included). */
  function ResolveCodexAuth(file: AuthFile, now: int): (r: Option<CodexAuth>)
    ensures r.Some? <==> "openai" in file && file["openai"].OAuth?
    ensures r.Some? ==> r.value.accessToken == file["openai"].access
    ensures r.Some? ==> r.value.accountId == file["openai"].accountId
    ensures r.Some? ==> (r.value.expired <==> now > file["openai"].expires)
  {
    if "openai" !in file || !file["openai"].OAuth? then None
    else
      var entry := file["openai"];
      Some(CodexAuth(entry.access, entry.accountId, now > entry.expires))
  }

  /** `getClaudeAuth`: the lookup's failure propagates; otherwise the resolved entry. */
  method GetClaudeAuth(env: Env, files: Files, parse: string -> Option<AuthFile>, now: int)
    returns (r: Result<Option<ClaudeAuth>>)
    ensures var loaded := LoadAuthFile(CandidatePaths(env), files, parse);
      r == if loaded.Success? then Success(ResolveClaudeAuth(loaded.value, now))
           else Failure(loaded.error)
  {
    var auth := ReadAuthFile(env, files, parse);
    if auth.Failure? {
      return Failure(auth.error);
    }
    return Success(ResolveClaudeAuth(auth.value, now));
  }

  /** `getCodexAuth`: the lookup's failure propagates; otherwise the resolved entry. */
  method GetCodexAuth(env: Env, files: Files, parse: string -> Option<AuthFile>, now: int)
    returns (r: Result<Option<CodexAuth>>)
    ensures var loaded := LoadAuthFile(CandidatePaths(env), files, parse);
      r == if loaded.Success? then Success(ResolveCodexAuth(loaded.value, now))
           else Failure(loaded.error)
  {
    var auth := ReadAuthFile(env, files, parse);
    if auth.Failure? {
      return Failure(auth.error);
    }
    return Success(ResolveCodexAuth(auth.value, now));
  }
}
