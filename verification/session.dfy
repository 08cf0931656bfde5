/** Where a project's session lives and how the worker is started: the
    global cache directory, the per-project session directory named by the
    cache key, its four files, the global lock file, and the command names. */
module Session {
  import opened Paths

  const BundlerVar := "RUBOCOP_DAEMON_USE_BUNDLER"

  /** `command_prefix`: "bundle exec " when the bundler variable is set at
      all, whatever its value, and nothing otherwise. */
  function CommandPrefix(env: map<string, string>): (prefix: string)
    ensures BundlerVar in env <==> prefix == "bundle exec "
    ensures BundlerVar !in env <==> prefix == ""
  {
    if BundlerVar in env then "bundle exec " else ""
  }

  /** The prefix depends on whether the bundler variable is present, not on
      its value nor on any other variable. */
  lemma CommandPrefixPresenceOnly(env: map<string, string>, env': map<string, string>)
    requires BundlerVar in env <==> BundlerVar in env'
    ensures CommandPrefix(env) == CommandPrefix(env')
  {
  }

  /** A program name as `main` hands it to `Command::new`: one name, so with
      the bundler variable set it is the whole text "bundle exec <name>",
      spaces included. */
  function ProgramName(env: map<string, string>, name: string): (program: string)
    ensures BundlerVar in env <==> program == "bundle exec " + name
    ensures BundlerVar !in env <==> program == name
  {
    CommandPrefix(env) + name
  }

  /** The worker program. */
  function DaemonCommand(env: map<string, string>): string {
    ProgramName(env, "rubocop-daemon")
  }

  /** The plain tool `fallback_command` runs when the worker executable is not
      on the search path. */
  function FallbackCommand(env: map<string, string>): string {
    ProgramName(env, "rubocop")
  }

  /** `$HOME/.cache/rubocop-daemon`. */
  function CacheDir(home: Path): (dir: Path)
    ensures |dir| == |home| + 2 && IsAncestorOrSelf(home, dir)
    ensures dir[|home|] == ".cache" && dir[|home| + 1] == "rubocop-daemon"
  {
    home + [".cache", "rubocop-daemon"]
  }

  datatype Layout = Layout(
    cacheDir: Path,
    projectCacheDir: Path,
    token: Path,
    port: Path,
    stdin: Path,
    status: Path,
    lock: Path)

  /** The paths `main` derives from the cache directory and the cache key. */
  function SessionLayout(cacheDir: Path, key: string): (l: Layout)
    ensures l.cacheDir == cacheDir && l.lock == cacheDir + ["running.lock"]
    ensures key == "" ==> l.projectCacheDir == cacheDir
    ensures key != "" ==> l.projectCacheDir == cacheDir + [key]
    ensures l.token == l.projectCacheDir + ["token"] && l.port == l.projectCacheDir + ["port"]
    ensures l.stdin == l.projectCacheDir + ["stdin"] && l.status == l.projectCacheDir + ["status"]
  {
    var dir := Join(cacheDir, key);
    Layout(cacheDir, dir, dir + ["token"], dir + ["port"], dir + ["stdin"], dir + ["status"],
           cacheDir + ["running.lock"])
  }

  /** The environment the worker is started with, in the order `main` sets
      it: every path lies under the cache directory, the four file paths are
      the session files, and the variable names are distinct. */
  function SpawnEnv(cacheDir: Path, key: string): (env: seq<(string, Path)>)
    ensures |env| == 7
    ensures forall i, j :: 0 <= i < j < |env| ==> env[i].0 != env[j].0
    ensures forall i :: 0 <= i < |env| ==> IsAncestorOrSelf(cacheDir, env[i].1)
    ensures env[0] == ("CACHE_DIR", cacheDir)
    ensures env[1] == ("PROJECT_CACHE_DIR", SessionLayout(cacheDir, key).projectCacheDir)
    ensures env[2] == ("TOKEN_PATH", SessionLayout(cacheDir, key).token)
    ensures env[3] == ("PORT_PATH", SessionLayout(cacheDir, key).port)
    ensures env[4] == ("STDIN_PATH", SessionLayout(cacheDir, key).stdin)
    ensures env[5] == ("STATUS_PATH", SessionLayout(cacheDir, key).status)
    ensures env[6] == ("LOCK_PATH", SessionLayout(cacheDir, key).lock)
  {
    var l := SessionLayout(cacheDir, key);
    [ ("CACHE_DIR", l.cacheDir),
      ("PROJECT_CACHE_DIR", l.projectCacheDir),
      ("TOKEN_PATH", l.token),
      ("PORT_PATH", l.port),
      ("STDIN_PATH", l.stdin),
      ("STATUS_PATH", l.status),
      ("LOCK_PATH", l.lock) ]
  }

  /** The four session files are pairwise distinct, and the lock file is
      none of them. */
  predicate FilesDistinct(l: Layout) {
    && l.token != l.port && l.token != l.stdin && l.token != l.status
    && l.port != l.stdin && l.port != l.status && l.stdin != l.status
    && l.lock != l.token && l.lock != l.port && l.lock != l.stdin && l.lock != l.status
  }

  /** Every layout `main` derives has distinct files, whatever the key. */
  lemma SessionFilesDistinct(cacheDir: Path, key: string)
    ensures FilesDistinct(SessionLayout(cacheDir, key))
  {
    var l := SessionLayout(cacheDir, key);
    var n := |l.projectCacheDir|;
    assert l.token[n] == "token" && l.port[n] == "port";
    assert l.stdin[n] == "stdin" && l.status[n] == "status";
    assert l.lock[|cacheDir|] == "running.lock";
  }

  /** Distinct keys give distinct token and status files, the empty key
      included. */
  lemma DistinctKeysDistinctSessions(cacheDir: Path, k1: string, k2: string)
    requires k1 != k2
    ensures SessionLayout(cacheDir, k1).token != SessionLayout(cacheDir, k2).token
    ensures SessionLayout(cacheDir, k1).status != SessionLayout(cacheDir, k2).status
  {
    var l1 := SessionLayout(cacheDir, k1);
    var l2 := SessionLayout(cacheDir, k2);
    if k1 != "" && k2 != "" {
      assert l1.token[|cacheDir|] == k1 && l1.status[|cacheDir|] == k1;
      assert l2.token[|cacheDir|] == k2 && l2.status[|cacheDir|] == k2;
    }
  }
}
