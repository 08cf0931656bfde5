# rubocop-daemon-wrapper, modelled in Dafny

`rubocop-daemon-wrapper` is a small launcher that lets a short-lived
`rubocop` invocation reuse a long-lived `rubocop-daemon` worker. Most of it
is I/O. This project models the decision logic underneath that I/O and
proves properties of it:

- **Project-root resolution** (`ProjectRoot`). The search walks from the
  current directory upward to the nearest directory that holds a `Gemfile`.
  When no such directory exists, `main` falls back to the current directory.
  A path is a sequence of components below `/` (`Paths`). The file system is
  reduced to the set of directories that hold the marker.
- **String helpers** (`Strings`): `join` and the one-character `replace`.
- **Cache key** (`CacheKey`). The key strips the root's leading `/`
  characters and replaces every other `/` with `+`. It is injective only on
  roots without `+`, and the model proves both the round trip and the
  collision.
- **Strict integer parsing** (`IntParse`). This is Rust's `str::parse` for
  `i32` (the exit status) and `u16` (the port): an optional sign, at least
  one digit, nothing else, and the value in range.
- **Request frame and payload** (`Request`): the one frame sent to the
  worker and the choice of payload by `stdin_content`. A split at the first
  newline stands for the way a reader separates the header from the payload.
  The worker's own parser is not part of this model.
- **Session layout and commands** (`Session`): the cache directory, the
  session directory and its `token`/`port`/`stdin`/`status` files, the lock
  path, the worker's start environment, and the program names with their
  `bundle exec ` prefix.
- **One run of `main`** (`Launcher`). The run falls back to the plain tool
  when the worker executable is missing. Otherwise it starts the worker when
  the session has no token, clears the stale status, sends the request,
  relays the response, and turns the `status` text into the exit code. The
  environment, the marker directories, the session files and the worker's
  answers are all parameters. Panics end the run with Rust's panic status
  101. An error returned from `main` through `?` ends it with status 1.
- **A worked example** (`Scenarios`): a project at `/home/u/app` that holds
  its own `Gemfile` gets the session directory `home+u+app`.

Behaviour of the code worth noting:

- The key of `/home/u/app` is `home+u+app`, with no leading `+`, because
  leading separators are stripped rather than replaced.
- A `status` file the worker never wrote makes `main` return an error through
  `?`. The "server did not write status" diagnostic is printed only for a
  file that exists but does not parse.
- A failing `rubocop-daemon start` is not fatal by itself. `.status()` only
  fails when the process cannot be spawned, and a missing `token` afterwards
  is what ends the run.
- The fallback tool receives every argument, the program name included.
  The worker receives the arguments after the program name.
- `running.lock` is created and removed again at once, because the guard
  that should remove it at exit is not bound to a variable and is dropped
  on the spot. A run that gets past HOME therefore leaves no lock file.
- With `RUBOCOP_DAEMON_USE_BUNDLER` set, `Command::new` gets the single
  program name `bundle exec rubocop-daemon` (or `bundle exec rubocop`);
  it does not split it into a program and arguments. Whether a program
  name can be spawned is a parameter of the model (`Host.spawnable`), and
  a name that cannot be spawned panics with `rubocop failed` or
  `fallback failed`.

## Model

| member | source | states |
|---|---|---|
| Paths.Parent | src/project_root.rs:9 | the parent exists exactly off the root, and it is one component shorter and an ancestor |
| Paths.Join | src/main.rs:33 | joining the empty key names the directory itself; any other key names a direct child |
| Paths.PathString | src/project_root.rs:7 | a path renders as text beginning with `/`; the root renders as `/` alone, and any other normalised path never ends in `/` |
| Paths.PathStringInjective | src/project_root.rs:7 | distinct normalised paths render to distinct strings |
| ProjectRoot.FindRoot | src/project_root.rs:3-11 | a found root is a marked ancestor-or-self with no marked directory between it and the start; `None` exactly when no ancestor-or-self is marked |
| ProjectRoot.FindRootLoop | src/project_root.rs:4-10 | the loop terminates and agrees with the recursive search; it probes the start and then each parent in turn, stops at the first marked one, and never probes above the root it returns; with no root it probes every ancestor |
| ProjectRoot.EffectiveRoot | src/main.rs:30-31 | the root in use is an ancestor-or-self of the current directory: the nearest marked one, or the current directory when none is marked |
| ProjectRoot.MarkedStartIsRoot | src/project_root.rs:6-7 | a start directory holding a Gemfile is returned unchanged |
| ProjectRoot.NearestMarkerWins | src/project_root.rs:5-10 | when the nearest marker is in an ancestor, that ancestor is the result, whatever lies further up |
| ProjectRoot.FindRootIdempotent | src/project_root.rs:6-7 | searching again from the root returns the root |
| ProjectRoot.SameRootBetween | src/project_root.rs:5-10 | every directory between a root and a descendant that resolves to it resolves to the same root |
| Strings.Substitute | src/main.rs:32 | length is kept; each character equal to `from` becomes `to`; every other character is kept |
| CacheKey.LeadingSlashes | src/main.rs:32 | counts the run of leading `/`: every counted character is `/` and the next one is not |
| CacheKey.Key | src/main.rs:32 | the key has no `/`; its length is the root's length minus the leading `/` run; each character is the root's character after that run, with `/` turned into `+` |
| CacheKey.RestoreRoot | src/main.rs:32 | the inverse mapping yields a `/`-prefixed string one character longer than the key |
| CacheKey.KeyRoundTrip | src/main.rs:32 | a root with exactly one leading `/` and no `+` is recovered from its key |
| CacheKey.KeyInjective | src/main.rs:32 | two such roots with the same key are equal |
| CacheKey.KeyCollision | src/main.rs:32 | `/a+b` and `/a/b` share the key `a+b` |
| CacheKey.PathKeyInjective | src/main.rs:30-32 | normalised paths whose components hold no `+` get distinct keys |
| CacheKey.PathKeyCollision | src/main.rs:30-32 | the normalised paths `/a+b` and `/a/b` get the same key |
| CacheKey.KeyOfPath | src/main.rs:30-32 | the key of a normalised path is its components joined by `+`: the leading separator is dropped, not turned into `+` |
| CacheKey.RootKeyIsEmpty | src/main.rs:32-33 | the file-system root has the empty key, so its session directory is the cache directory |
| IntParse.ParseInteger | src/main.rs:114 | a parsed value is in range, the text is non-empty, and everything after an optional sign is a digit; the value is those digits read in base ten, negated after `-` and unchanged after `+` or no sign; an unsigned type never accepts `-` |
| IntParse.ParseI32 | src/main.rs:114 | a parsed status lies in the i32 range |
| IntParse.ParseU16 | src/main.rs:49-51 | a parsed port lies in 0..65535 |
| IntParse.ParseRendered | src/main.rs:114 | a decimal rendering parses, as a signed type, back to its value exactly when that value is in the type's range, and fails otherwise |
| IntParse.I32RoundTrip | src/main.rs:114-117 | every i32 written in decimal parses back to itself |
| IntParse.U16RoundTrip | src/main.rs:49-51 | every port number written in decimal parses back to itself |
| IntParse.TrailingNonDigitRejected | src/main.rs:114 | no trimming: a trailing non-digit, such as the newline of `0\n`, makes the text unparsable |
| IntParse.LeadingNonDigitRejected | src/main.rs:114 | no trimming: a leading character that is neither a digit nor a sign makes the text unparsable |
| IntParse.I32OverflowRejected | src/main.rs:114 | a decimal value outside the i32 range is rejected, not wrapped |
| Request.ForwardedArgs | src/main.rs:58 | the forwarded arguments are the arguments after the program name |
| Strings.JoinWith | src/main.rs:58 | a character occurs in the joined text exactly when it occurs in some part, or in the separator and there are at least two parts |
| Request.Header | src/main.rs:54-58 | the first line holds a newline exactly when the token, the root or a forwarded argument holds one |
| Request.Frame | src/main.rs:54-60 | the frame starts with the token and a space and ends with a newline followed by the payload |
| Request.FramePayloadRecovered | src/main.rs:54-60 | when the token, the root and the arguments hold no newline, splitting at the first newline yields the header line and exactly the payload |
| Request.FrameOnlyIf | src/main.rs:54-60 | conversely, a newline in the token, the root or a forwarded argument ends the first line early, and the split no longer yields the payload |
| Request.TokenNewlineBreaksFraming | src/main.rs:48 | the token is sent verbatim, so a token ending in a newline ends the first line early |
| Request.ProgramNameNotForwarded | src/main.rs:58 | the frame does not depend on argv[0] |
| Request.FrameExample | src/main.rs:54-60 | with token `abc123`, root `/home/u/app`, arguments `check file.rb` and no payload, the frame is `abc123 /home/u/app exec check file.rb\n` |
| Request.HasStdinFlag | src/main.rs:103 | true exactly when some argument is `--stdin` or `-s` |
| Request.StdinContent | src/main.rs:101-111 | a set STDIN_CONTENT wins; otherwise the payload is all of stdin exactly when some argument, argv[0] included, is a stdin flag; otherwise it is empty |
| Request.StdinFlagWithValueIgnored | src/main.rs:103 | `--stdin=x` does not select stdin |
| Request.StdinFlagInProgramName | src/main.rs:103 | a flag in argv[0] selects stdin although argv[0] is not forwarded |
| Session.CommandPrefix | src/main.rs:72-78 | the prefix is `bundle exec ` exactly when the bundler variable is present, whatever its value, and empty otherwise |
| Session.CommandPrefixPresenceOnly | src/main.rs:72-78 | two environments that agree on whether the bundler variable is present get the same prefix, whatever the values and the other variables |
| Session.ProgramName | src/main.rs:35 | the program is the single name `bundle exec <name>` exactly when the bundler variable is present, and the bare name exactly when it is absent; it names both the worker (`rubocop-daemon`) and the fallback (`rubocop`, src/main.rs:83) |
| Session.CacheDir | src/main.rs:19-21 | the cache directory lies two levels below HOME, at `.cache/rubocop-daemon` |
| Session.SessionLayout | src/main.rs:24-43 | the session directory is the cache directory for the empty key and its child named by the key otherwise; token, port, stdin and status are that directory joined with their names; the lock is `running.lock` in the cache directory |
| Session.SessionFilesDistinct | src/main.rs:24-43 | the four session files are pairwise distinct and the lock file is none of them, whatever the key |
| Session.SpawnEnv | src/main.rs:37-43 | seven variables with distinct names, in the order `main` sets them; every path lies under the cache directory; TOKEN/PORT/STDIN/STATUS_PATH are the session files and LOCK_PATH is the lock path |
| Session.DistinctKeysDistinctSessions | src/main.rs:33-42 | distinct keys give distinct token and status files |
| Launcher.ExitWithStatus | src/main.rs:113-124 | a missing file is an error out of `main`; an i32 text removes the file and exits with that value; other text prints the diagnostic, exits 1 and keeps the file |
| Launcher.StatusRoundTrip | src/main.rs:114-117 | a status written as any i32 in decimal ends the run with exactly that code and removes the file |
| Launcher.StatusWithNewlineRejected | src/main.rs:119-121 | the status `0\n` prints the diagnostic and exits 1 |
| Launcher.RootText | src/main.rs:30-31 | the root text is an absolute path; it is the current directory when that holds the Gemfile or when no ancestor does |
| Launcher.SessionOf | src/main.rs:32-33 | the session lies in `$HOME/.cache/rubocop-daemon`, under the subdirectory named by the key of the root text, and its files are pairwise distinct |
| Launcher.QueryOf | src/main.rs:54-60 | the request carries the absolute root text and the unchanged argument list; its payload is `STDIN_CONTENT` when set, otherwise standard input when a `--stdin`/`-s` flag is present, otherwise empty |
| Launcher.StartOf | src/main.rs:34-45 | a start is possible exactly when the worker program can be spawned, and it is the `start` directive |
| Launcher.AfterStartWrites | src/main.rs:34-46 | the start leaves what the worker wrote in `token` and `port` and every other file as it was |
| Launcher.FilesAfterStartShape | src/main.rs:24-46 | after the lock and the start, `running.lock` is gone, the token is the one found or the one the start wrote, and no other file but the port has changed |
| Launcher.Connect | src/main.rs:48-52 | a missing token or port file is an error out of `main` and a port that is not a `u16` panics with "parsing port file", each with nothing sent and no file changed; otherwise the frame with the token as read is sent |
| Launcher.Exchange | src/main.rs:61-69 | the exchange clears the status, sends the frame, relays the response, reads the status, and removes it at most once at the end; stdout is the response |
| Launcher.SessionRun | src/main.rs:34-69 | what the launcher itself writes to stdout is the worker's response or nothing |
| Launcher.Run | src/main.rs:16-70 | what the launcher itself writes to stdout is the worker's response or nothing; a run that falls back to the plain tool or has no HOME changes no file by the launcher's own steps |
| Launcher.SpawnIffNoToken | src/main.rs:34-46 | the worker is started exactly when the session has no token and its program can be spawned, first, with `start` and the session's paths |
| Launcher.StartFailurePanics | src/main.rs:34-45 | with no token and a worker program that cannot be spawned, the run panics with "rubocop failed", sends nothing, and only the lock file is gone |
| Launcher.NoTokenAfterStartEndsRun | src/main.rs:34-48 | a start that leaves no token ends the run with an error out of `main` and nothing sent |
| Launcher.StepOrder | src/main.rs:61-69 | the stale status is cleared right before the request is sent; the status is read only after the response was relayed; it is removed only right after being read |
| Launcher.ExitFromThisExchange | src/main.rs:113-124 | once the request is sent, the ending is decided by what the worker writes in this exchange: its i32 value, the diagnostic and exit 1, or the error path with exit 1 and no diagnostic when nothing is written |
| Launcher.ExchangeIgnoresStale | src/main.rs:61 | the exchange's outcome does not depend on a stale status file |
| Launcher.StaleStatusIgnored | src/main.rs:61 | whatever a stale status file holds, the run ends the same way |
| Launcher.OnlySessionFilesChange | src/main.rs:24-69 | the launcher's own steps, together with the token and port the worker writes, remove `running.lock` and change no file other than the session's token, port, status and the lock file |
| Launcher.RequestContents | src/main.rs:34-60 | the request follows the start, if any, and carries the token found or the one the start wrote, the resolved root or the current directory, the forwarded arguments and the chosen payload |
| Launcher.FallbackWhenNoDaemon | src/main.rs:80-88 | without the worker executable the plain tool runs with every argument and its exit code is passed on (0 after a signal); a tool that cannot be spawned panics with "fallback failed"; the launcher itself changes no file |
| Scenarios.AppRootText | src/main.rs:30-31 | started in /home/u/app, which holds a Gemfile, the root text is `/home/u/app` |
| Scenarios.AppKey | src/main.rs:32 | the key of `/home/u/app` is `home+u+app`, with no leading `+` |

## Left out

- Network I/O: the TCP connect, the write, the half-close and `io::copy` (src/main.rs:52, 62-68). The connection is assumed to succeed, and the response is an opaque string that becomes standard output.
- Launcher.Exchange: the frame is sent whole. The source uses `write` rather than `write_all`, and a short write is not modelled.
- The `fs2` exclusive lock itself (src/main.rs:90-99). As written, the guard is dropped at once and the locked file is closed when `lock_file` returns, so no mutual exclusion exists to verify. The model keeps only the net effect on the file map: `running.lock` is gone after the lock step. A failure to open or lock the file, which panics, is not modelled.
- Process spawning, the `which` lookup and the fallback's own behaviour (src/main.rs:35-45, 80-88). These are foreign calls. Whether the worker executable is on the search path and which program names can be spawned are parameters. The model keeps the command names and arguments as events. It also keeps the worker's observable effects as parameters: the files written by `start`, the response and the status.
- Reading HOME, the current directory, environment variables and stdin, and `create_dir_all`. These are inputs, and their I/O errors are not modelled. HOME arrives already split into components, and a missing HOME panics.
- Non-UTF-8 data: paths, environment values, stdin or file contents that are not valid UTF-8, and the panics and errors they cause.
- The OS truncating the exit code to 8 bits, and a panic from `remove_file(...).unwrap()` after a status was parsed (src/main.rs:116).
- Panic and error messages: the text Rust prints for a panic or for an error returned from `main`. Only the launcher's own diagnostic is modelled on stderr.
- Concurrent launchers racing on the same session files. The model is one sequential run.
- Launcher.Run: its stdout and file guarantees cover only the launcher's own actions. The children it spawns inherit stdout and may change any file: the plain `rubocop` (src/main.rs:84), `rubocop-daemon start` (src/main.rs:44) and the worker serving the request, for example under `-a`. The model does not represent those effects.
- Launcher.FallbackWhenNoDaemon: "no file changes" means none by the launcher. The plain `rubocop` it runs (src/main.rs:84) inherits stdout and may rewrite any file, for example under `-a`, and the model does not represent that.
- Launcher.OnlySessionFilesChange: the frame covers the launcher and the token and port files the worker writes at start. Other files that `rubocop-daemon start` (src/main.rs:44) or the worker serving the request change, such as sources corrected under `-a`, are not modelled.
