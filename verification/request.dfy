/** The single request frame the launcher writes to the worker: the token,
    the project root, the keyword `exec`, the forwarded arguments, a newline,
    then the payload. */
module Request {
  import opened Options
  import opened Strings

  /** `args().skip(1)`: everything after the program name. */
  function ForwardedArgs(argv: seq<string>): (fwd: seq<string>)
    ensures |argv| > 0 ==> fwd == argv[1..]
    ensures |argv| == 0 ==> fwd == []
  {
    if |argv| == 0 then [] else argv[1..]
  }

  /** The first line of the frame. It holds a newline exactly when the
      token, the root or a forwarded argument holds one. */
  function Header(token: string, root: string, argv: seq<string>): (h: string)
    ensures '\n' in h <==> '\n' in token || '\n' in root || exists i :: 0 < i < |argv| && '\n' in argv[i]
  {
    var fwd := ForwardedArgs(argv);
    assert forall i :: 0 < i < |argv| ==> argv[i] == fwd[i - 1];
    assert forall i :: 0 <= i < |fwd| ==> fwd[i] == argv[i + 1];
    token + " " + root + " exec " + JoinWith(fwd, " ")
  }

  /** `format!("{} {} exec {}\n{}", token, root, args, payload)`. */
  function Frame(token: string, root: string, argv: seq<string>, payload: string): (f: string)
    ensures |f| > |token| && f[..|token| + 1] == token + " "
    ensures |f| >= |payload| + 1 && f[|f| - |payload|..] == payload && f[|f| - |payload| - 1] == '\n'
  {
    var head := Header(token, root, argv);
    assert (head + "\n" + payload)[..|token| + 1] == head[..|token| + 1];
    head + "\n" + payload
  }

  /** The split a reader makes at the first newline: the text before it and
      the text after it, or `None` if there is no newline. */
  function SplitFirstLine(s: string): (r: Option<(string, string)>)
    ensures r.None? <==> '\n' !in s
    ensures r.Some? ==> s == r.value.0 + "\n" + r.value.1 && '\n' !in r.value.0
  {
    if s == [] then None
    else if s[0] == '\n' then Some(("", s[1..]))
    else
      match SplitFirstLine(s[1..])
      case None => None
      case Some((line, rest)) =>
        assert s == [s[0]] + s[1..];
        Some(([s[0]] + line, rest))
  }

  /** A newline-free first line is the one `SplitFirstLine` finds. */
  lemma {:induction false} SplitFirstLineUnique(line: string, rest: string)
    requires '\n' !in line
    ensures SplitFirstLine(line + "\n" + rest) == Some((line, rest))
  {
    var s := line + "\n" + rest;
    if line != [] {
      assert s[0] == line[0] && line[0] in line;
      assert s[1..] == line[1..] + "\n" + rest;
      SplitFirstLineUnique(line[1..], rest);
      assert [line[0]] + line[1..] == line;
    }
  }

  /** The worker recovers the header and the payload by splitting at the
      first newline, provided the token, the root and the forwarded
      arguments hold none. */
  lemma FramePayloadRecovered(token: string, root: string, argv: seq<string>, payload: string)
    requires '\n' !in token && '\n' !in root
    requires forall i :: 0 < i < |argv| ==> '\n' !in argv[i]
    ensures SplitFirstLine(Frame(token, root, argv, payload)) == Some((Header(token, root, argv), payload))
  {
    SplitFirstLineUnique(Header(token, root, argv), payload);
  }

  /** The converse: a newline in the token, the root or a forwarded argument
      ends the first line early, and the split no longer yields the
      payload. */
  lemma FrameOnlyIf(token: string, root: string, argv: seq<string>, payload: string)
    requires '\n' in token || '\n' in root || exists i :: 0 < i < |argv| && '\n' in argv[i]
    ensures SplitFirstLine(Frame(token, root, argv, payload)).Some?
    ensures SplitFirstLine(Frame(token, root, argv, payload)).value.1 != payload
  {
    var h := Header(token, root, argv);
    var f := Frame(token, root, argv, payload);
    assert f == h + "\n" + payload;
    var k :| 0 <= k < |h| && h[k] == '\n';
    assert f[k] == '\n';
    var line := SplitFirstLine(f).value.0;
    assert forall j :: 0 <= j < |line| ==> f[j] == line[j];
    assert |line| <= k;
  }

  /** The token is sent verbatim: a token file ending in a newline ends the
      first line early, and the split no longer yields the payload. */
  lemma TokenNewlineBreaksFraming()
    ensures SplitFirstLine(Frame("t\n", "/r", ["w"], "p")) == Some(("t", " /r exec \np"))
  {
    assert ForwardedArgs(["w"]) == [];
    assert Header("t\n", "/r", ["w"]) == "t\n /r exec ";
    assert Frame("t\n", "/r", ["w"], "p") == "t" + "\n" + " /r exec \np";
    SplitFirstLineUnique("t", " /r exec \np");
  }

  /** The program name, argv[0], never reaches the worker. */
  lemma ProgramNameNotForwarded(token: string, root: string, a: string, b: string, rest: seq<string>, payload: string)
    ensures Frame(token, root, [a] + rest, payload) == Frame(token, root, [b] + rest, payload)
  {
    assert ([a] + rest)[1..] == rest == ([b] + rest)[1..];
  }

  /** The frame for `check file.rb` with token `abc123`, sent from a project
      at /home/u/app, with no payload. */
  lemma FrameExample()
    ensures Frame("abc123", "/home/u/app", ["rubocop-daemon-wrapper", "check", "file.rb"], "")
      == "abc123 /home/u/app exec check file.rb\n"
  {
    ExampleArgsJoined();
  }

  lemma ExampleArgsJoined()
    ensures JoinWith(ForwardedArgs(["rubocop-daemon-wrapper", "check", "file.rb"]), " ") == "check file.rb"
  {
    var fwd := ForwardedArgs(["rubocop-daemon-wrapper", "check", "file.rb"]);
    assert fwd == ["check", "file.rb"] && fwd[1..] == ["file.rb"];
  }

  /** The flags that ask for stdin; `--stdin=x` is not one of them. */
  predicate IsStdinFlag(a: string) {
    a == "--stdin" || a == "-s"
  }

  /** `args().any(|a| a == "--stdin" || a == "-s")`; `args()` includes the
      program name. */
  function HasStdinFlag(args: seq<string>): (b: bool)
    ensures b <==> exists i :: 0 <= i < |args| && IsStdinFlag(args[i])
  {
    if args == [] then false
    else if IsStdinFlag(args[0]) then true
    else
      var b := HasStdinFlag(args[1..]);
      assert forall i :: 0 < i < |args| ==> args[i] == args[1..][i - 1];
      b
  }

  const StdinContentVar := "STDIN_CONTENT"

  /** `stdin_content`: the STDIN_CONTENT override if set, otherwise all of
      stdin when a stdin flag is present, otherwise nothing. */
  function StdinContent(env: map<string, string>, argv: seq<string>, stdin: string): (payload: string)
    ensures StdinContentVar in env ==> payload == env[StdinContentVar]
    ensures StdinContentVar !in env && (exists i :: 0 <= i < |argv| && IsStdinFlag(argv[i])) ==> payload == stdin
    ensures StdinContentVar !in env && (forall i :: 0 <= i < |argv| ==> !IsStdinFlag(argv[i])) ==> payload == ""
  {
    if StdinContentVar in env then env[StdinContentVar]
    else if HasStdinFlag(argv) then stdin
    else ""
  }

  /** A flag with a value attached does not select stdin. */
  lemma StdinFlagWithValueIgnored(env: map<string, string>, stdin: string)
    requires StdinContentVar !in env
    ensures StdinContent(env, ["rubocop-daemon-wrapper", "--stdin=x"], stdin) == ""
  {
    var argv := ["rubocop-daemon-wrapper", "--stdin=x"];
    assert !IsStdinFlag(argv[0]) && !IsStdinFlag(argv[1]);
  }

  /** The flag is looked for in argv[0] too, although argv[0] is not
      forwarded. */
  lemma StdinFlagInProgramName(env: map<string, string>, stdin: string)
    requires StdinContentVar !in env
    ensures StdinContent(env, ["-s"], stdin) == stdin
    ensures ForwardedArgs(["-s"]) == []
  {
    assert IsStdinFlag(["-s"][0]);
  }
}
