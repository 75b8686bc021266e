/**
 Command dispatch and session state of src/ftp_session.c with the handlers of
 src/ftp_commands.c that change it: login and navigation.
 */
module Session {
  import opened Common
  import opened Path
  import Control

  datatype ArgsRule = NoArgs | Required | Optional

  datatype Entry = Entry(name: string, rule: ArgsRule)

  /** command_table of src/ftp_protocol.c, with every optional feature built in. */
  const TABLE: seq<Entry> := [
    Entry("USER", Required), Entry("PASS", Optional), Entry("QUIT", NoArgs), Entry("NOOP", NoArgs),
    Entry("CWD", Required), Entry("CDUP", NoArgs), Entry("PWD", NoArgs),
    Entry("LIST", Optional), Entry("NLST", Optional), Entry("MLSD", Optional), Entry("MLST", Optional),
    Entry("RETR", Required), Entry("STOR", Required), Entry("APPE", Required), Entry("REST", Required),
    Entry("DELE", Required), Entry("RMD", Required), Entry("MKD", Required), Entry("RNFR", Required),
    Entry("RNTO", Required),
    Entry("CPFR", Required), Entry("CPTO", Required), Entry("COPY", Required),
    Entry("PORT", Required), Entry("PASV", NoArgs), Entry("EPSV", Optional),
    Entry("OPTS", Required), Entry("SITE", Required), Entry("CLNT", Optional),
    Entry("SIZE", Required), Entry("MDTM", Required), Entry("STAT", Optional), Entry("SYST", NoArgs),
    Entry("FEAT", NoArgs),
    Entry("HELP", Optional), Entry("TYPE", Required), Entry("MODE", Required), Entry("STRU", Required),
    Entry("AUTH", Required)
  ]

  const PRE_LOGIN: set<string> := {"USER", "PASS", "QUIT", "NOOP", "FEAT", "SYST", "AUTH", "OPTS", "CLNT"}

  const LOGIN: set<string> := {"USER", "PASS"}

  /** The environment of one command: the file system, and which paths are directories. */
  datatype Env = Env(fs: Files, isDir: string -> bool)

  datatype State = State(root: string, cwd: string, authenticated: bool, log: seq<string>)

  datatype Outcome = Syntax | NotLoggedIn | BadArgs | Ran(name: string)

  /** `strcasecmp(a, b) == 0` */
  predicate SameName(a: string, b: string) {
    Control.Upper(a) == Control.Upper(b)
  }

  predicate Listed(table: seq<Entry>, name: string) {
    exists i :: 0 <= i < |table| && SameName(name, table[i].name)
  }

  /** `ftp_find_command`: the index of the first entry of that name in any case, or the table's size. */
  method FindCommand(name: string) returns (i: nat)
    ensures i <= |TABLE| && (i < |TABLE| ==> SameName(name, TABLE[i].name)) && (i == |TABLE| ==> !Listed(TABLE, name))
    ensures forall j :: 0 <= j < i ==> !SameName(name, TABLE[j].name)
  {
    i := FindIn(TABLE, name);
  }

  method FindIn(table: seq<Entry>, name: string) returns (i: nat)
    ensures i <= |table| && (i < |table| ==> SameName(name, table[i].name)) && (i == |table| ==> !Listed(table, name))
    ensures forall j :: 0 <= j < i ==> !SameName(name, table[j].name)
  {
    i := 0;
    while i < |table| && !SameName(name, table[i].name)
      invariant i <= |table| && forall j :: 0 <= j < i ==> !SameName(name, table[j].name)
    {
      i := i + 1;
    }
  }

  predicate IsUpper(s: string) {
    forall i :: 0 <= i < |s| ==> !('a' <= s[i] <= 'z')
  }

  lemma TableUpper(i: nat)
    requires i < |TABLE|
    ensures IsUpper(TABLE[i].name)
  {
  }

  lemma UpperSame(s: string)
    requires IsUpper(s)
    ensures Control.Upper(s) == s
  {
  }

  /** A parsed name is in upper case, so the entry found has just that name. */
  lemma FoundIs(name: string, i: nat)
    requires i < |TABLE| && IsUpper(name) && SameName(name, TABLE[i].name)
    ensures name == TABLE[i].name
  {
    TableUpper(i);
    UpperSame(name);
    UpperSame(TABLE[i].name);
  }

  lemma ParsedUpper(line: string)
    ensures Control.Parse(line).Command? ==> IsUpper(Control.Parse(line).name)
  {
  }

  /** The rule of a listed command: that of the first entry with its name. */
  function RuleFrom(table: seq<Entry>, name: string, i: nat): Option<ArgsRule>
    requires i <= |table|
    decreases |table| - i
  {
    if i == |table| then None
    else if SameName(name, table[i].name) then Some(table[i].rule)
    else RuleFrom(table, name, i + 1)
  }

  /** `ftp_validate_command_args` */
  predicate ArgsOk(rule: ArgsRule, args: string) {
    match rule
    case NoArgs => args == ""
    case Required => args != ""
    case Optional => true
  }

  /** What the dispatcher decides about a line. */
  function Decide(s: State, line: string): Outcome {
    match Control.Parse(line)
    case BadLine => Syntax
    case Command(name, args) =>
      var rule := RuleFrom(TABLE, name, 0);
      if rule.None? then Syntax
      else if !s.authenticated && name !in PRE_LOGIN then NotLoggedIn
      else if !ArgsOk(rule.value, args) then BadArgs
      else Ran(name)
  }

  /** cmd_CWD: the directory changes only to a resolved path that is a directory. */
  function ChangeDir(s: State, env: Env, path: string): State {
    match Resolve(env.fs, s.cwd, s.root, path)
    case Err(_) => s
    case Ok(p) => if env.isDir(p) && |p| < PATH_MAX then s.(cwd := p) else s
  }

  /** What a handler does to the session; handlers not named here leave these fields alone. */
  function Effect(s: State, env: Env, handler: string, args: string): State {
    if handler in LOGIN then s.(authenticated := true)
    else if handler == "CWD" then ChangeDir(s, env, args)
    else if handler == "CDUP" then ChangeDir(s, env, "..")
    else s
  }

  function Handle(s: State, env: Env, name: string, args: string): State {
    Effect(s.(log := s.log + [name]), env, name, args)
  }

  function Next(s: State, env: Env, line: string): State {
    match Decide(s, line)
    case Ran(name) => Handle(s, env, name, Control.Parse(line).args)
    case _ => s
  }

  /** The session object. */
  class FtpSession {
    var root: string
    var cwd: string
    var authenticated: bool
    ghost var log: seq<string>

    ghost function Abs(): State
      reads this
    {
      State(root, cwd, authenticated, log)
    }

    /** `ftp_session_init`, after the root was made a real path. */
    constructor (rootPath: string)
      ensures Abs() == State(rootPath, rootPath, false, [])
    {
      root, cwd, authenticated, log := rootPath, rootPath, false, [];
    }

    /** `ftp_session_process_command`: 1 for QUIT, 0 otherwise. */
    method ProcessCommand(line: string, env: Env) returns (result: int)
      modifies this
      ensures Abs() == Next(old(Abs()), env, line)
      ensures result == if Decide(old(Abs()), line) == Ran("QUIT") then 1 else 0
    {
      var parsed := Control.ParseCommandLine(line);
      if parsed.BadLine? {
        return 0;
      }
      var name, args := parsed.name, parsed.args;
      var i := FindCommand(name);
      RuleAt(TABLE, name, i, 0);
      if i == |TABLE| {
        return 0;
      }
      if !authenticated && name !in PRE_LOGIN {
        return 0;
      }
      if !ArgsOk(TABLE[i].rule, args) {
        return 0;
      }
      ParsedUpper(line);
      FoundIs(name, i);
      log := log + [name];
      Dispatch(TABLE[i].name, args, env);
      result := if name == "QUIT" then 1 else 0;
    }

    /** The handlers that change the session. */
    method Dispatch(handler: string, args: string, env: Env)
      modifies this`authenticated, this`cwd
      ensures Abs() == Effect(old(Abs()), env, handler, args)
    {
      if handler in LOGIN {
        authenticated := true;
      } else if handler == "CWD" {
        Cwd(args, env);
      } else if handler == "CDUP" {
        Cwd("..", env);
      }
    }

    /** `cmd_CWD`: the directory stays as it is, or becomes one that exists and lies below the root. */
    method Cwd(path: string, env: Env)
      modifies this`cwd
      ensures Faithful(env.fs) ==>
                || cwd == old(cwd)
                || (Canonical(cwd) && IsWithinRoot(cwd, root) && |cwd| < PATH_MAX && env.isDir(cwd))
      ensures cwd != old(cwd) ==> Resolve(env.fs, old(cwd), root, path) == Ok(cwd)
      ensures Abs() == ChangeDir(old(Abs()), env, path)
    {
      var r := Resolve(env.fs, cwd, root, path);
      if Faithful(env.fs) {
        ResolveConfined(env.fs, cwd, root, path);
      }
      if r.Ok? && env.isDir(r.value) && |r.value| < PATH_MAX {
        cwd := r.value;
      }
    }
  }

  lemma {:induction false} RuleAt(table: seq<Entry>, name: string, i: nat, from: nat)
    requires from <= i <= |table| && (i < |table| ==> SameName(name, table[i].name))
    requires forall j :: 0 <= j < i ==> !SameName(name, table[j].name)
    ensures RuleFrom(table, name, from) == if i < |table| then Some(table[i].rule) else None
    decreases i - from
  {
    if from < i {
      RuleAt(table, name, i, from + 1);
    }
  }

  // ---- every run ---------------------------------------------------------------------------------

  ghost predicate LoggedInBy(log: seq<string>, n: nat)
    requires n <= |log|
  {
    exists j :: 0 <= j < n && log[j] in LOGIN
  }

  /** What every run of command lines keeps. */
  ghost predicate Inv(s: State) {
    && Canonical(s.cwd) && IsWithinRoot(s.cwd, s.root)
    && (s.authenticated <==> LoggedInBy(s.log, |s.log|))
    && forall i :: 0 <= i < |s.log| ==> s.log[i] in PRE_LOGIN || LoggedInBy(s.log, i)
  }

  lemma InitInv(comps: seq<string>)
    requires ProperAll(comps)
    ensures Inv(State(Render(comps), Render(comps), false, []))
  {
    WithinRootIff(comps, comps);
  }

  lemma LogGrows(s: State, name: string)
    requires Inv(s) && (s.authenticated || name in PRE_LOGIN)
    ensures Inv(s.(log := s.log + [name], authenticated := s.authenticated || name in LOGIN))
  {
    var log' := s.log + [name];
    forall i | 0 <= i < |log'| ensures log'[i] in PRE_LOGIN || LoggedInBy(log', i) {
      if i < |s.log| && s.log[i] !in PRE_LOGIN {
        var j :| 0 <= j < i && s.log[j] in LOGIN;
        assert log'[j] in LOGIN;
      } else if i == |s.log| && name !in PRE_LOGIN {
        var j :| 0 <= j < |s.log| && s.log[j] in LOGIN;
        assert log'[j] in LOGIN;
      }
    }
    if s.authenticated {
      var j :| 0 <= j < |s.log| && s.log[j] in LOGIN;
      assert log'[j] in LOGIN;
    }
    assert log'[|s.log|] == name;
    if LoggedInBy(log', |log'|) && !s.authenticated {
      var j :| 0 <= j < |log'| && log'[j] in LOGIN;
      assert j < |s.log| ==> s.log[j] in LOGIN;
    }
  }

  lemma ChangeDirKeeps(s: State, env: Env, path: string)
    requires Inv(s) && Faithful(env.fs)
    ensures Inv(ChangeDir(s, env, path)) && ChangeDir(s, env, path) == s.(cwd := ChangeDir(s, env, path).cwd)
  {
    ResolveConfined(env.fs, s.cwd, s.root, path);
  }

  lemma NextKeeps(s: State, env: Env, line: string)
    requires Inv(s) && Faithful(env.fs)
    ensures Inv(Next(s, env, line)) && Next(s, env, line).root == s.root
  {
    if Decide(s, line).Ran? {
      var name, args := Decide(s, line).name, Control.Parse(line).args;
      LogGrows(s, name);
      var t := s.(log := s.log + [name]);
      if name !in LOGIN {
        ChangeDirKeeps(t, env, args);
        ChangeDirKeeps(t, env, "..");
      }
    }
  }

  /** The session after `lines`; `envs(k)` is the environment of the k-th command. */
  function Run(s: State, envs: nat -> Env, lines: seq<string>): State {
    if lines == [] then s
    else Next(Run(s, envs, lines[..|lines| - 1]), envs(|lines| - 1), lines[|lines| - 1])
  }

  /**
   From a canonical root, every sequence of command lines, on any file system and however it
   changes between commands, keeps the working directory below the root; the session counts as
   logged in exactly when USER or PASS has run; before that only the nine named commands run.
   */
  lemma {:induction false} RunKeeps(s: State, envs: nat -> Env, lines: seq<string>)
    requires Inv(s) && forall k: nat :: Faithful(envs(k).fs)
    ensures Inv(Run(s, envs, lines)) && Run(s, envs, lines).root == s.root
  {
    if lines != [] {
      RunKeeps(s, envs, lines[..|lines| - 1]);
      NextKeeps(Run(s, envs, lines[..|lines| - 1]), envs(|lines| - 1), lines[|lines| - 1]);
    }
  }

  /** In components: the root's components are always a prefix of the working directory's. */
  lemma CwdBelowRoot(root: seq<string>, envs: nat -> Env, lines: seq<string>) returns (cwd: seq<string>)
    requires ProperAll(root) && forall k: nat :: Faithful(envs(k).fs)
    ensures ProperAll(cwd) && root <= cwd
    ensures Run(State(Render(root), Render(root), false, []), envs, lines).cwd == Render(cwd)
  {
    var s := State(Render(root), Render(root), false, []);
    InitInv(root);
    RunKeeps(s, envs, lines);
    cwd :| ProperAll(cwd) && Run(s, envs, lines).cwd == Render(cwd);
    WithinRootIff(cwd, root);
  }

  // ---- the session thread --------------------------------------------------------------------------

  lemma TableStart()
    ensures |TABLE| > 2 && TABLE[0].name == "USER" && TABLE[1].name == "PASS" && TABLE[2] == Entry("QUIT", NoArgs)
  {
  }

  lemma QuitRule(table: seq<Entry>, name: string)
    requires |table| > 2 && table[0].name == "USER" && table[1].name == "PASS" && table[2] == Entry("QUIT", NoArgs)
    requires name == "QUIT"
    ensures RuleFrom(table, name, 0) == Some(NoArgs)
  {
    assert Control.Upper(name)[0] == 'Q' && Control.Upper(table[0].name)[0] == 'U'
      && Control.Upper(table[1].name)[0] == 'P';
    assert forall j :: 0 <= j < 2 ==> !SameName(name, table[j].name);
    assert SameName(name, table[2].name);
    RuleAt(table, name, 2, 0);
  }

  /** QUIT without arguments ends the session in every state, and nothing else does. */
  lemma QuitIs(s: State, line: string)
    ensures Decide(s, line) == Ran("QUIT") <==> Control.Parse(line) == Control.Command("QUIT", "")
  {
    if Control.Parse(line).Command? && Control.Parse(line).name == "QUIT" {
      TableStart();
      QuitRule(TABLE, Control.Parse(line).name);
    }
  }

  /** The command lines among what was read. */
  function Texts(log: seq<Control.Read>): seq<string> {
    if log == [] then []
    else
      var last := log[|log| - 1];
      Texts(log[..|log| - 1]) + if last.Got? then [last.text] else []
  }

  lemma TextsAdd(log: seq<Control.Read>, r: Control.Read)
    ensures Texts(log + [r]) == Texts(log) + if r.Got? then [r.text] else []
  {
    assert (log + [r])[..|log|] == log;
  }

  /** The states a session goes through, command by command. */
  ghost predicate Trace(trace: seq<State>, envs: nat -> Env, lines: seq<string>) {
    |trace| == |lines| + 1 && forall i :: 0 <= i < |lines| ==> Follows(trace[i], envs(i), lines[i], trace[i + 1])
  }

  ghost predicate Follows(s: State, env: Env, line: string, s': State) {
    s' == Next(s, env, line)
  }

  lemma {:induction false} TraceIsRun(trace: seq<State>, envs: nat -> Env, lines: seq<string>)
    requires Trace(trace, envs, lines)
    ensures trace[|lines|] == Run(trace[0], envs, lines)
  {
    if lines != [] {
      var n := |lines| - 1;
      assert Trace(trace[..n + 1], envs, lines[..n]);
      TraceIsRun(trace[..n + 1], envs, lines[..n]);
      assert Follows(trace[n], envs(n), lines[n], trace[n + 1]);
    }
  }

  /** One command of the loop, added to the trace. */
  method Execute(sess: FtpSession, text: string, envs: nat -> Env, k: nat, ghost trace: seq<State>,
                 ghost lines: seq<string>)
    returns (quit: bool, ghost longer: seq<State>)
    requires Trace(trace, envs, lines) && k == |lines| && trace[k] == sess.Abs()
    modifies sess
    ensures longer == trace + [sess.Abs()] && Trace(longer, envs, lines + [text])
    ensures quit <==> Control.Parse(text) == Control.Command("QUIT", "")
  {
    QuitIs(sess.Abs(), text);
    var result := sess.ProcessCommand(text, envs(k));
    quit := result == 1;
    longer := trace + [sess.Abs()];
    assert Follows(trace[k], envs(k), text, longer[k + 1]);
    forall i | 0 <= i < |lines + [text]| ensures Follows(longer[i], envs(i), (lines + [text])[i], longer[i + 1]) {
      assert i < k ==> Follows(trace[i], envs(i), lines[i], trace[i + 1]);
    }
  }

  /** One turn of the loop: a line is read and, if it is one, executed. */
  method Turn(ch: Control.Channel, sess: FtpSession, buffer: array<char>, ghost idle: nat -> bool, envs: nat -> Env,
              ghost goal: seq<Control.Read>, log: seq<Control.Read>, ghost s: string,
              ghost trace: seq<State>, commands: nat)
    returns (log': seq<Control.Read>, ghost trace': seq<State>, commands': nat, over: bool, ghost rest: string)
    requires ch.Valid() && s == ch.Stream() && buffer.Length == Control.BUFFER_SIZE && buffer != ch.rxbuf
    requires Control.SoFar(goal, log, s, idle) && !idle(|log|)
    requires Trace(trace, envs, Texts(log)) && commands == |Texts(log)| && trace[commands] == sess.Abs()
    modifies ch, ch.rxbuf, sess, buffer
    ensures ch.Valid() && commands' == |Texts(log')|
    ensures Trace(trace', envs, Texts(log')) && trace'[0] == trace[0] && trace'[commands'] == sess.Abs()
    ensures if over then goal == log' else rest == ch.Stream() && |rest| < |s| && Control.SoFar(goal, log', rest, idle)
  {
    var r := ch.ReadCommand(buffer);
    rest := if r.Closed? then "" else ch.Stream();
    Control.SoFarStep(goal, log, s, r, rest, idle);
    TextsAdd(log, r);
    over, trace', commands' := r.Closed?, trace, commands;
    if r.Got? {
      over, trace' := Execute(sess, r.text, envs, commands, trace, Texts(log));
      commands' := commands + 1;
    }
    log' := log + [r];
  }

  /**
   The loop of `ftp_session_thread`: whatever bytes arrive, in whatever chunks, the session goes
   through the states its command lines lead to, until the end of the stream, a QUIT or idleness.
   */
  method Thread(ch: Control.Channel, sess: FtpSession, idle: nat -> bool, envs: nat -> Env)
    returns (log: seq<Control.Read>, ghost trace: seq<State>)
    requires ch.Valid()
    modifies ch, ch.rxbuf, sess
    ensures log == Control.Served(Control.ReadAllFrom(old(ch.Stream())), idle, 0)
    ensures Trace(trace, envs, Texts(log)) && trace[0] == old(sess.Abs()) && trace[|Texts(log)|] == sess.Abs()
  {
    var buffer := new char[Control.BUFFER_SIZE];
    log, trace := [], [sess.Abs()];
    var commands, over := 0, false;
    ghost var s := ch.Stream();
    ghost var goal := Control.Served(Control.ReadAllFrom(s), idle, 0);
    while !over && !idle(|log|)
      invariant ch.Valid() && fresh(buffer) && commands == |Texts(log)|
      invariant Trace(trace, envs, Texts(log)) && trace[0] == old(sess.Abs()) && trace[commands] == sess.Abs()
      invariant if over then goal == log else s == ch.Stream() && Control.SoFar(goal, log, s, idle)
      decreases !over, |s|
    {
      log, trace, commands, over, s := Turn(ch, sess, buffer, idle, envs, goal, log, s, trace, commands);
    }
  }

  /** A whole session, from its bytes: it ends with its directory below the root. */
  method ServeClient(chunks: seq<string>, root: seq<string>, idle: nat -> bool, envs: nat -> Env)
    returns (cwd: string, ghost below: seq<string>)
    requires forall i :: 0 <= i < |chunks| ==> 0 < |chunks[i]| <= Control.BUFFER_SIZE
    requires ProperAll(root) && forall k: nat :: Faithful(envs(k).fs)
    ensures cwd == Render(below) && ProperAll(below) && root <= below
    ensures exists lines :: cwd == Run(State(Render(root), Render(root), false, []), envs, lines).cwd
  {
    var ch := new Control.Channel(chunks);
    var sess := new FtpSession(Render(root));
    var log;
    ghost var trace;
    log, trace := Thread(ch, sess, idle, envs);
    cwd := sess.cwd;
    TraceIsRun(trace, envs, Texts(log));
    below := CwdBelowRoot(root, envs, Texts(log));
  }
}
