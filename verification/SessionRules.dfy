/** What single commands do to a session, with the commands named. */
module SessionRules {
  import opened Common
  import opened Path
  import opened PathMeaning
  import opened Session
  import Control

  // ---- entries of the command table ----------------------------------------------------------

  /** The entry at `i` decides for its name if no earlier one has it. */
  lemma EntryDecides(table: seq<Entry>, i: nat)
    requires i < |table| && IsUpper(table[i].name)
    requires forall j :: 0 <= j < i ==> IsUpper(table[j].name) && table[j].name != table[i].name
    ensures RuleFrom(table, table[i].name, 0) == Some(table[i].rule)
  {
    var name := table[i].name;
    UpperSame(name);
    forall j | 0 <= j < i ensures !SameName(name, table[j].name) {
      UpperSame(table[j].name);
    }
    RuleAt(table, name, i, 0);
  }

  /** No entry before the `n`-th begins with the letter `c`. */
  ghost predicate NoneBegins(n: nat, c: char) {
    n <= |TABLE| && forall j :: 0 <= j < n ==> TABLE[j].name != "" && TABLE[j].name[0] != c
  }

  lemma FirstWithLetter(i: nat, name: string, rule: ArgsRule)
    requires i < |TABLE| && TABLE[i] == Entry(name, rule) && name != "" && NoneBegins(i, name[0])
    ensures RuleFrom(TABLE, name, 0) == Some(rule)
  {
    TableUpper(i);
    forall j | 0 <= j < i ensures IsUpper(TABLE[j].name) && TABLE[j].name != name {
      TableUpper(j);
    }
    EntryDecides(TABLE, i);
  }

  lemma LoginRules()
    ensures RuleFrom(TABLE, "USER", 0) == Some(Required) && RuleFrom(TABLE, "PASS", 0) == Some(Optional)
  {
    FirstWithLetter(0, "USER", Required);
    FirstWithLetter(1, "PASS", Optional);
  }

  lemma CwdRule()
    ensures RuleFrom(TABLE, "CWD", 0) == Some(Required)
  {
    FirstWithLetter(4, "CWD", Required);
  }

  lemma CdupRule()
    ensures RuleFrom(TABLE, "CDUP", 0) == Some(NoArgs)
  {
    var name := "CDUP";
    assert NoneBegins(4, name[0]) && TABLE[4].name == "CWD" && TABLE[5] == Entry(name, NoArgs);
    forall j | 0 <= j < 5 ensures IsUpper(TABLE[j].name) && TABLE[j].name != name {
      TableUpper(j);
    }
    TableUpper(5);
    EntryDecides(TABLE, 5);
  }

  lemma RetrRule()
    ensures RuleFrom(TABLE, "RETR", 0) == Some(Required)
  {
    TransferEntries();
    FirstWithLetter(11, "RETR", Required);
  }

  lemma StorRule()
    ensures RuleFrom(TABLE, "STOR", 0) == Some(Required)
  {
    TransferEntries();
    FirstWithLetter(12, "STOR", Required);
  }

  lemma TransferEntries()
    ensures |TABLE| > 12 && TABLE[11] == Entry("RETR", Required) && TABLE[12] == Entry("STOR", Required)
    ensures NoneBegins(11, 'R') && NoneBegins(12, 'S')
  {
  }

  // ---- login -------------------------------------------------------------------------------

  /** What is decided about a command whose rule is known. */
  lemma DecideAs(s: State, line: string, name: string, args: string, rule: ArgsRule)
    requires Control.Parse(line) == Control.Command(name, args) && RuleFrom(TABLE, name, 0) == Some(rule)
    ensures Decide(s, line) == if !s.authenticated && name !in PRE_LOGIN then NotLoggedIn
                               else if !ArgsOk(rule, args) then BadArgs
                               else Ran(name)
  {
  }

  lemma EffectLogsIn(s: State, env: Env, name: string, args: string)
    ensures Handle(s, env, name, args).authenticated <==> s.authenticated || name == "USER" || name == "PASS"
  {
  }

  lemma LoginRuns(s: State, line: string, name: string, args: string)
    requires Control.Parse(line) == Control.Command(name, args)
    requires (name == "USER" && args != "") || name == "PASS"
    ensures Decide(s, line) == Ran(name)
  {
    LoginRules();
    DecideAs(s, line, name, args, if name == "USER" then Required else Optional);
  }

  lemma UserRuns(s: State, line: string, args: string)
    requires Control.Parse(line) == Control.Command("USER", args) && Decide(s, line).Ran?
    ensures args != ""
  {
    LoginRules();
    DecideAs(s, line, "USER", args, Required);
  }

  /** USER with a name and PASS log in, in every state; no other line does, and none logs out. */
  lemma LoginIs(s: State, env: Env, line: string)
    ensures Next(s, env, line).authenticated <==>
      s.authenticated || match Control.Parse(line)
                         case Command(name, args) => (name == "USER" && args != "") || name == "PASS"
                         case BadLine => false
  {
    match Control.Parse(line)
    case BadLine =>
    case Command(name, args) =>
      if (name == "USER" && args != "") || name == "PASS" {
        LoginRuns(s, line, name, args);
      } else if name == "USER" && Decide(s, line).Ran? {
        UserRuns(s, line, args);
      }
      EffectLogsIn(s, env, name, args);
  }

  lemma PreLoginNames(name: string)
    ensures name in PRE_LOGIN <==>
      || name == "USER" || name == "PASS" || name == "QUIT" || name == "NOOP" || name == "FEAT"
      || name == "SYST" || name == "AUTH" || name == "OPTS" || name == "CLNT"
  {
  }

  /** Before login only the nine commands named here run. */
  lemma BeforeLogin(s: State, line: string, name: string)
    requires !s.authenticated && Decide(s, line) == Ran(name)
    ensures || name == "USER" || name == "PASS" || name == "QUIT" || name == "NOOP" || name == "FEAT"
            || name == "SYST" || name == "AUTH" || name == "OPTS" || name == "CLNT"
  {
    RanIs(s, line, name);
    PreLoginNames(name);
  }

  lemma RanIs(s: State, line: string, name: string)
    requires Decide(s, line) == Ran(name)
    ensures s.authenticated || name in PRE_LOGIN
  {
  }

  /** No file is sent or taken before login, and afterwards only with a name. */
  lemma TransferIs(s: State, env: Env, line: string, name: string, args: string)
    requires Control.Parse(line) == Control.Command(name, args) && (name == "RETR" || name == "STOR")
    ensures Decide(s, line) == if !s.authenticated then NotLoggedIn
                               else if args == "" then BadArgs
                               else Ran(name)
    ensures !s.authenticated ==> Next(s, env, line) == s
  {
    RetrRule();
    StorRule();
    NoTransferYet(name);
    DecideAs(s, line, name, args, Required);
  }

  lemma NoTransferYet(name: string)
    requires name == "RETR" || name == "STOR"
    ensures name !in PRE_LOGIN
  {
    PreLoginNames(name);
    assert name[1] != 'Y' && name[0] !in "UPQNFAOC";
  }

  // ---- the working directory ---------------------------------------------------------------

  /** Only CWD and CDUP change the directory. */
  lemma OnlyCwd(s: State, env: Env, line: string)
    requires Control.Parse(line).Command? ==> Control.Parse(line).name != "CWD" && Control.Parse(line).name != "CDUP"
    ensures Next(s, env, line).cwd == s.cwd && Next(s, env, line).root == s.root
  {
    if Decide(s, line).Ran? {
      OtherHandlers(s, env, Control.Parse(line).name, Control.Parse(line).args);
    }
  }

  lemma OtherHandlers(s: State, env: Env, name: string, args: string)
    requires name != "CWD" && name != "CDUP"
    ensures Handle(s, env, name, args).cwd == s.cwd && Handle(s, env, name, args).root == s.root
  {
  }

  lemma CwdRuns(s: State, env: Env, line: string, path: string)
    requires s.authenticated && path != "" && Control.Parse(line) == Control.Command("CWD", path)
    ensures Next(s, env, line) == ChangeDir(s.(log := s.log + ["CWD"]), env, path)
  {
    CwdRule();
    DecideAs(s, line, "CWD", path, Required);
  }

  lemma CdupRuns(s: State, env: Env, line: string)
    requires s.authenticated && Control.Parse(line) == Control.Command("CDUP", "")
    ensures Next(s, env, line) == ChangeDir(s.(log := s.log + ["CDUP"]), env, "..")
  {
    CdupRule();
    DecideAs(s, line, "CDUP", "", NoArgs);
  }

  /** The directory that `path` means can be entered. */
  predicate CanEnter(env: Env, cwd: seq<string>, root: seq<string>, path: string) {
    && TextFits(cwd, path) && Meant(cwd, path).Stack?
    && var d := Meant(cwd, path).comps;
       |Render(d)| < PATH_MAX && root <= d && !OneTooLong(env.fs, d) && env.isDir(Render(d))
  }

  lemma ChangeDirMeans(s: State, env: Env, cwd: seq<string>, root: seq<string>, path: string)
    requires NoLinks(env.fs) && ProperAll(cwd) && ProperAll(root) && s.cwd == Render(cwd) && s.root == Render(root)
    ensures ChangeDir(s, env, path)
         == if CanEnter(env, cwd, root, path) then s.(cwd := Render(Meant(cwd, path).comps)) else s
  {
    ResolveMeans(env.fs, cwd, root, path);
  }

  /** Without links, CWD enters the directory its argument means from the working directory, or changes nothing. */
  lemma CwdMeans(s: State, env: Env, line: string, cwd: seq<string>, root: seq<string>, path: string)
    requires NoLinks(env.fs) && ProperAll(cwd) && ProperAll(root) && s.cwd == Render(cwd) && s.root == Render(root)
    requires s.authenticated && path != "" && Control.Parse(line) == Control.Command("CWD", path)
    ensures Next(s, env, line).cwd == if CanEnter(env, cwd, root, path) then Render(Meant(cwd, path).comps) else s.cwd
  {
    CwdRuns(s, env, line, path);
    ChangeDirMeans(s.(log := s.log + ["CWD"]), env, cwd, root, path);
  }

  /** CDUP goes to the directory above, unless that is above the root. */
  lemma CdupMeans(s: State, env: Env, line: string, cwd: seq<string>, root: seq<string>)
    requires NoLinks(env.fs) && ProperAll(cwd) && ProperAll(root) && s.cwd == Render(cwd) && s.root == Render(root)
    requires s.authenticated && Control.Parse(line) == Control.Command("CDUP", "")
    ensures Next(s, env, line).cwd ==
            if |cwd| == 0 || |cwd| > MAX_COMPONENTS || |Render(cwd)| + 4 >= PATH_MAX then s.cwd
            else
              var up := cwd[..|cwd| - 1];
              if root <= up && env.isDir(Render(up)) then Render(up) else s.cwd
  {
    CdupRuns(s, env, line);
    if |cwd| <= MAX_COMPONENTS {
      ParentMeans(cwd);
    }
    if cwd != [] {
      UpIsShorter(cwd);
    }
    ChangeDirMeans(s.(log := s.log + ["CDUP"]), env, cwd, root, "..");
  }

  lemma UpIsShorter(cwd: seq<string>)
    requires cwd != []
    ensures |Render(cwd[..|cwd| - 1])| <= |Render(cwd)|
  {
    var n := |cwd| - 1;
    assert cwd == cwd[..n] + [cwd[n]];
    LastComponent(cwd[..n], cwd[n]);
  }
}
