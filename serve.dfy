/**
 * The command gate (`gitosis/serve.py`, `serve`): it checks an SSH command
 * against the allowed git verbs and the `ALLOW_RE` argument grammar, asks
 * the access decision for write and then read access, creates a missing
 * repository, and returns the command rewritten to the repository's path.
 */
module Serve {
  import opened Outcomes
  import opened Text
  import opened Words
  import opened Dicts
  import opened Patterns
  import opened Config
  import opened Access
  import opened Files

  const ReadCommands: seq<string> := ["git-upload-pack", "git upload-pack"]
  const WriteCommands: seq<string> := ["git-receive-pack", "git receive-pack"]

  /** One variant per `ServingError` subclass that `serve` raises. The two
      access errors are the `AccessDenied` family. */
  datatype ServeError =
    | CommandMayNotContainNewline
    | UnknownCommand
    | UnsafeArguments
    | BadEncodedID
    | WriteAccessDenied
    | ReadAccessDenied
    | BadRepositoryPath
  {
    predicate IsAccessDenied() {
      this == WriteAccessDenied || this == ReadAccessDenied
    }
  }

  /** Why `serve` stopped without a command: a serving error, or something
      that is not one and escapes to the caller. */
  datatype Stop =
    | Refused(error: ServeError)
    | AssertionFailed(reponame: string)  // the check at `serve.py` line 126
    | Diverged                           // group enumeration without end
    | Escaped(cause: LookupError)        // a list stored as `path_regex`

  /** The permission `serve` works from: the verb, and the pair the access
      decision granted. */
  datatype Grant = Grant(verb: string, repobase: string, reponame: string)

  // ---------------------------------------------------------------------
  // ALLOW_RE

  predicate IsAlnum(c: char) {
    'a' <= c <= 'z' || 'A' <= c <= 'Z' || '0' <= c <= '9'
  }

  predicate IsNameChar(c: char) {
    IsAlnum(c) || c == '@' || c == '.' || c == '_' || c == '-'
  }

  /** `[a-zA-Z0-9][a-zA-Z0-9@._-]*` */
  predicate IsSegment(s: string) {
    s != [] && IsAlnum(s[0]) && forall i :: 1 <= i < |s| ==> IsNameChar(s[i])
  }

  /** The `path` group: segments separated by single slashes. */
  predicate IsRepoPath(p: string) {
    var segments := SplitChar(p, '/');
    forall i :: 0 <= i < |segments| ==> IsSegment(segments[i])
  }

  /** The leading run of slashes, dropped greedily. */
  function DropSlashes(s: string): (r: string)
    ensures |r| <= |s| && r == s[|s| - |r|..]
    ensures r == [] || r[0] != '/'
    ensures forall i :: 0 <= i < |s| - |r| ==> s[i] == '/'
  {
    if s != [] && s[0] == '/' then DropSlashes(s[1..]) else s
  }

  /** `ALLOW_RE.match(args)`, giving the `path` group. `$` also matches
      before a final newline. */
  function AllowedPath(args: string): Option<string> {
    var a := if args != [] && args[|args| - 1] == '\n' then args[..|args| - 1] else args;
    if |a| >= 2 && a[0] == '\'' && a[|a| - 1] == '\'' then
      var p := DropSlashes(a[1..|a| - 1]);
      if IsRepoPath(p) then Some(p) else None
    else None
  }

  /** A non-empty first piece starts where `s` does. */
  lemma SplitCharHead(s: string, c: char)
    ensures SplitChar(s, c)[0] != [] ==> s != [] && s[0] != c && SplitChar(s, c)[0][0] == s[0]
  {
  }

  /** A path of the grammar is made of name characters and slashes. */
  lemma RepoPathChars(p: string)
    requires IsRepoPath(p)
    ensures forall i :: 0 <= i < |p| ==> IsNameChar(p[i]) || p[i] == '/'
  {
    var segments := SplitChar(p, '/');
    forall i | 0 <= i < |p| && p[i] != '/' ensures IsNameChar(p[i]) {
      SplitCharMember(p, '/', p[i]);
      var k :| 0 <= k < |segments| && p[i] in segments[k];
      var j :| 0 <= j < |segments[k]| && segments[k][j] == p[i];
      assert IsSegment(segments[k]);
    }
  }

  /** What the argument grammar lets through: a path that does not start
      with `/`, has no empty, `.` or `..` component, and holds no quote. */
  lemma AllowedPathSafe(args: string)
    ensures AllowedPath(args).Some? ==>
      var p := AllowedPath(args).value;
      var segments := SplitChar(p, '/');
      p != [] && p[0] != '/' && '\'' !in p && '"' !in p &&
      forall i :: 0 <= i < |segments| ==> segments[i] != [] && segments[i] != "." && segments[i] != ".."
  {
    if AllowedPath(args).Some? {
      var p := AllowedPath(args).value;
      RepoPathHead(p);
      RepoPathQuotes(p);
      RepoPathSegments(p);
    }
  }

  lemma RepoPathHead(p: string)
    requires IsRepoPath(p)
    ensures p != [] && p[0] != '/'
  {
    assert IsSegment(SplitChar(p, '/')[0]);
    SplitCharHead(p, '/');
  }

  lemma RepoPathQuotes(p: string)
    requires IsRepoPath(p)
    ensures '\'' !in p && '"' !in p
  {
    RepoPathChars(p);
  }

  lemma RepoPathSegments(p: string)
    requires IsRepoPath(p)
    ensures var segments := SplitChar(p, '/');
      forall i :: 0 <= i < |segments| ==> segments[i] != [] && segments[i] != "." && segments[i] != ".."
  {
    var segments := SplitChar(p, '/');
    forall i | 0 <= i < |segments|
      ensures segments[i] != [] && segments[i] != "." && segments[i] != ".."
    {
      assert IsSegment(segments[i]);
    }
  }

  /** Every character of `s` other than the separator lies in some piece. */
  lemma SplitCharMember(s: string, c: char, x: char)
    requires x in s && x != c
    ensures exists k :: 0 <= k < |SplitChar(s, c)| && x in SplitChar(s, c)[k]
  {
    var r := SplitChar(s[1..], c);
    if s[0] == x {
      assert x in SplitChar(s, c)[0];
    } else {
      SplitCharMember(s[1..], c, x);
      var k :| 0 <= k < |r| && x in r[k];
      if s[0] == c {
        assert SplitChar(s, c)[k + 1] == r[k];
      } else if k == 0 {
        assert SplitChar(s, c)[0] == [s[0]] + r[0];
      } else {
        assert SplitChar(s, c)[k] == r[k];
      }
    }
  }

  // ---------------------------------------------------------------------
  // The decision (lines 67-127)

  /** The verb and its argument: `git <sub>` is rebuilt with one space. */
  function ParseCommand(command: string): Option<(string, string)> {
    var parts := SplitOnce(command);
    if |parts| < 2 then None
    else if parts[0] == "git" then
      var sub := SplitOnce(parts[1]);
      if |sub| < 2 then None else Some(("git " + sub[0], sub[1]))
    else Some((parts[0], parts[1]))
  }

  /** The user after optional decoding: `decodeID` set to a true value
      replaces the user by its decoded form. */
  function EffectiveUser(doc: Doc, parseBool: string -> bool, decodeId: string -> string, user: string): Option<string>
    requires "gitosis" in doc.global.entries
  {
    match Get(doc.global.entries["gitosis"], "decodeID")
    case Some(flag) =>
      if flag != [] && parseBool(flag) then
        var decoded := decodeId(user);
        if decoded == [] then None else Some(decoded)
      else Some(user)
    case None => Some(user)
  }

  /** The access decision as `serve` uses it: write access first, then,
      for a read verb only, read access. */
  function Authorize(engine: Engine, doc: Doc, user: string, verb: string, path: string, fuel: nat): Result<(string, string), Stop>
    requires "gitosis" in doc.global.entries
  {
    match HaveAccess(engine, doc, user, ReadWrite, path, fuel)
    case Granted(prefix, name) => Ok((prefix, name))
    case Undecided => Err(Diverged)
    case Raised(e) => Err(Escaped(e))
    case Denied =>
      if verb in WriteCommands then Err(Refused(WriteAccessDenied))
      else
        match HaveAccess(engine, doc, user, ReadOnly, path, fuel)
        case Granted(prefix, name) => Ok((prefix, name))
        case Undecided => Err(Diverged)
        case Raised(e) => Err(Escaped(e))
        case Denied => Err(Refused(ReadAccessDenied))
  }

  /** The verb and the repository path of a well-formed command. */
  function Request(command: string): Result<(string, string), ServeError> {
    if '\n' in command then Err(CommandMayNotContainNewline)
    else
      match ParseCommand(command)
      case None => Err(UnknownCommand)
      case Some((verb, args)) =>
        if verb !in WriteCommands && verb !in ReadCommands then Err(UnknownCommand)
        else
          match AllowedPath(args)
          case None => Err(UnsafeArguments)
          case Some(path) => Ok((verb, path))
  }

  /** Lines 67-127 of `serve`: every check up to and including the
      assertion that the granted name has no `.git` ending. */
  function Decide(engine: Engine, doc: Doc, parseBool: string -> bool, decodeId: string -> string,
                  user: string, command: string, fuel: nat): Result<Grant, Stop>
    requires "gitosis" in doc.global.entries
  {
    match Request(command)
    case Err(e) => Err(Refused(e))
    case Ok((verb, path)) =>
      match EffectiveUser(doc, parseBool, decodeId, user)
      case None => Err(Refused(BadEncodedID))
      case Some(who) =>
        match Authorize(engine, doc, who, verb, path, fuel)
        case Err(stop) => Err(stop)
        case Ok((repobase, reponame)) =>
          if EndsWith(reponame, ".git") then Err(AssertionFailed(reponame))
          else Ok(Grant(verb, repobase, reponame))
  }

  /** A command holding a newline is refused before anything else is
      looked at. */
  lemma NewlineFirst(engine: Engine, doc: Doc, parseBool: string -> bool, decodeId: string -> string,
                     user: string, command: string, fuel: nat)
    requires "gitosis" in doc.global.entries
    requires '\n' in command
    ensures Decide(engine, doc, parseBool, decodeId, user, command, fuel) == Err(Refused(CommandMayNotContainNewline))
  {
  }

  /** With `decodeID` set to a true value, a user that decodes to nothing is
      refused before any access is looked up. */
  lemma EmptyDecodeRefused(engine: Engine, doc: Doc, parseBool: string -> bool, decodeId: string -> string,
                           user: string, command: string, flag: string, fuel: nat)
    requires "gitosis" in doc.global.entries
    requires Request(command).Ok?
    requires Get(doc.global.entries["gitosis"], "decodeID") == Some(flag) && flag != [] && parseBool(flag)
    requires decodeId(user) == []
    ensures Decide(engine, doc, parseBool, decodeId, user, command, fuel) == Err(Refused(BadEncodedID))
  {
  }

  /** A well-formed command has no newline, a listed verb, and an argument
      of the grammar. */
  lemma RequestMeaning(command: string)
    ensures Request(command).Ok? ==>
      var (verb, path) := Request(command).value;
      '\n' !in command && (verb in WriteCommands || verb in ReadCommands) &&
      ParseCommand(command).Some? && ParseCommand(command).value.0 == verb &&
      AllowedPath(ParseCommand(command).value.1) == Some(path)
  {
  }

  /** Permission comes from write access, or for a read verb from read
      access, and names the prefix and the stripped path. */
  lemma AuthorizeMeaning(engine: Engine, doc: Doc, user: string, verb: string, path: string, fuel: nat)
    requires "gitosis" in doc.global.entries
    ensures Authorize(engine, doc, user, verb, path, fuel).Ok? ==>
      Authorize(engine, doc, user, verb, path, fuel).value == (RepositoriesPrefix(doc), StripGitExt(path)) &&
      (HaveAccess(engine, doc, user, ReadWrite, path, fuel).Granted? ||
       (verb !in WriteCommands && HaveAccess(engine, doc, user, ReadOnly, path, fuel).Granted?))
  {
    GrantMeaning(engine, doc, user, ReadWrite, path, fuel);
    GrantMeaning(engine, doc, user, ReadOnly, path, fuel);
  }

  /** A grant names the verb of a well-formed command and the stripped
      requested path under the access prefix; the name has no `.git`
      ending, and the (decoded) user has write access, or read access for a
      read verb. */
  lemma DecideMeaning(engine: Engine, doc: Doc, parseBool: string -> bool, decodeId: string -> string,
                      user: string, command: string, fuel: nat)
    requires "gitosis" in doc.global.entries
    ensures Decide(engine, doc, parseBool, decodeId, user, command, fuel).Ok? ==>
      var g := Decide(engine, doc, parseBool, decodeId, user, command, fuel).value;
      var who := EffectiveUser(doc, parseBool, decodeId, user);
      Request(command) == Ok((g.verb, Request(command).value.1)) && who.Some? &&
      var path := Request(command).value.1;
      g.reponame == StripGitExt(path) && !EndsWith(g.reponame, ".git") &&
      g.repobase == RepositoriesPrefix(doc) &&
      (HaveAccess(engine, doc, who.value, ReadWrite, path, fuel).Granted? ||
       (g.verb !in WriteCommands && HaveAccess(engine, doc, who.value, ReadOnly, path, fuel).Granted?))
  {
    if Decide(engine, doc, parseBool, decodeId, user, command, fuel).Ok? {
      var (verb, path) := Request(command).value;
      var who := EffectiveUser(doc, parseBool, decodeId, user).value;
      AuthorizeMeaning(engine, doc, who, verb, path, fuel);
    }
  }

  /** Write access denied to a write verb is final: read access is not
      consulted. */
  lemma WriteDeniedIsFinal(engine: Engine, doc: Doc, user: string, verb: string, path: string, fuel: nat)
    requires "gitosis" in doc.global.entries
    requires verb in WriteCommands
    requires HaveAccess(engine, doc, user, ReadWrite, path, fuel) == Denied
    ensures Authorize(engine, doc, user, verb, path, fuel) == Err(Refused(WriteAccessDenied))
  {
  }

  /** The configuration of `AssertionReachable`: only a section `a.git`,
      whose write list is `alice`. */
  function DoubledDoc(): Doc {
    var section := Dict(["RW+"], map["RW+" := WordList(["alice"])]);
    InitialDoc().(repos := Dict(["a.git"], map["a.git" := section]))
  }

  lemma DoubledRequest()
    ensures Request("git-receive-pack 'a.git.git'") == Ok(("git-receive-pack", "a.git.git"))
  {
    DoubledParse();
    DoubledAllowed();
    DoubledNoNewline();
    assert "git-receive-pack" == WriteCommands[0];
    RequestOk("git-receive-pack 'a.git.git'", "git-receive-pack", "'a.git.git'", "a.git.git");
  }

  /** A command without a newline, whose verb is known and whose argument
      passes `ALLOW_RE`, is accepted. */
  lemma RequestOk(command: string, verb: string, args: string, path: string)
    requires '\n' !in command && ParseCommand(command) == Some((verb, args))
    requires verb in WriteCommands || verb in ReadCommands
    requires AllowedPath(args) == Some(path)
    ensures Request(command) == Ok((verb, path))
  {
  }

  lemma DoubledParse()
    ensures ParseCommand("git-receive-pack 'a.git.git'") == Some(("git-receive-pack", "'a.git.git'"))
  {
    var verb, arg := "git-receive-pack", "'a.git.git'";
    assert verb + " " + arg == "git-receive-pack 'a.git.git'";
    assert !HasSpace(verb);
    SplitOnceWord(verb, arg);
  }

  lemma DoubledAllowed()
    ensures AllowedPath("'a.git.git'") == Some("a.git.git")
  {
    var path := "a.git.git";
    assert "'" + path + "'" == "'a.git.git'";
    AllowedQuoted(path);
    assert DropSlashes(path) == path;
    DoubledSegment();
    SegmentNoSlash(path);
    SplitCharNone(path, '/');
  }

  /** A single-quoted argument is allowed exactly when its inside, leading
      slashes dropped, is a path of the grammar. */
  lemma AllowedQuoted(p: string)
    ensures AllowedPath("'" + p + "'") == if IsRepoPath(DropSlashes(p)) then Some(DropSlashes(p)) else None
  {
    var arg := "'" + p + "'";
    assert arg[1..|arg| - 1] == p;
  }

  lemma DoubledNoNewline()
    ensures '\n' !in "git-receive-pack 'a.git.git'"
  {
    var verb, path := "git-receive-pack", "a.git.git";
    assert verb + " " + ("'" + path + "'") == "git-receive-pack 'a.git.git'";
    assert !HasSpace(verb);
    DoubledSegment();
    SegmentNoNewline(path);
    NoNewline(verb, path);
  }

  lemma DoubledSegment()
    ensures IsSegment("a.git.git")
  {
  }

  lemma SegmentNoSlash(s: string)
    requires IsSegment(s)
    ensures '/' !in s
  {
  }

  lemma SegmentNoNewline(s: string)
    requires IsSegment(s)
    ensures '\n' !in s
  {
  }

  lemma NoNewline(verb: string, path: string)
    requires !HasSpace(verb) && '\n' !in path
    ensures '\n' !in verb + " " + ("'" + path + "'")
  {
    assert '\n' !in verb;
  }

  lemma DoubledGrant(engine: Engine, fuel: nat)
    ensures HaveAccess(engine, DoubledDoc(), "alice", ReadWrite, "a.git.git", fuel) == Granted("repositories", "a.git")
  {
    var doc := DoubledDoc();
    StripsOnlyOnce();
    DoubledList(engine);
    DoubledPrefix();
    DirectGrant(engine, doc, "alice", ReadWrite, "a.git.git", ["alice"], fuel);
  }

  lemma DoubledList(engine: Engine)
    ensures ModeList(engine, DoubledDoc(), ReadWrite, "a.git.git", ["alice"])
  {
    var repos := DoubledDoc().repos;
    StripsOnlyOnce();
    assert "a.git" in repos.entries;
    assert repos.entries["a.git"].entries["RW+"] == WordList(["alice"]);
  }

  lemma DoubledPrefix()
    ensures "gitosis" in DoubledDoc().global.entries
    ensures RepositoriesPrefix(DoubledDoc()) == "repositories"
  {
    var doc := DoubledDoc();
    assert doc.global == InitialDoc().global;
    DefaultsOnly("repositories");
    assert Get(doc.global.entries["gitosis"], "repositories") == None;
  }

  /** A configuration in which the assertion at line 126 fails: the path
      `a.git.git` passes `ALLOW_RE`, one `.git` is stripped, and the
      section `a.git` grants the user. */
  lemma AssertionReachable(engine: Engine, parseBool: string -> bool, decodeId: string -> string, fuel: nat)
    requires !parseBool("no")
    ensures Decide(engine, DoubledDoc(), parseBool, decodeId, "alice", "git-receive-pack 'a.git.git'", fuel)
      == Err(AssertionFailed("a.git"))
  {
    DoubledRequest();
    DoubledUser(parseBool, decodeId);
    DoubledAuthorize(engine, fuel);
    assert EndsWith("a.git", ".git");
  }

  lemma DoubledUser(parseBool: string -> bool, decodeId: string -> string)
    requires !parseBool("no")
    ensures "gitosis" in DoubledDoc().global.entries
    ensures EffectiveUser(DoubledDoc(), parseBool, decodeId, "alice") == Some("alice")
  {
    var doc := DoubledDoc();
    assert Get(doc.global.entries["gitosis"], "decodeID") == Some("no");
  }

  lemma DoubledAuthorize(engine: Engine, fuel: nat)
    ensures "gitosis" in DoubledDoc().global.entries
    ensures Authorize(engine, DoubledDoc(), "alice", "git-receive-pack", "a.git.git", fuel) == Ok(("repositories", "a.git"))
  {
    DoubledGrant(engine, fuel);
  }

  // ---------------------------------------------------------------------
  // Lines 128-163: creating a missing repository, and the new command

  /** What `serve` ends with: the rewritten command, a stop before any
      directory is made, or an error from `mkdir` that escapes. */
  datatype Outcome =
    | Done(command: string)
    | Stopped(stop: Stop)
    | MkdirFailed(path: string)

  /** `os.path.join(repobase, reponame + '.git')` */
  function FullPath(g: Grant): string {
    PathJoin(g.repobase, g.reponame + ".git")
  }

  /** `"%(verb)s '%(path)s'"` with the full path. */
  function NewCommand(g: Grant): string {
    g.verb + " '" + FullPath(g) + "'"
  }

  /** `(reponame + '.git').split('/')[:-1]`: the leading directories. */
  function Components(reponame: string): seq<string> {
    var parts := SplitChar(reponame + ".git", '/');
    parts[..|parts| - 1]
  }

  predicate HasGitComponent(components: seq<string>) {
    exists i :: 0 <= i < |components| && EndsWith(components[i], ".git")
  }

  /** The effect of the `mkdir` loop: the paths afterwards, the directories
      made, in order, and the path whose `mkdir` failed, if one did. */
  datatype Made = Made(paths: set<string>, events: seq<Event>, failed: Option<string>)

  /** The `mkdir` loop from directory `p` over the `components` still to
      come. An existing directory is passed over, as `util.mkdir` does. */
  function MakeDirs(paths: set<string>, refused: set<string>, p: string, components: seq<string>): Made
    decreases |components|
  {
    if components == [] then Made(paths, [], None)
    else
      var d := PathJoin(p, components[0]);
      if d in paths then MakeDirs(paths, refused, d, components[1..])
      else if d in refused then Made(paths, [], Some(d))
      else
        var m := MakeDirs(paths + {d}, refused, d, components[1..]);
        Made(m.paths, [MadeDir(d)] + m.events, m.failed)
  }

  /** The whole of `serve` against a filesystem: the outcome, the paths
      afterwards, and what was done, in order. */
  datatype Served = Served(outcome: Outcome, paths: set<string>, events: seq<Event>)

  function Serving(paths: set<string>, refused: set<string>, decision: Result<Grant, Stop>): Served {
    match decision
    case Err(stop) => Served(Stopped(stop), paths, [])
    case Ok(g) =>
      if FullPath(g) in paths then Served(Done(NewCommand(g)), paths, [])
      else if HasGitComponent(Components(g.reponame)) then
        Served(Stopped(Refused(BadRepositoryPath)), paths, [])
      else
        var m := MakeDirs(paths, refused, g.repobase, Components(g.reponame));
        match m.failed
        case Some(d) => Served(MkdirFailed(d), m.paths, m.events)
        case None =>
          Served(Done(NewCommand(g)), m.paths + {FullPath(g)},
                 m.events + [InitRepo(FullPath(g)), VisitedRepo(g.reponame), UpdatedProjectList])
  }

  /** One round of the `mkdir` loop: what is left to do from the next
      directory, put after what this round did. */
  lemma MakeDirsStep(paths: set<string>, refused: set<string>, p: string, components: seq<string>)
    requires components != []
    ensures var d := PathJoin(p, components[0]);
      var m := MakeDirs(paths, refused, p, components);
      var rest := MakeDirs(paths + {d}, refused, d, components[1..]);
      (d in paths ==> m == MakeDirs(paths, refused, d, components[1..])) &&
      (d !in paths && d in refused ==> m == Made(paths, [], Some(d))) &&
      (d !in paths && d !in refused ==> m == Made(rest.paths, [MadeDir(d)] + rest.events, rest.failed))
  {
  }

  /** The directories the `mkdir` loop visits from `p`, in order. */
  function Chain(p: string, components: seq<string>): (r: seq<string>)
    ensures |r| == |components|
    decreases |components|
  {
    if components == [] then []
    else
      var d := PathJoin(p, components[0]);
      [d] + Chain(d, components[1..])
  }

  /** The `mkdir` loop only adds paths, and only directories of the chain;
      a path is new exactly when its creation is recorded; a failure names
      a refused directory of the chain that still does not exist; and when
      nothing fails, every directory of the chain exists afterwards. */
  lemma {:induction false} MakeDirsMeaning(paths: set<string>, refused: set<string>, p: string, components: seq<string>)
    ensures var m := MakeDirs(paths, refused, p, components);
      paths <= m.paths &&
      (forall q :: q in m.paths && q !in paths ==> q in Chain(p, components)) &&
      (forall q :: (q in m.paths && q !in paths) <==> MadeDir(q) in m.events) &&
      (m.failed.Some? ==>
        m.failed.value in refused && m.failed.value !in m.paths && m.failed.value in Chain(p, components)) &&
      (m.failed.None? ==> forall q :: q in Chain(p, components) ==> q in m.paths)
    decreases |components|
  {
    if components != [] {
      var d := PathJoin(p, components[0]);
      var chain := Chain(p, components);
      assert chain == [d] + Chain(d, components[1..]);
      if d in paths {
        MakeDirsMeaning(paths, refused, d, components[1..]);
      } else if d !in refused {
        MakeDirsMeaning(paths + {d}, refused, d, components[1..]);
      }
    }
  }

  /** Nothing on the filesystem changes unless the checks granted the
      command, the repository was missing, and no leading component ends in
      `.git`; a served command is the verb with the full path, and the
      repository exists afterwards; new paths are the full path or
      directories on the way to it, each of them recorded. */
  lemma ServingMeaning(paths: set<string>, refused: set<string>, decision: Result<Grant, Stop>)
    ensures var s := Serving(paths, refused, decision);
      paths <= s.paths &&
      (s.paths != paths || s.events != [] ==>
        decision.Ok? && FullPath(decision.value) !in paths && !HasGitComponent(Components(decision.value.reponame))) &&
      (s.outcome.Done? ==>
        decision.Ok? && s.outcome.command == NewCommand(decision.value) && FullPath(decision.value) in s.paths) &&
      (forall q :: q in s.paths && q !in paths ==>
        decision.Ok? &&
        (q == FullPath(decision.value) || q in Chain(decision.value.repobase, Components(decision.value.reponame))))
  {
    if decision.Ok? {
      var g := decision.value;
      MakeDirsMeaning(paths, refused, g.repobase, Components(g.reponame));
    }
  }

  /** The rewritten command quotes `repobase/reponame.git` when the prefix
      is a relative or absolute directory name without a trailing slash and
      the name is relative. */
  lemma NewCommandShape(g: Grant)
    requires g.repobase != [] && g.repobase[|g.repobase| - 1] != '/'
    requires g.reponame == [] || g.reponame[0] != '/'
    ensures NewCommand(g) == g.verb + " '" + g.repobase + "/" + g.reponame + ".git'"
  {
    assert (g.reponame + ".git")[0] != '/';
  }

  /** The check loop at lines 137-139: does any leading component end in
      `.git`? */
  method AnyGitComponent(components: seq<string>) returns (found: bool)
    ensures found == HasGitComponent(components)
  {
    var i := 0;
    while i < |components|
      invariant 0 <= i <= |components|
      invariant forall j :: 0 <= j < i ==> !EndsWith(components[j], ".git")
    {
      if EndsWith(components[i], ".git") {
        return true;
      }
      i := i + 1;
    }
    return false;
  }

  /** The `mkdir` loop at lines 140-143, from `base`. */
  method MakeDirectories(fs: FileSystem, base: string, components: seq<string>) returns (failed: Option<string>)
    modifies fs
    ensures var m := MakeDirs(old(fs.paths), fs.refused, base, components);
      fs.paths == m.paths && fs.log == old(fs.log) + m.events && failed == m.failed
  {
    ghost var log0 := fs.log;
    ghost var made: seq<Event> := [];
    var p := base;
    var i := 0;
    while i < |components|
      invariant 0 <= i <= |components|
      invariant fs.log == log0 + made
      invariant var m := MakeDirs(fs.paths, fs.refused, p, components[i..]);
        MakeDirs(old(fs.paths), fs.refused, base, components) == Made(m.paths, made + m.events, m.failed)
    {
      MakeDirsStep(fs.paths, fs.refused, p, components[i..]);
      assert components[i..][1..] == components[i + 1..];
      ghost var before := fs.paths;
      p := PathJoin(p, components[i]);
      var ok := fs.Mkdir(p);
      if !ok {
        return Some(p);
      }
      if p !in before {
        AppendAssoc(made, [MadeDir(p)], MakeDirs(fs.paths, fs.refused, p, components[i + 1..]).events);
        made := made + [MadeDir(p)];
      }
      i := i + 1;
    }
    assert components[i..] == [];
    return None;
  }

  /** Lines 128-163 of `serve`, once the checks have decided: for a
      repository that does not exist yet, the component check, the
      directories, the repository and its follow-up steps. */
  method Create(fs: FileSystem, decision: Result<Grant, Stop>) returns (r: Outcome)
    modifies fs
    ensures var s := Serving(old(fs.paths), fs.refused, decision);
      r == s.outcome && fs.paths == s.paths && fs.log == old(fs.log) + s.events
  {
    if decision.Err? {
      return Stopped(decision.error);
    }
    var g := decision.value;
    var fullpath := PathJoin(g.repobase, g.reponame + ".git");
    if fs.Exists(fullpath) {
      return Done(g.verb + " '" + fullpath + "'");
    }
    var components := Components(g.reponame);
    var bad := AnyGitComponent(components);
    if bad {
      return Stopped(Refused(BadRepositoryPath));
    }
    var failed := MakeDirectories(fs, g.repobase, components);
    if failed.Some? {
      return MkdirFailed(failed.value);
    }
    fs.InitRepository(fullpath);
    fs.Record(VisitedRepo(g.reponame));
    fs.Record(UpdatedProjectList);
    return Done(g.verb + " '" + fullpath + "'");
  }

  /** `serve`: the outcome and the new filesystem are those of `Serving`
      applied to the decision of the checks. */
  method ServeCommand(fs: FileSystem, engine: Engine, doc: Doc, parseBool: string -> bool,
                      decodeId: string -> string, user: string, command: string, fuel: nat)
    returns (r: Outcome)
    requires "gitosis" in doc.global.entries
    modifies fs
    ensures var s := Serving(old(fs.paths), fs.refused, Decide(engine, doc, parseBool, decodeId, user, command, fuel));
      r == s.outcome && fs.paths == s.paths && fs.log == old(fs.log) + s.events
  {
    var decision := Decide(engine, doc, parseBool, decodeId, user, command, fuel);
    r := Create(fs, decision);
  }
}
