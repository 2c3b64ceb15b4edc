/**
 * The access decision (`gitosis/access.py`, `haveAccess`): strip one `.git`
 * extension from the requested path, find the repository section for it,
 * and grant when the user, or else the first of the user's groups, is in
 * the section's list for the mode. A grant is the pair of the repository
 * prefix and the stripped path.
 */
module Access {
  import opened Outcomes
  import opened Text
  import opened Dicts
  import opened Patterns
  import opened Config
  import opened Group

  /** The two modes the command gate asks about. */
  datatype Mode = ReadWrite | ReadOnly

  /** The option holding the mode's list. */
  function ModeName(m: Mode): (r: string)
    ensures IsAccessList(r)
  {
    match m
    case ReadWrite => "RW+"
    case ReadOnly => "R"
  }

  /** `p.rfind(c)`: the last position of `c` in `p`, or -1. */
  function RFind(p: string, c: char): (r: int)
    ensures -1 <= r < |p|
    ensures r >= 0 ==> p[r] == c
    ensures forall j :: r < j < |p| ==> p[j] != c
  {
    if p == [] then -1
    else if p[|p| - 1] == c then |p| - 1
    else RFind(p[..|p| - 1], c)
  }

  /** `p[from..to]` holds a character other than `.`. */
  predicate NonDotIn(p: string, from: int, to: int)
    requires 0 <= from && to <= |p|
  {
    exists k :: from <= k < to && p[k] != '.'
  }

  /** `os.path.splitext(p)` on POSIX: the extension runs from the last dot of
      the last path component, unless only dots precede that dot within the
      component, in which case there is no extension. */
  function SplitExt(p: string): (r: (string, string))
    ensures r.0 + r.1 == p
  {
    var sep := RFind(p, '/');
    var dot := RFind(p, '.');
    if dot > sep && NonDotIn(p, sep + 1, dot) then (p[..dot], p[dot..]) else (p, "")
  }

  /** The requested path with one `.git` extension removed, if it has one. */
  function StripGitExt(path: string): string {
    var (base, ext) := SplitExt(path);
    if ext == ".git" then base else path
  }

  /** `path` ends in `.git` and its last component has a character other
      than `.` before that suffix. */
  predicate GitSuffixed(path: string) {
    |path| >= 4 && path[|path| - 4..] == ".git" &&
    exists k :: 0 <= k < |path| - 4 && path[k] != '.' && path[k] != '/' &&
      forall j :: k < j < |path| - 4 ==> path[j] != '/'
  }

  /** A `.git` extension is there only on a path that is `GitSuffixed`. */
  lemma GitExtSuffixed(path: string)
    requires SplitExt(path).1 == ".git"
    ensures GitSuffixed(path)
  {
    var sep := RFind(path, '/');
    var dot := RFind(path, '.');
    var n := |path|;
    assert dot > sep && NonDotIn(path, sep + 1, dot);
    assert path[dot..] == ".git";
    var k :| sep + 1 <= k < dot && path[k] != '.';
    assert path[k] != '/';
  }

  /** Exactly one `.git` is removed, exactly from the paths that carry it
      as their extension; every other path is left alone. */
  lemma StripGitExtMeaning(path: string)
    ensures GitSuffixed(path) ==> StripGitExt(path) + ".git" == path
    ensures !GitSuffixed(path) ==> StripGitExt(path) == path
  {
    var sep := RFind(path, '/');
    var dot := RFind(path, '.');
    var n := |path|;
    if GitSuffixed(path) {
      var k :| 0 <= k < n - 4 && path[k] != '.' && path[k] != '/' &&
        forall j :: k < j < n - 4 ==> path[j] != '/';
      assert path[n - 4] == '.' && path[n - 3] == 'g' && path[n - 2] == 'i' && path[n - 1] == 't';
      assert dot == n - 4;
      assert sep < k;
      assert NonDotIn(path, sep + 1, dot);
      assert SplitExt(path).1 == ".git";
    } else if SplitExt(path).1 == ".git" {
      GitExtSuffixed(path);
    }
  }

  /** `a.git.git` loses only its last `.git`. */
  lemma StripsOnlyOnce()
    ensures StripGitExt("a.git.git") == "a.git"
  {
    var p := "a.git.git";
    assert GitSuffixed(p) by {
      assert p[|p| - 4..] == ".git";
      assert p[0] != '.' && p[0] != '/';
      assert forall j :: 0 < j < |p| - 4 ==> p[j] != '/';
    }
    StripGitExtMeaning(p);
    assert StripGitExt(p) + ".git" == p;
    assert StripGitExt(p) == p[..5];
  }

  /** What `haveAccess` returns, plus the two outcomes the caller sees
      otherwise: the membership enumeration not finishing within the depth
      bound, and an exception that escapes. */
  datatype Decision =
    | Granted(prefix: string, path: string)
    | Denied
    | Undecided
    | Raised(error: LookupError)

  /** `get_gitosis('repositories')`, or `repositories` when it is not set. */
  function RepositoriesPrefix(doc: Doc): string
    requires "gitosis" in doc.global.entries
  {
    match Get(doc.global.entries["gitosis"], "repositories")
    case None => "repositories"
    case Some(p) => p
  }

  /** The position of the first of `items` in `users`. */
  function FirstIn(items: seq<string>, users: seq<string>): (r: nat)
    ensures r <= |items|
    ensures r < |items| ==> items[r] in users
    ensures forall i :: 0 <= i < r ==> items[i] !in users
  {
    if items == [] then 0
    else if items[0] in users then 0
    else 1 + FirstIn(items[1..], users)
  }

  /** The decision once the user is known not to be listed directly: the
      first membership group in the list grants. */
  function ByGroup(doc: Doc, user: string, users: seq<string>, granted: Decision, fuel: nat): Decision {
    var t := Membership(doc.groups, user, fuel);
    if FirstIn(t.items, users) < |t.items| then granted
    else if t.complete then Denied
    else Undecided
  }

  /** `haveAccess(config, user, mode, path)`. A regex error while finding
      the section and a tokenizer error while reading the list deny; a
      `path_regex` that is a list raises. */
  function HaveAccess(engine: Engine, doc: Doc, user: string, mode: Mode, path: string, fuel: nat): Decision
    requires "gitosis" in doc.global.entries
  {
    var p := StripGitExt(path);
    match ResolveRepo(engine, doc.repos, p)
    case Err(e) => if e.BadRegex? then Denied else Raised(e)
    case Ok(repo) =>
      if repo.None? || repo.value == [] then Denied
      else
        match RepoOption(doc.repos, repo.value, ModeName(mode))
        case Err(_) => Denied
        case Ok(found) =>
          if found.None? then Denied
          else
            var users := found.value.words;
            if users == [] then Denied
            else if user in users then Granted(RepositoriesPrefix(doc), p)
            else ByGroup(doc, user, users, Granted(RepositoriesPrefix(doc), p), fuel)
  }

  /** The list `haveAccess` consults: the mode's words in the section found
      for the stripped path. */
  predicate ModeList(engine: Engine, doc: Doc, mode: Mode, path: string, users: seq<string>) {
    var found := ResolveRepo(engine, doc.repos, StripGitExt(path));
    found.Ok? && found.value.Some? && found.value.value != [] &&
    RepoOption(doc.repos, found.value.value, ModeName(mode)) == Ok(Some(WordList(users)))
  }

  /** A grant carries the prefix and the stripped path (never the section
      name), and the user or one of the user's groups is in the list. */
  lemma GrantMeaning(engine: Engine, doc: Doc, user: string, mode: Mode, path: string, fuel: nat)
    requires "gitosis" in doc.global.entries
    ensures HaveAccess(engine, doc, user, mode, path, fuel).Granted? ==>
      HaveAccess(engine, doc, user, mode, path, fuel) == Granted(RepositoriesPrefix(doc), StripGitExt(path)) &&
      exists users :: users != [] && ModeList(engine, doc, mode, path, users) &&
        (user in users || exists g :: g in Membership(doc.groups, user, fuel).items && g in users)
  {
    var d := HaveAccess(engine, doc, user, mode, path, fuel);
    if d.Granted? {
      var p := StripGitExt(path);
      var repo := ResolveRepo(engine, doc.repos, p).value.value;
      var users := RepoOption(doc.repos, repo, ModeName(mode)).value.value.words;
      assert ModeList(engine, doc, mode, path, users);
      if user !in users {
        var t := Membership(doc.groups, user, fuel);
        assert t.items[FirstIn(t.items, users)] in users;
      }
    }
  }

  /** A user named in the list is granted without the groups being
      consulted, so however the group enumeration would behave. */
  lemma DirectGrant(engine: Engine, doc: Doc, user: string, mode: Mode, path: string, users: seq<string>, fuel: nat)
    requires "gitosis" in doc.global.entries
    requires ModeList(engine, doc, mode, path, users) && user in users
    ensures HaveAccess(engine, doc, user, mode, path, fuel) == Granted(RepositoriesPrefix(doc), StripGitExt(path))
  {
  }

  /** A section whose list for the mode is missing, empty or unreadable
      denies everyone, groups included. */
  lemma EmptyListDenied(engine: Engine, doc: Doc, user: string, mode: Mode, path: string, fuel: nat)
    requires "gitosis" in doc.global.entries
    requires var found := ResolveRepo(engine, doc.repos, StripGitExt(path));
      found.Ok? && found.value.Some? && found.value.value != [] &&
      var listed := RepoOption(doc.repos, found.value.value, ModeName(mode));
      listed.Err? || listed == Ok(None) || listed == Ok(Some(WordList([])))
    ensures HaveAccess(engine, doc, user, mode, path, fuel) == Denied
  {
  }

  /** A user one of whose groups is in the list is granted, whether or not
      the user is named there. */
  lemma GroupGrant(engine: Engine, doc: Doc, user: string, mode: Mode, path: string, users: seq<string>, g: string, fuel: nat)
    requires "gitosis" in doc.global.entries
    requires ModeList(engine, doc, mode, path, users)
    requires g in Membership(doc.groups, user, fuel).items && g in users
    ensures HaveAccess(engine, doc, user, mode, path, fuel) == Granted(RepositoriesPrefix(doc), StripGitExt(path))
  {
    var t := Membership(doc.groups, user, fuel);
    var i :| 0 <= i < |t.items| && t.items[i] == g;
    assert FirstIn(t.items, users) <= i;
  }

  /** A user named nowhere in a non-empty list, none of whose groups (all of
      them enumerated) is there either, is denied. */
  lemma UnlistedDenied(engine: Engine, doc: Doc, user: string, mode: Mode, path: string, users: seq<string>, fuel: nat)
    requires "gitosis" in doc.global.entries
    requires ModeList(engine, doc, mode, path, users) && users != [] && user !in users
    requires Membership(doc.groups, user, fuel).complete
    requires forall g :: g in Membership(doc.groups, user, fuel).items ==> g !in users
    ensures HaveAccess(engine, doc, user, mode, path, fuel) == Denied
  {
    FirstInNone(Membership(doc.groups, user, fuel).items, users);
  }

  /** None of `items` in `users`: the search runs to the end. */
  lemma {:induction false} FirstInNone(items: seq<string>, users: seq<string>)
    requires forall g :: g in items ==> g !in users
    ensures FirstIn(items, users) == |items|
  {
    if items != [] {
      assert items[0] in items;
      assert forall g :: g in items[1..] ==> g in items;
      FirstInNone(items[1..], users);
    }
  }

  /** No section for the path, or a bad pattern among the sections: denied. */
  lemma NoSectionDenied(engine: Engine, doc: Doc, user: string, mode: Mode, path: string, fuel: nat)
    requires "gitosis" in doc.global.entries
    requires ResolveRepo(engine, doc.repos, StripGitExt(path)) in {Ok(None)} ||
             (ResolveRepo(engine, doc.repos, StripGitExt(path)).Err? && ResolveRepo(engine, doc.repos, StripGitExt(path)).error.BadRegex?)
    ensures HaveAccess(engine, doc, user, mode, path, fuel) == Denied
  {
  }

  lemma {:induction false} MembershipGrows(groups: Dict<Value>, user: string, fuel: nat, fuel': nat)
    requires fuel <= fuel'
    ensures Prefix(Membership(groups, user, fuel).items, Membership(groups, user, fuel').items)
    ensures Membership(groups, user, fuel).complete ==> Membership(groups, user, fuel') == Membership(groups, user, fuel)
    decreases fuel' - fuel
  {
    if fuel < fuel' {
      MembershipGrows(groups, user, fuel + 1, fuel');
      ScanGrows(groups, Keys(groups), user, fuel);
      var t, t1 := Scan(groups, Keys(groups), user, fuel), Scan(groups, Keys(groups), user, fuel + 1);
      if !t.complete && t1.complete {
        PrefixConcat([], t.items, t1.items, ["@all"]);
      }
    }
  }

  /** A decision reached with some depth bound stays the same with any
      larger one: more depth can only settle an undecided case. */
  lemma AccessStable(engine: Engine, doc: Doc, user: string, mode: Mode, path: string, fuel: nat, fuel': nat)
    requires "gitosis" in doc.global.entries
    requires fuel <= fuel'
    requires HaveAccess(engine, doc, user, mode, path, fuel) != Undecided
    ensures HaveAccess(engine, doc, user, mode, path, fuel') == HaveAccess(engine, doc, user, mode, path, fuel)
  {
    var p := StripGitExt(path);
    var repo := ResolveRepo(engine, doc.repos, p);
    if repo.Ok? && repo.value.Some? && repo.value.value != [] {
      var found := RepoOption(doc.repos, repo.value.value, ModeName(mode));
      if found.Ok? && found.value.Some? {
        var users := found.value.value.words;
        if users != [] && user !in users {
          ByGroupStable(doc, user, users, Granted(RepositoriesPrefix(doc), p), fuel, fuel');
        }
      }
    }
  }

  /** The group step of the decision, once decided, stays decided. */
  lemma ByGroupStable(doc: Doc, user: string, users: seq<string>, granted: Decision, fuel: nat, fuel': nat)
    requires fuel <= fuel'
    requires ByGroup(doc, user, users, granted, fuel) != Undecided
    ensures ByGroup(doc, user, users, granted, fuel') == ByGroup(doc, user, users, granted, fuel)
  {
    MembershipGrows(doc.groups, user, fuel, fuel');
    var t, t' := Membership(doc.groups, user, fuel), Membership(doc.groups, user, fuel');
    var i := FirstIn(t.items, users);
    if i < |t.items| {
      assert t'.items[i] == t.items[i];
    }
  }

  /** With a ranked group graph (in particular no cycle and no group listing
      `@all`), a depth beyond the user's rank always reaches a decision. */
  lemma RankedDecides(engine: Engine, doc: Doc, user: string, mode: Mode, path: string, fuel: nat, rank: string -> nat)
    requires "gitosis" in doc.global.entries
    requires forall g, x :: Lists(doc.groups, g, x) ==> rank(g) < rank(x)
    requires fuel > rank(user)
    ensures HaveAccess(engine, doc, user, mode, path, fuel) != Undecided
  {
    MembershipTerminates(doc.groups, user, fuel, rank);
  }
}
