/**
 * Helpers of `gitosis/util.py` that the hooks and the command gate use:
 * the relative directory of a walk step, the repository names found by
 * `RepositoryDir.travel`, the property triggers, the pattern map and the
 * section choice of `visit_one`, and `mkdir`'s treatment of an existing
 * directory (modelled as `Files.FileSystem.Mkdir`).
 *
 * This code calls the `RawConfigParser` interface (`get`, `getboolean`,
 * `sections`, `has_option`); the configuration is therefore an abstract
 * lookup here, not the document of `Config`.
 */
module Util {
  import opened Outcomes
  import opened Text
  import opened Dicts
  import opened Patterns
  import opened Files
  import opened Access

  /** The configuration as `RawConfigParser` shows it: its sections, in
      order, and `get`, where `None` stands for `NoSectionError` and
      `NoOptionError`. */
  datatype RawConfig = RawConfig(sections: seq<string>, get: (string, string) -> Option<string>)

  /** A value `getboolean` does not accept (its `ValueError`). */
  datatype NotABoolean = NotABoolean(section: string, option: string, value: string)

  function Lower(s: string): (r: string)
    ensures |r| == |s|
  {
    if s == [] then []
    else [if 'A' <= s[0] <= 'Z' then (s[0] as int + 32) as char else s[0]] + Lower(s[1..])
  }

  /** `RawConfigParser.getboolean`: `None` for a missing section or option,
      and the spellings `1`, `yes`, `true`, `on` and `0`, `no`, `false`,
      `off` in any case. */
  function GetBoolean(config: RawConfig, section: string, option: string): (r: Result<Option<bool>, NotABoolean>)
    ensures r.Ok? && r.value.None? <==> config.get(section, option).None?
  {
    match config.get(section, option)
    case None => Ok(None)
    case Some(v) =>
      var l := Lower(v);
      if l == "1" || l == "yes" || l == "true" || l == "on" then Ok(Some(true))
      else if l == "0" || l == "no" || l == "false" || l == "off" then Ok(Some(false))
      else Err(NotABoolean(section, option, v))
  }

  // ---------------------------------------------------------------------
  // _extract_reldir

  /** `_extract_reldir`: `.` for the top directory itself, otherwise the
      part after `topdir/`; `None` where the assertion at line 44 fails. */
  function ExtractReldir(topdir: string, dirpath: string): (r: Option<string>)
    ensures topdir == dirpath ==> r == Some(".")
    ensures topdir != dirpath ==> (r.Some? <==> StartsWith(dirpath, topdir + "/"))
    ensures topdir != dirpath && r.Some? ==> topdir + "/" + r.value == dirpath
  {
    if topdir == dirpath then Some(".")
    else
      var prefix := topdir + "/";
      if StartsWith(dirpath, prefix) then Some(dirpath[|prefix|..]) else None
  }

  /** Walking below `topdir` and taking the relative directory back gives
      the relative path. */
  lemma ReldirRoundTrip(topdir: string, rel: string)
    ensures ExtractReldir(topdir, topdir + "/" + rel) == Some(rel)
  {
    var dirpath := topdir + "/" + rel;
    assert dirpath != topdir by {
      assert |dirpath| > |topdir|;
    }
    assert dirpath[..|topdir + "/"|] == topdir + "/";
    assert dirpath[|topdir + "/"|..] == rel;
  }

  // ---------------------------------------------------------------------
  // travel

  /** The directories of one walk step that are kept for descent: those
      whose name does not end in `.git`, in their order. */
  function Descend(dirnames: seq<string>): seq<string> {
    if dirnames == [] then []
    else (if EndsWith(dirnames[0], ".git") then [] else [dirnames[0]]) + Descend(dirnames[1..])
  }

  /** The directories of one walk step that are repositories. */
  function Repos(dirnames: seq<string>): seq<string> {
    if dirnames == [] then []
    else (if EndsWith(dirnames[0], ".git") then [dirnames[0]] else []) + Repos(dirnames[1..])
  }

  /** Every directory goes to exactly one of the two lists: the
      repositories are the names ending in `.git`, the others are kept for
      descent. */
  lemma {:induction false} PartitionIsPermutation(dirnames: seq<string>)
    ensures multiset(Descend(dirnames)) + multiset(Repos(dirnames)) == multiset(dirnames)
    ensures forall x :: x in Repos(dirnames) <==> x in dirnames && EndsWith(x, ".git")
    ensures forall x :: x in Descend(dirnames) <==> x in dirnames && !EndsWith(x, ".git")
  {
    if dirnames != [] {
      PartitionIsPermutation(dirnames[1..]);
      assert dirnames == [dirnames[0]] + dirnames[1..];
    }
  }

  lemma PartitionStep(names: seq<string>)
    requires names != []
    ensures EndsWith(names[0], ".git") ==>
      Repos(names) == [names[0]] + Repos(names[1..]) && Descend(names) == Descend(names[1..])
    ensures !EndsWith(names[0], ".git") ==>
      Repos(names) == Repos(names[1..]) && Descend(names) == [names[0]] + Descend(names[1..])
  {
  }

  /** The list `os.walk` descends into, which `travel` overwrites in place. */
  class Walk {
    var dirnames: seq<string>

    constructor(dirnames: seq<string>)
      ensures this.dirnames == dirnames
    {
      this.dirnames := dirnames;
    }

    /** Lines 108-115: the repositories are set apart, and `dirnames[:]`
        becomes the rest. */
    method Partition() returns (repos: seq<string>)
      modifies this
      ensures repos == Repos(old(dirnames)) && dirnames == Descend(old(dirnames))
    {
      var names := dirnames;
      var toRecurse: seq<string> := [];
      repos := [];
      var i := 0;
      while i < |names|
        invariant 0 <= i <= |names|
        invariant Descend(names) == toRecurse + Descend(names[i..])
        invariant Repos(names) == repos + Repos(names[i..])
      {
        PartitionStep(names[i..]);
        assert names[i..][1..] == names[i + 1..];
        if EndsWith(names[i], ".git") {
          repos := repos + [names[i]];
        } else {
          toRecurse := toRecurse + [names[i]];
        }
        i := i + 1;
      }
      dirnames := toRecurse;
    }
  }

  /** Lines 118-121: the stem of the repository directory, under the
      relative directory unless that is `.`; `None` where the assertion
      that the extension is `.git` fails. */
  function RepoName(reldir: string, repo: string): Option<string> {
    var (name, ext) := SplitExt(repo);
    var name' := if reldir != "." then PathJoin(reldir, name) else name;
    if ext == ".git" then Some(name') else None
  }

  /** A repository is named by its stem, under its directory; the stem and
      `.git` make up the directory's name. */
  lemma RepoNameMeaning(reldir: string, repo: string)
    ensures RepoName(reldir, repo).Some? ==>
      var stem := repo[..|repo| - 4];
      repo == stem + ".git" &&
      RepoName(reldir, repo).value == if reldir == "." then stem else PathJoin(reldir, stem)
  {
    var (name, ext) := SplitExt(repo);
    if ext == ".git" {
      assert repo == name + ext;
      assert repo[..|repo| - 4] == name;
    }
  }

  /** A directory called `.git` below the repositories (the inside of a
      non-bare repository, say) is picked as a repository at line 111 and
      fails the assertion at line 121. */
  lemma DotGitDirectoryFails(reldir: string)
    ensures EndsWith(".git", ".git") && RepoName(reldir, ".git") == None
  {
    var p := ".git";
    assert p[0] == '.' && p[1] == 'g' && p[2] == 'i' && p[3] == 't';
    assert RFind(p, '.') == 0;
    assert SplitExt(p).1 == "";
  }

  /** The repositories of one walk step, by name, in order, up to the first
      whose name fails the assertion at line 121. */
  datatype Found = Found(names: seq<string>, failed: Option<string>)

  function RepoNames(reldir: string, repos: seq<string>): (r: Found)
    ensures |r.names| <= |repos|
  {
    if repos == [] then Found([], None)
    else
      match RepoName(reldir, repos[0])
      case None => Found([], Some(repos[0]))
      case Some(n) =>
        var rest := RepoNames(reldir, repos[1..]);
        Found([n] + rest.names, rest.failed)
  }

  /** Without a failure every repository of the step is named, in order. */
  lemma {:induction false} RepoNamesComplete(reldir: string, repos: seq<string>)
    ensures RepoNames(reldir, repos).failed.None? ==>
      |RepoNames(reldir, repos).names| == |repos| &&
      forall i :: 0 <= i < |repos| ==> Some(RepoNames(reldir, repos).names[i]) == RepoName(reldir, repos[i])
  {
    if repos != [] {
      RepoNamesComplete(reldir, repos[1..]);
    }
  }

  // ---------------------------------------------------------------------
  // RepoProp

  /** A repository property with the base `_get`: the option named after
      the property in the chosen section. */
  datatype Prop = Prop(name: string)

  /** An `action` call: the property, the repositories directory, the
      repository name and the value. */
  datatype Call = Call(prop: string, repobase: string, reponame: string, value: string)

  /** `trigger`: `action` runs with the value exactly when `_get` finds
      one. */
  function Trigger(config: RawConfig, p: Prop, section: string, repobase: string, reponame: string): (r: Option<Call>)
    ensures r.Some? <==> config.get(section, p.name).Some?
    ensures r.Some? ==> r.value == Call(p.name, repobase, reponame, config.get(section, p.name).value)
  {
    match config.get(section, p.name)
    case None => None
    case Some(v) => Some(Call(p.name, repobase, reponame, v))
  }

  /** The call a trigger makes, if any, as a list. */
  function AsCalls(c: Option<Call>): seq<Call> {
    match c
    case None => []
    case Some(call) => [call]
  }

  /** Lines 139-140: every property is triggered once, in order. */
  function Triggered(config: RawConfig, props: seq<Prop>, section: string, repobase: string, reponame: string): seq<Call> {
    if props == [] then []
    else AsCalls(Trigger(config, props[0], section, repobase, reponame)) + Triggered(config, props[1..], section, repobase, reponame)
  }

  /** Each call comes from a property that has a value in the section, with
      that value, and every property with a value makes its call. */
  lemma {:induction false} TriggeredMeaning(config: RawConfig, props: seq<Prop>, section: string,
                                            repobase: string, reponame: string)
    ensures var calls := Triggered(config, props, section, repobase, reponame);
      |calls| <= |props| &&
      (forall c :: c in calls ==>
        c.repobase == repobase && c.reponame == reponame &&
        Prop(c.prop) in props && config.get(section, c.prop) == Some(c.value)) &&
      forall i :: 0 <= i < |props| && config.get(section, props[i].name).Some? ==>
        Call(props[i].name, repobase, reponame, config.get(section, props[i].name).value) in calls
  {
    if props != [] {
      var head := AsCalls(Trigger(config, props[0], section, repobase, reponame));
      var rest := Triggered(config, props[1..], section, repobase, reponame);
      TriggeredMeaning(config, props[1..], section, repobase, reponame);
      assert Triggered(config, props, section, repobase, reponame) == head + rest;
      forall c: Call | c in head + rest
        ensures Prop(c.prop) in props
      {
        if c in head {
          assert Prop(c.prop) == props[0];
        } else {
          assert Prop(c.prop) in props[1..];
        }
      }
      forall i | 0 <= i < |props| && config.get(section, props[i].name).Some?
        ensures Call(props[i].name, repobase, reponame, config.get(section, props[i].name).value) in head + rest
      {
        if i > 0 {
          assert props[i] == props[1..][i - 1];
        }
      }
    }
  }

  /** The indices of the properties that have a value in the section. */
  ghost function Valued(config: RawConfig, props: seq<Prop>, section: string): set<int> {
    set i | 0 <= i < |props| && config.get(section, props[i].name).Some?
  }

  /** Exactly one call per property with a value: no property makes two
      calls and none with a value is skipped. */
  lemma {:induction false} TriggeredCount(config: RawConfig, props: seq<Prop>, section: string,
                                          repobase: string, reponame: string)
    ensures |Triggered(config, props, section, repobase, reponame)| == |Valued(config, props, section)|
  {
    if props == [] {
      assert Valued(config, props, section) == {};
    } else {
      var n := |props| - 1;
      var init := props[..n];
      TriggeredCount(config, init, section, repobase, reponame);
      assert props == init + [props[n]];
      TriggeredAppend(config, init, [props[n]], section, repobase, reponame);
      assert [props[n]][1..] == [];
      var last := Trigger(config, props[n], section, repobase, reponame);
      assert Triggered(config, [props[n]], section, repobase, reponame) == AsCalls(last);
      var before := Valued(config, init, section);
      assert n !in before;
      if last.Some? {
        assert Valued(config, props, section) == before + {n};
      } else {
        assert Valued(config, props, section) == before;
      }
    }
  }

  /** The calls of two runs of properties are those of the first run
      followed by those of the second. */
  lemma {:induction false} TriggeredAppend(config: RawConfig, props: seq<Prop>, more: seq<Prop>, section: string,
                                           repobase: string, reponame: string)
    ensures Triggered(config, props + more, section, repobase, reponame) ==
      Triggered(config, props, section, repobase, reponame) + Triggered(config, more, section, repobase, reponame)
  {
    if props == [] {
      assert props + more == more;
    } else {
      TriggeredAppend(config, props[1..], more, section, repobase, reponame);
      assert (props + more)[0] == props[0];
      assert (props + more)[1..] == props[1..] + more;
      AppendAssoc(AsCalls(Trigger(config, props[0], section, repobase, reponame)),
        Triggered(config, props[1..], section, repobase, reponame), Triggered(config, more, section, repobase, reponame));
    }
  }

  /** The run from the `k`-th property on, one property taken. */
  lemma TriggeredFrom(config: RawConfig, props: seq<Prop>, k: nat, section: string, repobase: string, reponame: string)
    requires k < |props|
    ensures Triggered(config, props[k..], section, repobase, reponame) ==
      AsCalls(Trigger(config, props[k], section, repobase, reponame)) + Triggered(config, props[k + 1..], section, repobase, reponame)
  {
    assert props[k..][1..] == props[k + 1..];
  }

  // ---------------------------------------------------------------------
  // RepositoryDir

  /** `__collect_pattern` from the `k`-th section on, adding to `acc`: the
      `path` option of each `repo …` section maps to the section. Equal
      pattern strings compile to the same cached pattern object, so a later
      section replaces an earlier one. A pattern that does not compile
      raises, and the handler's `re.Error` does not exist, so the
      `AttributeError` escapes: the result names that section. */
  function CollectFrom(engine: Engine, config: RawConfig, sections: seq<string>, acc: Dict<string>): Result<Dict<string>, string> {
    if sections == [] then Ok(acc)
    else
      var section := sections[0];
      var path := config.get(section, "path");
      if PatternSection(config, section) then
        if engine.compiles(path.value) then CollectFrom(engine, config, sections[1..], Put(acc, path.value, section))
        else Err(section)
      else CollectFrom(engine, config, sections[1..], acc)
  }

  function CollectPatterns(engine: Engine, config: RawConfig): Result<Dict<string>, string> {
    CollectFrom(engine, config, config.sections, Empty())
  }

  /** A `repo …` section with a `path` option, as line 81 selects them. */
  predicate PatternSection(config: RawConfig, section: string) {
    StartsWith(section, "repo ") && config.get(section, "path").Some?
  }

  /** Each key of the map is the compiling pattern of the `repo …` section
      it maps to. */
  predicate PatternMap(engine: Engine, config: RawConfig, d: Dict<string>) {
    Valid(d) &&
    forall k :: k in d.entries ==>
      PatternSection(config, d.entries[k]) && config.get(d.entries[k], "path") == Some(k) && engine.compiles(k)
  }

  /** The map holds only patterns of `repo …` sections with a `path`
      option, and the pattern of every such section; a failure names such a
      section whose pattern does not compile. */
  lemma {:induction false} CollectFromMeaning(engine: Engine, config: RawConfig, sections: seq<string>, acc: Dict<string>)
    requires PatternMap(engine, config, acc)
    ensures var r := CollectFrom(engine, config, sections, acc);
      r.Ok? ==>
        PatternMap(engine, config, r.value) &&
        (forall k :: k in acc.entries ==> k in r.value.entries) &&
        forall s :: s in sections && PatternSection(config, s) ==> config.get(s, "path").value in r.value.entries
    ensures var r := CollectFrom(engine, config, sections, acc);
      r.Err? ==>
        r.error in sections && PatternSection(config, r.error) && !engine.compiles(config.get(r.error, "path").value)
  {
    if sections != [] {
      var section := sections[0];
      var path := config.get(section, "path");
      if PatternSection(config, section) {
        if engine.compiles(path.value) {
          var acc' := Put(acc, path.value, section);
          assert forall k :: k in acc'.entries ==> Get(acc', k) == Some(acc'.entries[k]);
          CollectFromMeaning(engine, config, sections[1..], acc');
        }
      } else {
        CollectFromMeaning(engine, config, sections[1..], acc);
      }
    }
  }

  lemma CollectPatternsMeaning(engine: Engine, config: RawConfig)
    ensures var r := CollectPatterns(engine, config);
      r.Ok? ==>
        PatternMap(engine, config, r.value) &&
        forall s :: s in config.sections && PatternSection(config, s) ==> config.get(s, "path").value in r.value.entries
    ensures var r := CollectPatterns(engine, config);
      r.Err? ==>
        r.error in config.sections && PatternSection(config, r.error) && !engine.compiles(config.get(r.error, "path").value)
  {
    CollectFromMeaning(engine, config, config.sections, Empty());
  }

  /** Lines 132-137: the section of the first pattern, in the map's order,
      that matches at the start of the name; otherwise `repo <name>`. */
  function SectionFor(engine: Engine, patterns: Dict<string>, name: string): string
    requires Valid(patterns)
  {
    var keys := Keys(patterns);
    var k := FirstMatch(engine, keys, name);
    if k < |keys| then patterns.entries[keys[k]] else "repo " + name
  }

  /** The section is that of a pattern matching the name before which no
      pattern matches, or `repo <name>` when none matches. */
  lemma SectionForMeaning(engine: Engine, patterns: Dict<string>, name: string)
    requires Valid(patterns)
    ensures var keys := Keys(patterns);
      var s := SectionFor(engine, patterns, name);
      (exists i :: 0 <= i < |keys| && engine.matchesAtStart(keys[i], name) &&
         s == patterns.entries[keys[i]] &&
         forall j :: 0 <= j < i ==> !engine.matchesAtStart(keys[j], name)) ||
      ((forall i :: 0 <= i < |keys| ==> !engine.matchesAtStart(keys[i], name)) && s == "repo " + name)
  {
    var keys := Keys(patterns);
    var k := FirstMatch(engine, keys, name);
    if k < |keys| {
      assert engine.matchesAtStart(keys[k], name);
    }
  }

  /** What `visit_one` does: the section it chose and the `action` calls. */
  datatype Visit = Visit(section: string, calls: seq<Call>)

  class RepositoryDir {
    const repositories: string
    const config: RawConfig
    const props: seq<Prop>
    const engine: Engine
    /** `repo_patterns`, absent until `__collect_pattern` first succeeds. */
    var repoPatterns: Option<Dict<string>>

    predicate PatternsKnown()
      reads this
    {
      repoPatterns.Some? ==> CollectPatterns(engine, config).Ok? && repoPatterns == Some(CollectPatterns(engine, config).value)
    }

    constructor(repositories: string, config: RawConfig, props: seq<Prop>, engine: Engine)
      ensures this.repositories == repositories && this.config == config && this.props == props
      ensures this.engine == engine && repoPatterns == None && PatternsKnown()
    {
      this.repositories := repositories;
      this.config := config;
      this.props := props;
      this.engine := engine;
      repoPatterns := None;
    }

    /** `__collect_pattern`: the map is built on the first successful call
        only; a failure leaves it absent and names the section. */
    method Collect() returns (err: Option<string>)
      modifies this
      requires PatternsKnown()
      ensures PatternsKnown()
      ensures old(repoPatterns).Some? ==> repoPatterns == old(repoPatterns) && err == None
      ensures old(repoPatterns).None? ==>
        match CollectPatterns(engine, config)
        case Ok(d) => repoPatterns == Some(d) && err == None
        case Err(s) => repoPatterns == None && err == Some(s)
    {
      if repoPatterns.Some? {
        return None;
      }
      var patterns: Dict<string> := Empty();
      var i := 0;
      while i < |config.sections|
        invariant 0 <= i <= |config.sections|
        invariant CollectPatterns(engine, config) == CollectFrom(engine, config, config.sections[i..], patterns)
      {
        var section := config.sections[i];
        assert config.sections[i..] == [section] + config.sections[i + 1..];
        var path := config.get(section, "path");
        if PatternSection(config, section) {
          if !engine.compiles(path.value) {
            return Some(section);
          }
          patterns := Put(patterns, path.value, section);
        }
        i := i + 1;
      }
      repoPatterns := Some(patterns);
      return None;
    }

    /** Lines 132-137: the first pattern that matches the name gives the
        section. */
    method FindSection(patterns: Dict<string>, name: string) returns (section: string)
      requires Valid(patterns)
      ensures section == SectionFor(engine, patterns, name)
    {
      var keys := Keys(patterns);
      section := "repo " + name;
      var i := 0;
      while i < |keys|
        invariant 0 <= i <= |keys|
        invariant forall j :: 0 <= j < i ==> !engine.matchesAtStart(keys[j], name)
        invariant section == "repo " + name
      {
        if engine.matchesAtStart(keys[i], name) {
          section := patterns.entries[keys[i]];
          break;
        }
        i := i + 1;
      }
      FirstMatchAt(engine, keys, name, i);
    }

    /** Lines 139-140: every property is triggered, in order. */
    method TriggerAll(section: string, name: string) returns (calls: seq<Call>)
      ensures calls == Triggered(config, props, section, repositories, name)
    {
      calls := [];
      var k := 0;
      while k < |props|
        invariant 0 <= k <= |props|
        invariant Triggered(config, props, section, repositories, name) ==
          calls + Triggered(config, props[k..], section, repositories, name)
      {
        TriggeredFrom(config, props, k, section, repositories, name);
        var c := Trigger(config, props[k], section, repositories, name);
        AppendAssoc(calls, AsCalls(c), Triggered(config, props[k + 1..], section, repositories, name));
        if c.Some? {
          calls := calls + [c.value];
        }
        k := k + 1;
      }
    }

    /** `visit_one`: the section of the first matching pattern, or
        `repo <name>`, and every property triggered in order; a pattern that
        does not compile stops it. */
    method VisitOne(name: string) returns (r: Result<Visit, string>)
      modifies this
      requires PatternsKnown()
      ensures PatternsKnown()
      ensures CollectPatterns(engine, config).Ok? ==> Valid(CollectPatterns(engine, config).value)
      ensures match CollectPatterns(engine, config)
        case Err(s) => old(repoPatterns).None? && r == Err(s)
        case Ok(d) =>
          var section := SectionFor(engine, d, name);
          repoPatterns == Some(d) && r == Ok(Visit(section, Triggered(config, props, section, repositories, name)))
    {
      CollectPatternsMeaning(engine, config);
      var err := Collect();
      if err.Some? {
        return Err(err.value);
      }
      var section := FindSection(repoPatterns.value, name);
      var calls := TriggerAll(section, name);
      return Ok(Visit(section, calls));
    }
  }
}
