/**
 * The gitolite-style configuration document (`gitosis/gitoliteConfig.py`):
 * a `gitosis` section of global options, `@group = members` definitions and
 * `repo <name>` sections, loaded from lines, written back out, and read
 * through accessors that tokenize a member list on first use and keep the
 * list.
 */
module Config {
  import opened Outcomes
  import opened Text
  import opened Dicts
  import opened Words
  import opened Patterns

  /** A stored value: the raw text read from a file, or a list of words
      (after a first read has tokenized it, or when a caller stored one). */
  datatype Value = Scalar(text: string) | WordList(words: seq<string>)

  type Section = Dict<Value>

  /** The three dictionaries of a `GitoliteConfig`. The `gitosis` section
      only ever receives text, so its options are plain strings. */
  datatype Doc = Doc(global: Dict<Dict<string>>, groups: Dict<Value>, repos: Dict<Section>)

  /** The built-in `gitosis` options. */
  function Defaults(): (d: Dict<string>)
    ensures Valid(d)
    ensures Get(d, "loglevel") == Some("INFO") && Get(d, "decodeID") == Some("no")
  {
    Put(Put(Empty(), "loglevel", "INFO"), "decodeID", "no")
  }

  /** The defaults hold no other option. */
  lemma DefaultsOnly(k: string)
    requires k != "loglevel" && k != "decodeID"
    ensures Get(Defaults(), k) == None
  {
    var once := Put(Empty(), "loglevel", "INFO");
    assert Get(once, k) == None;
  }

  function InitialDoc(): (d: Doc)
    ensures Get(d.global, "gitosis") == Some(Defaults())
    ensures Keys(d.groups) == [] && Keys(d.repos) == []
  {
    Doc(Put(Empty(), "gitosis", Defaults()), Empty(), Empty())
  }

  /** Every dictionary of the document, nested ones included, is valid, and
      the `gitosis` section is there. */
  predicate WellFormed(d: Doc) {
    Valid(d.global) && Valid(d.groups) && Valid(d.repos) &&
    "gitosis" in d.global.entries &&
    (forall n :: n in d.global.entries ==> Valid(d.global.entries[n])) &&
    (forall n :: n in d.repos.entries ==> Valid(d.repos.entries[n]))
  }

  /** A new document is well formed. */
  lemma InitialWellFormed()
    ensures WellFormed(InitialDoc())
  {
    var global := Put(Empty(), "gitosis", Defaults());
    forall n | n in global.entries
      ensures Valid(global.entries[n])
    {
      assert Get(global, n) == Get(Empty<Dict<string>>(), n) || n == "gitosis";
    }
  }

  /** The options whose values are access lists and get tokenized. */
  predicate IsAccessList(option: string) {
    option == "RW+" || option == "R"
  }

  // ---------------------------------------------------------------------
  // What the accessors return, as functions of the stored document

  /** `get_group_members(g)`: nothing for an unknown group, the words of the
      member list otherwise; a tokenizer error is raised. */
  function Members(groups: Dict<Value>, g: string): Result<Option<seq<string>>, TokenError> {
    if g !in groups.entries then Ok(None)
    else match groups.entries[g]
      case WordList(ws) => Ok(Some(ws))
      case Scalar(s) =>
        match Tokenize(s)
        case Err(e) => Err(e)
        case Ok(ws) => Ok(Some(ws))
  }

  /** `get_repo(r, option)`: nothing for an unknown section or option; an
      access list comes back as words, any other option as stored. */
  function RepoOption(repos: Dict<Section>, r: string, option: string): (v: Result<Option<Value>, TokenError>)
    ensures IsAccessList(option) && v.Ok? && v.value.Some? ==> v.value.value.WordList?
  {
    if r !in repos.entries || option !in repos.entries[r].entries then Ok(None)
    else
      var v := repos.entries[r].entries[option];
      if IsAccessList(option) && v.Scalar? then
        match Tokenize(v.text)
        case Err(e) => Err(e)
        case Ok(ws) => Ok(Some(WordList(ws)))
      else Ok(Some(v))
  }

  /** The sections after `set_repo(r, option, value)`: the option set in
      section `r`, which is created when missing. */
  function PutOption(repos: Dict<Section>, r: string, option: string, value: Value): Dict<Section> {
    Put(repos, r, Put(if r in repos.entries then repos.entries[r] else Empty(), option, value))
  }

  /** A list stored by `set_group_members` is what `get_group_members`
      returns. */
  lemma SetMembersRead(groups: Dict<Value>, g: string, ws: seq<string>)
    ensures Members(Put(groups, g, WordList(ws)), g) == Ok(Some(ws))
  {
    assert Get(Put(groups, g, WordList(ws)), g) == Some(WordList(ws));
  }

  /** A value stored by `set_repo` (a list, for an access list) is what
      `get_repo` returns. */
  lemma SetRepoRead(repos: Dict<Section>, r: string, option: string, value: Value)
    requires IsAccessList(option) ==> value.WordList?
    ensures RepoOption(PutOption(repos, r, option, value), r, option) == Ok(Some(value))
  {
    var section := if r in repos.entries then repos.entries[r] else Empty();
    assert Get(PutOption(repos, r, option, value), r) == Some(Put(section, option, value));
    assert Get(Put(section, option, value), option) == Some(value);
  }

  /** `set_repo` keeps the document well formed. */
  lemma PutOptionKeepsWellFormed(d: Doc, r: string, option: string, value: Value)
    requires WellFormed(d)
    ensures WellFormed(Doc(d.global, d.groups, PutOption(d.repos, r, option, value)))
  {
    var section := if r in d.repos.entries then d.repos.entries[r] else Empty();
    var after := PutOption(d.repos, r, option, value);
    forall n | n in after.entries
      ensures Valid(after.entries[n])
    {
      if n == r {
        assert Get(after, r) == Some(Put(section, option, value));
      } else {
        assert Get(after, n) == Get(d.repos, n);
      }
    }
  }

  /** Every other option of every section reads as before `set_repo`. */
  lemma SetRepoKeepsOthers(repos: Dict<Section>, r: string, option: string, value: Value, r': string, option': string)
    requires (r', option') != (r, option)
    ensures RepoOption(PutOption(repos, r, option, value), r', option') == RepoOption(repos, r', option')
  {
    var section := if r in repos.entries then repos.entries[r] else Empty();
    assert Get(PutOption(repos, r, option, value), r) == Some(Put(section, option, value));
    if r' == r {
      assert Get(Put(section, option, value), option') == Get(section, option');
    } else {
      assert Get(PutOption(repos, r, option, value), r') == Get(repos, r');
    }
  }

  /** The group dictionary after `get_group_members(g)` has stored the list
      it read. */
  function RememberMembers(groups: Dict<Value>, g: string): Dict<Value> {
    if g in groups.entries && groups.entries[g].Scalar? then
      match Tokenize(groups.entries[g].text)
      case Ok(ws) => Put(groups, g, WordList(ws))
      case Err(_) => groups
    else groups
  }

  /** The section dictionary after `get_repo(r, option)` has stored the list
      it read. */
  function RememberOption(repos: Dict<Section>, r: string, option: string): Dict<Section> {
    if IsAccessList(option) && r in repos.entries && option in repos.entries[r].entries
       && repos.entries[r].entries[option].Scalar? then
      match Tokenize(repos.entries[r].entries[option].text)
      case Ok(ws) => Put(repos, r, Put(repos.entries[r], option, WordList(ws)))
      case Err(_) => repos
    else repos
  }

  /** Storing a read list changes nothing any later read returns. */
  lemma RememberMembersKeepsReads(groups: Dict<Value>, g: string, h: string)
    ensures Members(RememberMembers(groups, g), h) == Members(groups, h)
  {
    var after := RememberMembers(groups, g);
    if after != groups {
      var t := Tokenize(groups.entries[g].text);
      assert after == Put(groups, g, WordList(t.value));
      if h == g {
        assert after.entries[g] == WordList(t.value);
      } else {
        assert Get(after, h) == Get(groups, h);
      }
    }
  }

  /** Storing a read list adds or moves no group, and the group read holds
      the list read. */
  lemma RememberMembersStores(groups: Dict<Value>, g: string)
    requires Valid(groups)
    ensures Keys(RememberMembers(groups, g)) == Keys(groups) && Valid(RememberMembers(groups, g))
    ensures Members(groups, g).Ok? && Members(groups, g).value.Some? ==>
      Get(RememberMembers(groups, g), g) == Some(WordList(Members(groups, g).value.value))
  {
    var after := RememberMembers(groups, g);
    if after != groups {
      var t := Tokenize(groups.entries[g].text);
      assert after == Put(groups, g, WordList(t.value));
    }
  }

  /** Storing a read access list changes nothing any later read returns. */
  lemma RememberOptionKeepsReads(repos: Dict<Section>, r: string, option: string, r': string, option': string)
    requires Valid(repos) && (forall n :: n in repos.entries ==> Valid(repos.entries[n]))
    ensures RepoOption(RememberOption(repos, r, option), r', option') == RepoOption(repos, r', option')
  {
    var after := RememberOption(repos, r, option);
    if after != repos {
      var section := repos.entries[r];
      var ws := Tokenize(section.entries[option].text).value;
      assert after == Put(repos, r, Put(section, option, WordList(ws)));
      if r' != r || option' != option {
        PutOptionKeepsOthers(repos, r, option, WordList(ws), r', option');
      } else {
        assert RepoOption(after, r', option') == Ok(Some(WordList(ws)));
      }
    }
  }

  /** Storing a value for one option of one section changes no read of any
      other option or section. */
  lemma PutOptionKeepsOthers(repos: Dict<Section>, r: string, option: string, v: Value, r': string, option': string)
    requires r in repos.entries && (r' != r || option' != option)
    ensures RepoOption(Put(repos, r, Put(repos.entries[r], option, v)), r', option') == RepoOption(repos, r', option')
  {
    var section' := Put(repos.entries[r], option, v);
    var after := Put(repos, r, section');
    if r' == r {
      assert after.entries[r] == section';
      assert Get(section', option') == Get(repos.entries[r], option');
    } else {
      assert Get(after, r') == Get(repos, r');
    }
  }

  /** Storing a read access list keeps the document well formed. */
  lemma RememberOptionKeepsWellFormed(d: Doc, r: string, option: string)
    requires WellFormed(d)
    ensures WellFormed(Doc(d.global, d.groups, RememberOption(d.repos, r, option)))
  {
    var after := RememberOption(d.repos, r, option);
    if after != d.repos {
      var ws := Tokenize(d.repos.entries[r].entries[option].text).value;
      PutOptionKeepsWellFormed(d, r, option, WordList(ws));
      assert after == PutOption(d.repos, r, option, WordList(ws));
    }
  }

  /** Storing a read access list adds or moves no section and no option. */
  lemma RememberOptionKeepsKeys(repos: Dict<Section>, r: string, option: string)
    requires Valid(repos) && (forall n :: n in repos.entries ==> Valid(repos.entries[n]))
    ensures Keys(RememberOption(repos, r, option)) == Keys(repos)
    ensures forall n :: n in RememberOption(repos, r, option).entries ==>
      n in repos.entries && Keys(RememberOption(repos, r, option).entries[n]) == Keys(repos.entries[n])
  {
    var after := RememberOption(repos, r, option);
    if after != repos {
      var section := repos.entries[r];
      var ws := Tokenize(section.entries[option].text).value;
      var section' := Put(section, option, WordList(ws));
      assert after == Put(repos, r, section');
      assert Keys(section') == Keys(section);
    }
  }

  // ---------------------------------------------------------------------
  // Loading

  datatype Kind = GlobalKind | RepoKind

  /** The section being read: where it goes, its name, and its options. */
  datatype OpenSection = OpenSection(kind: Kind, name: string, options: Dict<string>)

  datatype LoadErrorKind =
    | BadGroupLine     // an `@` line without `=`
    | MissingRepoName  // a `repo` header without a name
    | BadOptionLine    // an option line without `=`
    | BadLine          // an option line outside any section

  /** A syntax error and the number of the line it is on, counting from 1. */
  datatype LoadError = LoadError(kind: LoadErrorKind, lineNo: nat)

  /** A failed load: the error, and the document as the loop left it. */
  datatype Failure = Failure(error: LoadError, partial: Doc)

  datatype Loading = Loading(doc: Doc, open: Option<OpenSection>)

  /** A section read from text, with its values as stored text. */
  function AsScalars(d: Dict<string>): (r: Dict<Value>)
    ensures r.order == d.order
    ensures forall k :: Get(r, k) == if k in d.entries then Some(Scalar(d.entries[k])) else None
    ensures Valid(d) ==> Valid(r)
  {
    Dict(d.order, map k | k in d.entries :: Scalar(d.entries[k]))
  }

  /** Storing the open section, replacing any earlier one of that name. */
  function Flush(doc: Doc, open: Option<OpenSection>): Doc {
    match open
    case None => doc
    case Some(OpenSection(kind, name, options)) =>
      if kind == GlobalKind then doc.(global := Put(doc.global, name, options))
      else doc.(repos := Put(doc.repos, name, AsScalars(options)))
  }

  /** `(gitosis|repo)(\s|$)` matched at the start of a stripped line. */
  predicate IsHeader(line: string) {
    (StartsWith(line, "gitosis") && (|line| == 7 || IsSpace(line[7]))) ||
    (StartsWith(line, "repo") && (|line| == 4 || IsSpace(line[4])))
  }

  /** An `@name = members` line: the raw member text is stored. */
  function DefineGroup(st: Loading, line: string, n: nat): Result<Loading, Failure> {
    match SplitAt(line, '=')
    case None => Err(Failure(LoadError(BadGroupLine, n), st.doc))
    case Some(parts) =>
      Ok(st.(doc := st.doc.(groups := Put(st.doc.groups, Strip(parts.0), Scalar(Strip(parts.1))))))
  }

  /** A section header: the open section is stored and a new, empty one opened. */
  function OpenHeader(st: Loading, line: string, n: nat): Result<Loading, Failure> {
    var doc := Flush(st.doc, st.open);
    if StartsWith(line, "gitosis") then Ok(Loading(doc, Some(OpenSection(GlobalKind, "gitosis", Empty()))))
    else
      var words := SplitOnce(line);
      if |words| < 2 then Err(Failure(LoadError(MissingRepoName, n), doc))
      else Ok(Loading(doc, Some(OpenSection(RepoKind, Strip(words[1]), Empty()))))
  }

  /** A `key = value` line inside a section. */
  function SetOption(st: Loading, line: string, n: nat): Result<Loading, Failure>
    requires st.open.Some?
  {
    match SplitAt(line, '=')
    case None => Err(Failure(LoadError(BadOptionLine, n), st.doc))
    case Some(parts) =>
      var options := Put(st.open.value.options, Strip(parts.0), Strip(parts.1));
      Ok(st.(open := Some(st.open.value.(options := options))))
  }

  /** One turn of the loop of `load` on the stripped line `line`, number `n`. */
  function LoadStripped(st: Loading, line: string, n: nat): Result<Loading, Failure> {
    if line == [] || line[0] == '#' then Ok(st)
    else if line[0] == '@' then DefineGroup(st, line, n)
    else if IsHeader(line) then OpenHeader(st, line, n)
    else if st.open.Some? then SetOption(st, line, n)
    else Err(Failure(LoadError(BadLine, n), st.doc))
  }

  function LoadLine(st: Loading, raw: string, n: nat): Result<Loading, Failure> {
    LoadStripped(st, Strip(raw), n)
  }

  /** The loop of `load` over `lines`, the first of them numbered `n`. */
  function LoadLines(st: Loading, lines: seq<string>, n: nat): Result<Loading, Failure>
    decreases |lines|
  {
    if lines == [] then Ok(st)
    else match LoadLine(st, lines[0], n)
      case Err(f) => Err(f)
      case Ok(next) => LoadLines(next, lines[1..], n + 1)
  }

  /** `load(lines)` on a document: the loop, then the last section stored. */
  function Loaded(doc: Doc, lines: seq<string>): Result<Doc, Failure> {
    Close(LoadLines(Loading(doc, None), lines, 1))
  }

  /** `load(lines)` minus the final flush. */
  function Close(r: Result<Loading, Failure>): Result<Doc, Failure> {
    match r
    case Err(f) => Err(f)
    case Ok(st) => Ok(Flush(st.doc, st.open))
  }

  /** The loop from line `k` on, one turn taken. */
  lemma LoadFrom(st: Loading, lines: seq<string>, k: nat)
    requires k < |lines|
    ensures Close(LoadLines(st, lines[k..], k + 1)) ==
      match LoadStripped(st, Strip(lines[k]), k + 1)
      case Err(f) => Err(f)
      case Ok(next) => Close(LoadLines(next, lines[k + 1..], k + 2))
  {
    assert lines[k..][1..] == lines[k + 1..];
  }

  /** The loop's state is sound: the document is well formed and the open
      section's options are a valid dictionary. */
  predicate Sound(st: Loading) {
    WellFormed(st.doc) && (st.open.Some? ==> Valid(st.open.value.options))
  }

  lemma FlushKeepsWellFormed(st: Loading)
    requires Sound(st)
    ensures WellFormed(Flush(st.doc, st.open))
  {
    var d := Flush(st.doc, st.open);
    if st.open.Some? {
      var name := st.open.value.name;
      forall n | n in d.global.entries ensures Valid(d.global.entries[n]) {
        if n != name {
          assert Get(d.global, n) == Get(st.doc.global, n);
        }
      }
      forall n | n in d.repos.entries ensures Valid(d.repos.entries[n]) {
        if n != name {
          assert Get(d.repos, n) == Get(st.doc.repos, n);
        }
      }
      assert "gitosis" in d.global.entries by {
        assert Get(st.doc.global, "gitosis").Some?;
      }
    }
  }

  lemma LoadStrippedKeepsSound(st: Loading, line: string, n: nat)
    requires Sound(st)
    ensures match LoadStripped(st, line, n)
            case Ok(next) => Sound(next)
            case Err(f) => WellFormed(f.partial)
  {
    if line != [] && line[0] != '#' && line[0] != '@' && IsHeader(line) {
      FlushKeepsWellFormed(st);
    } else if line != [] && line[0] == '@' && SplitAt(line, '=').Some? {
      var d := LoadStripped(st, line, n).value.doc;
      assert d.global == st.doc.global && d.repos == st.doc.repos;
    }
  }

  /** Loading never breaks a well-formed document, whether it succeeds or
      stops at a syntax error: the `gitosis` section stays, and every
      dictionary lists each of its keys once. */
  lemma {:induction false} LoadKeepsWellFormed(doc: Doc, lines: seq<string>)
    requires WellFormed(doc)
    ensures match Loaded(doc, lines)
            case Ok(d) => WellFormed(d)
            case Err(f) => WellFormed(f.partial)
  {
    LoadLinesKeepSound(Loading(doc, None), lines, 1);
    var r := LoadLines(Loading(doc, None), lines, 1);
    if r.Ok? {
      FlushKeepsWellFormed(r.value);
    }
  }

  lemma {:induction false} LoadLinesKeepSound(st: Loading, lines: seq<string>, n: nat)
    requires Sound(st)
    ensures match LoadLines(st, lines, n)
            case Ok(next) => Sound(next)
            case Err(f) => WellFormed(f.partial)
    decreases |lines|
  {
    if lines != [] {
      LoadStrippedKeepsSound(st, Strip(lines[0]), n);
      match LoadLine(st, lines[0], n)
      case Err(_) =>
      case Ok(next) => LoadLinesKeepSound(next, lines[1..], n + 1);
    }
  }

  /** Blank lines and comment lines change nothing. */
  predicate Ignorable(raw: string) {
    Strip(raw) == [] || Strip(raw)[0] == '#'
  }

  lemma {:induction false} IgnorableLinesChangeNothing(st: Loading, lines: seq<string>, n: nat)
    requires forall i :: 0 <= i < |lines| ==> Ignorable(lines[i])
    ensures LoadLines(st, lines, n) == Ok(st)
    decreases |lines|
  {
    if lines != [] {
      assert Ignorable(lines[0]);
      IgnorableLinesChangeNothing(st, lines[1..], n + 1);
    }
  }

  lemma LoadLineError(st: Loading, raw: string, n: nat)
    ensures LoadLine(st, raw, n).Err? ==> LoadLine(st, raw, n).error.error.lineNo == n && !Ignorable(raw)
  {
  }

  /** A line starting with `@` defines a group wherever it stands, inside a
      section or not: the trimmed text before the first `=` names the group,
      the trimmed text after it is stored as it is, replacing any earlier
      definition, and the open section stays open. Without `=` the line is
      an error that keeps what was loaded so far. */
  lemma GroupLineDefines(st: Loading, raw: string, n: nat, k: nat)
    requires Strip(raw) != [] && Strip(raw)[0] == '@'
    ensures '=' !in Strip(raw) ==> LoadLine(st, raw, n) == Err(Failure(LoadError(BadGroupLine, n), st.doc))
    ensures var l := Strip(raw);
      k < |l| && l[k] == '=' && '=' !in l[..k] ==>
        LoadLine(st, raw, n) ==
          Ok(Loading(st.doc.(groups := Put(st.doc.groups, Strip(l[..k]), Scalar(Strip(l[k + 1..])))), st.open))
  {
    var l := Strip(raw);
    if k < |l| && l[k] == '=' && '=' !in l[..k] {
      SplitAtFirst(l, '=', k);
    }
  }

  /** Any other line that is not blank, a comment or a header is an option
      of the open section: the trimmed text before the first `=` is the key
      and the trimmed text after it the value, replacing an earlier value of
      that key. With no section open, or without `=`, the line is an
      error. */
  lemma OptionLineStored(st: Loading, raw: string, n: nat, k: nat)
    requires var l := Strip(raw); l != [] && l[0] != '#' && l[0] != '@' && !IsHeader(l)
    ensures st.open.None? ==> LoadLine(st, raw, n) == Err(Failure(LoadError(BadLine, n), st.doc))
    ensures st.open.Some? && '=' !in Strip(raw) ==>
      LoadLine(st, raw, n) == Err(Failure(LoadError(BadOptionLine, n), st.doc))
    ensures var l := Strip(raw);
      st.open.Some? && k < |l| && l[k] == '=' && '=' !in l[..k] ==>
        LoadLine(st, raw, n) ==
          Ok(st.(open := Some(st.open.value.(options := Put(st.open.value.options, Strip(l[..k]), Strip(l[k + 1..]))))))
  {
    var l := Strip(raw);
    if k < |l| && l[k] == '=' && '=' !in l[..k] {
      SplitAtFirst(l, '=', k);
    }
  }

  /** A syntax error names a line of the input, and that line is neither
      blank nor a comment. */
  lemma {:induction false} LoadErrorNamesLine(st: Loading, lines: seq<string>, n: nat)
    ensures LoadLines(st, lines, n).Err? ==>
      var k := LoadLines(st, lines, n).error.error.lineNo;
      n <= k < n + |lines| && !Ignorable(lines[k - n])
    decreases |lines|
  {
    if lines != [] {
      LoadLineError(st, lines[0], n);
      var r := LoadLine(st, lines[0], n);
      if r.Ok? {
        var rest := lines[1..];
        LoadErrorNamesLine(r.value, rest, n + 1);
        assert LoadLines(st, lines, n) == LoadLines(r.value, rest, n + 1);
        if LoadLines(r.value, rest, n + 1).Err? {
          var k := LoadLines(r.value, rest, n + 1).error.error.lineNo;
          assert rest[k - n - 1] == lines[k - n];
        }
      }
    }
  }

  /** A `key = value` line: not blank, not a comment, not a group, not a
      header, and holding `=`. */
  predicate IsOptionLine(raw: string) {
    var line := Strip(raw);
    line != [] && line[0] != '#' && line[0] != '@' && !IsHeader(line) && '=' in line
  }

  function KeyOf(raw: string): string
    requires IsOptionLine(raw)
  {
    Strip(SplitAt(Strip(raw), '=').value.0)
  }

  function ValueOf(raw: string): string
    requires IsOptionLine(raw)
  {
    Strip(SplitAt(Strip(raw), '=').value.1)
  }

  /** The options a run of `key = value` lines sets, on top of `options`. */
  function OptionsFrom(lines: seq<string>, options: Dict<string>): Dict<string>
    requires forall i :: 0 <= i < |lines| ==> IsOptionLine(lines[i])
    decreases |lines|
  {
    if lines == [] then options
    else
      OptionLinesTail(lines);
      OptionsFrom(lines[1..], Put(options, KeyOf(lines[0]), ValueOf(lines[0])))
  }

  /** The keys of a run of option lines, in order. */
  function KeysOf(lines: seq<string>): seq<string>
    requires forall i :: 0 <= i < |lines| ==> IsOptionLine(lines[i])
    decreases |lines|
  {
    if lines == [] then [] else [KeyOf(lines[0])] + KeysOf(lines[1..])
  }

  /** The keys set are the earlier ones and those of the lines. */
  lemma {:induction false} OptionsFromKeys(lines: seq<string>, options: Dict<string>, key: string)
    requires forall i :: 0 <= i < |lines| ==> IsOptionLine(lines[i])
    ensures key in OptionsFrom(lines, options).entries <==> key in options.entries || key in KeysOf(lines)
    decreases |lines|
  {
    if lines != [] {
      var next := Put(options, KeyOf(lines[0]), ValueOf(lines[0]));
      OptionsFromKeys(lines[1..], next, key);
      assert key in next.entries <==> key in options.entries || KeyOf(lines[0]) == key by {
        assert Get(next, key).Some? <==> key in next.entries;
      }
      assert KeysOf(lines) == [KeyOf(lines[0])] + KeysOf(lines[1..]);
    }
  }

  /** Inside a section, option lines only fill the open section. */
  lemma {:induction false} OptionLinesFill(st: Loading, lines: seq<string>, n: nat)
    requires st.open.Some?
    requires forall i :: 0 <= i < |lines| ==> IsOptionLine(lines[i])
    ensures LoadLines(st, lines, n) ==
      Ok(st.(open := Some(st.open.value.(options := OptionsFrom(lines, st.open.value.options)))))
    decreases |lines|
  {
    if lines != [] {
      var line := Strip(lines[0]);
      assert IsOptionLine(lines[0]);
      var parts := SplitAt(line, '=').value;
      var next := st.(open := Some(st.open.value.(options := Put(st.open.value.options, Strip(parts.0), Strip(parts.1)))));
      assert LoadLine(st, lines[0], n) == Ok(next);
      OptionLinesFill(next, lines[1..], n + 1);
    }
  }

  /** A `gitosis` header followed by option lines stores, in place of any
      earlier `gitosis` section (the built-in defaults included), exactly
      the options below it: a default survives only if a line sets it again. */
  lemma GitosisHeaderReplacesSection(doc: Doc, lines: seq<string>)
    requires lines != [] && Strip(lines[0]) == "gitosis"
    requires forall i :: 1 <= i < |lines| ==> IsOptionLine(lines[i])
    ensures Loaded(doc, lines).Ok?
    ensures Get(Loaded(doc, lines).value.global, "gitosis") == Some(OptionsFrom(lines[1..], Empty()))
    ensures "loglevel" in Loaded(doc, lines).value.global.entries["gitosis"].entries <==>
      "loglevel" in KeysOf(lines[1..])
  {
    OptionLinesTail(lines);
    var rest := lines[1..];
    var opts := OptionsFrom(rest, Empty());
    var st := Loading(doc, None);
    var started := Loading(doc, Some(OpenSection(GlobalKind, "gitosis", Empty())));
    GitosisHeaderOpens(st, 1);
    assert LoadLine(st, lines[0], 1) == LoadStripped(st, "gitosis", 1);
    assert LoadLines(st, lines, 1) == LoadLines(started, rest, 2);
    OptionLinesFill(started, rest, 2);
    var d := doc.(global := Put(doc.global, "gitosis", opts));
    assert Loaded(doc, lines) == Ok(d);
    assert Get(d.global, "gitosis") == Some(opts);
    OptionsFromKeys(rest, Empty(), "loglevel");
  }

  /** A `gitosis` header stores the open section and opens an empty one. */
  lemma GitosisHeaderOpens(st: Loading, n: nat)
    ensures LoadStripped(st, "gitosis", n) == Ok(Loading(Flush(st.doc, st.open), Some(OpenSection(GlobalKind, "gitosis", Empty()))))
  {
    var l: string := "gitosis";
    assert l[..7] == l;
    assert StartsWith(l, "gitosis") && IsHeader(l);
  }

  lemma OptionLinesTail(lines: seq<string>)
    requires lines != [] && forall i :: 1 <= i < |lines| ==> IsOptionLine(lines[i])
    ensures forall i :: 0 <= i < |lines[1..]| ==> IsOptionLine(lines[1..][i])
  {
    forall i | 0 <= i < |lines[1..]| ensures IsOptionLine(lines[1..][i]) {
      assert lines[1..][i] == lines[i + 1];
    }
  }

  // ---------------------------------------------------------------------
  // Writing

  /** A value as written: text as it is, a word list through `_words_to_line`. */
  function ValueText(v: Value): Option<string> {
    match v
    case Scalar(s) => Some(s)
    case WordList(ws) => Render(ws)
  }

  function OptionLine(key: string, text: string): string {
    "\t" + key + "\t = " + text
  }

  function GroupLine(name: string, text: string): string {
    name + "\t = " + text
  }

  /** The lines written so far, `out`, followed by the option lines of
      `keys`; `None` once a word list fails to be written. */
  function OptionLinesFrom(section: Section, keys: seq<string>, out: seq<string>): Option<seq<string>>
    requires forall k :: k in keys ==> k in section.entries
    decreases |keys|
  {
    if keys == [] then Some(out)
    else
      match ValueText(section.entries[keys[0]])
      case None => None
      case Some(t) => OptionLinesFrom(section, keys[1..], out + [OptionLine(keys[0], t)])
  }

  /** `_write_section` for each of `names`, the header being `prefix + name`. */
  function SectionLinesFrom(sections: Dict<Section>, names: seq<string>, prefix: string, out: seq<string>): Option<seq<string>>
    requires forall n :: n in names ==> n in sections.entries && Valid(sections.entries[n])
    decreases |names|
  {
    if names == [] then Some(out)
    else
      var section := sections.entries[names[0]];
      match OptionLinesFrom(section, Keys(section), out + [prefix + names[0]])
      case None => None
      case Some(next) => SectionLinesFrom(sections, names[1..], prefix, next)
  }

  /** The group lines `serialize` prints for `names`, in order. */
  function GroupLinesFrom(groups: Dict<Value>, names: seq<string>, out: seq<string>): Option<seq<string>>
    requires forall n :: n in names ==> n in groups.entries
    decreases |names|
  {
    if names == [] then Some(out)
    else
      match ValueText(groups.entries[names[0]])
      case None => None
      case Some(t) => GroupLinesFrom(groups, names[1..], out + [GroupLine(names[0], t)])
  }

  function GlobalSections(global: Dict<Dict<string>>): (r: Dict<Section>)
    ensures r.order == global.order
    ensures forall n :: n in r.entries <==> n in global.entries
    ensures forall n :: n in r.entries ==> r.entries[n] == AsScalars(global.entries[n])
  {
    Dict(global.order, map n | n in global.entries :: AsScalars(global.entries[n]))
  }

  /** A line that starts with a key of neither header word, followed by a
      tab, is no header. */
  lemma NoHeaderAfter(key: string, rest: string)
    requires key != [] && !StartsWith(key, "gitosis") && !StartsWith(key, "repo")
    requires rest != [] && rest[0] == '\t'
    ensures !IsHeader(key + rest)
  {
    assert (key + rest)[|key|] == '\t';
  }

  /** What is left of an assignment line once stripped: the text after
      `=` loses its space when it is empty. */
  function Assignment(head: string, text: string): string {
    head + AssignedText(text)
  }

  function AssignedText(text: string): (r: string)
    ensures |r| >= 3 && r[0] == '\t' && r[..2] == ['\t', ' '] && r[2] == '='
    ensures r[3..] == if text == [] then [] else [' '] + text
  {
    ['\t', ' ', '='] + (if text == [] then [] else [' '] + text)
  }

  lemma StripAssignment(p: string, head: string, text: string)
    requires AllSpace(p) && head != [] && Trimmed(head) && Trimmed(text)
    ensures Strip(p + head + "\t = " + text) == Assignment(head, text)
  {
    var l := Assignment(head, text);
    var q := if text == [] then [' '] else [];
    AssignmentTrimmed(head, text);
    AssignmentPadded(head, text);
    var w := head + "\t = " + text;
    assert p + head + "\t = " + text == p + w;
    assert p + w == p + l + q;
    StripAround(p, l, q);
  }

  /** A written assignment is `Assignment` plus, for an empty value, the
      space after the `=`. */
  lemma AssignmentPadded(head: string, text: string)
    ensures head + "\t = " + text == Assignment(head, text) + (if text == [] then [' '] else [])
  {
    var sep := "\t = ";
    assert sep == ['\t', ' ', '='] + [' '];
  }

  /** An assignment of trimmed sides has no surrounding whitespace. */
  lemma AssignmentTrimmed(head: string, text: string)
    requires head != [] && Trimmed(head) && Trimmed(text)
    ensures Trimmed(Assignment(head, text))
  {
    var l := Assignment(head, text);
    assert l[0] == head[0];
    if text != [] {
      assert l[|l| - 1] == text[|text| - 1];
    }
  }

  /** The two sides of a stripped assignment line, split at its `=`. */
  lemma AssignmentSides(head: string, text: string)
    requires head != [] && Trimmed(head) && '=' !in head && Trimmed(text)
    ensures var l := Assignment(head, text);
      |head| + 2 < |l| && l[|head| + 2] == '=' && '=' !in l[..|head| + 2] &&
      Strip(l[..|head| + 2]) == head && Strip(l[|head| + 3..]) == text
  {
    var r := AssignedText(text);
    SplitAround(head, r, 2);
    AssignedLeft(head);
    AssignedRight(text);
  }

  /** Cutting `x + r` around position `i` of `r`. */
  lemma SplitAround(x: string, r: string, i: nat)
    requires i < |r|
    ensures var l := x + r; l[|x| + i] == r[i] && l[..|x| + i] == x + r[..i] && l[|x| + i + 1..] == r[i + 1..]
  {
  }

  lemma AssignedLeft(head: string)
    requires head != [] && Trimmed(head) && '=' !in head
    ensures '=' !in head + ['\t', ' '] && Strip(head + ['\t', ' ']) == head
  {
    StripAround("", head, ['\t', ' ']);
    assert "" + head + ['\t', ' '] == head + ['\t', ' '];
  }

  lemma AssignedRight(text: string)
    requires Trimmed(text)
    ensures Strip(if text == [] then [] else [' '] + text) == text
  {
    if text == [] {
      StripUnpadded([]);
    } else {
      StripAround([' '], text, "");
      assert [' '] + text + "" == [' '] + text;
    }
  }

  /** An option line as `serialize` writes it is read back, inside an open
      section, as the same key and value: for a key without `=` and
      surrounding whitespace that is no comment, no group name and does not
      start with a header word, and a value without surrounding
      whitespace. */
  lemma WrittenOptionRead(st: Loading, key: string, text: string, n: nat)
    requires st.open.Some?
    requires key != [] && Trimmed(key) && '=' !in key && key[0] != '#' && key[0] != '@'
    requires !StartsWith(key, "gitosis") && !StartsWith(key, "repo")
    requires Trimmed(text)
    ensures LoadLine(st, OptionLine(key, text), n) ==
      Ok(st.(open := Some(st.open.value.(options := Put(st.open.value.options, key, text)))))
  {
    StripAssignment("\t", key, text);
    AssignedOption(st, OptionLine(key, text), key, text, n);
  }

  lemma AssignedOption(st: Loading, raw: string, key: string, text: string, n: nat)
    requires Strip(raw) == Assignment(key, text)
    requires st.open.Some?
    requires key != [] && Trimmed(key) && '=' !in key && key[0] != '#' && key[0] != '@'
    requires !StartsWith(key, "gitosis") && !StartsWith(key, "repo")
    requires Trimmed(text)
    ensures LoadLine(st, raw, n) ==
      Ok(st.(open := Some(st.open.value.(options := Put(st.open.value.options, key, text)))))
  {
    var l := Assignment(key, text);
    AssignmentSides(key, text);
    NoHeaderAfter(key, AssignedText(text));
    assert l[0] == key[0] && !IsHeader(l);
    OptionFromSides(st, raw, key, text, n, |key| + 2);
  }

  /** An option line whose stripped form splits at its first `=` into
      sides that strip to `key` and `text` stores them. */
  lemma OptionFromSides(st: Loading, raw: string, key: string, text: string, n: nat, k: nat)
    requires var l := Strip(raw);
      l != [] && l[0] != '#' && l[0] != '@' && !IsHeader(l) && st.open.Some? &&
      k < |l| && l[k] == '=' && '=' !in l[..k] && Strip(l[..k]) == key && Strip(l[k + 1..]) == text
    ensures LoadLine(st, raw, n) ==
      Ok(st.(open := Some(st.open.value.(options := Put(st.open.value.options, key, text)))))
  {
    OptionLineStored(st, raw, n, k);
  }

  /** A group line as `serialize` writes it defines, when read back, the
      same group with the same text, for a name without `=` and trailing
      whitespace and a value without surrounding whitespace. */
  lemma WrittenGroupRead(st: Loading, name: string, text: string, n: nat)
    requires name != [] && name[0] == '@' && Trimmed(name) && '=' !in name
    requires Trimmed(text)
    ensures LoadLine(st, GroupLine(name, text), n) ==
      Ok(Loading(st.doc.(groups := Put(st.doc.groups, name, Scalar(text))), st.open))
  {
    assert GroupLine(name, text) == "" + name + "\t = " + text;
    StripAssignment("", name, text);
    AssignedGroup(st, GroupLine(name, text), name, text, n);
  }

  lemma AssignedGroup(st: Loading, raw: string, name: string, text: string, n: nat)
    requires Strip(raw) == Assignment(name, text)
    requires name != [] && name[0] == '@' && Trimmed(name) && '=' !in name
    requires Trimmed(text)
    ensures LoadLine(st, raw, n) ==
      Ok(Loading(st.doc.(groups := Put(st.doc.groups, name, Scalar(text))), st.open))
  {
    AssignmentSides(name, text);
    assert Assignment(name, text)[0] == name[0];
    GroupFromSides(st, raw, name, text, n, |name| + 2);
  }

  /** A group line whose stripped form splits at its first `=` into sides
      that strip to `name` and `text` defines that group. */
  lemma GroupFromSides(st: Loading, raw: string, name: string, text: string, n: nat, k: nat)
    requires var l := Strip(raw);
      l != [] && l[0] == '@' && k < |l| && l[k] == '=' && '=' !in l[..k] &&
      Strip(l[..k]) == name && Strip(l[k + 1..]) == text
    ensures LoadLine(st, raw, n) ==
      Ok(Loading(st.doc.(groups := Put(st.doc.groups, name, Scalar(text))), st.open))
  {
    GroupLineDefines(st, raw, n, k);
  }

  /** A repository header as `serialize` writes it stores the open section
      and opens an empty one of the same name. */
  lemma WrittenHeaderRead(st: Loading, name: string, n: nat)
    requires name != [] && Trimmed(name)
    ensures LoadLine(st, "repo " + name, n) ==
      Ok(Loading(Flush(st.doc, st.open), Some(OpenSection(RepoKind, name, Empty()))))
  {
    RepoHeaderStripped(name);
    RepoHeaderWords(name);
    RepoHeaderKind(name);
    StripUnpadded(name);
    HeaderOpens(st, "repo " + name, name, n);
  }

  /** A header line other than `gitosis` whose second word is `name`
      opens that section. */
  lemma HeaderOpens(st: Loading, l: string, name: string, n: nat)
    requires l != [] && l[0] != '#' && l[0] != '@' && IsHeader(l) && !StartsWith(l, "gitosis")
    requires SplitOnce(l) == ["repo", name] && Strip(name) == name
    ensures LoadStripped(st, l, n) == Ok(Loading(Flush(st.doc, st.open), Some(OpenSection(RepoKind, name, Empty()))))
  {
    assert LoadStripped(st, l, n) == OpenHeader(st, l, n);
    RepoHeaderOpens(st, l, name, n);
  }

  lemma RepoHeaderOpens(st: Loading, l: string, name: string, n: nat)
    requires !StartsWith(l, "gitosis")
    requires SplitOnce(l) == ["repo", name] && Strip(name) == name
    ensures OpenHeader(st, l, n) == Ok(Loading(Flush(st.doc, st.open), Some(OpenSection(RepoKind, name, Empty()))))
  {
  }

  /** A written repository header is a header, and not the `gitosis` one. */
  lemma RepoHeaderKind(name: string)
    ensures IsHeader("repo " + name) && !StartsWith("repo " + name, "gitosis")
    ensures var l := "repo " + name; l[0] != '#' && l[0] != '@'
  {
    var l := "repo " + name;
    assert l[..4] == "repo" && l[4] == ' ' && l[0] == 'r';
  }

  /** A written repository header is its own stripped form. */
  lemma RepoHeaderStripped(name: string)
    requires name != [] && Trimmed(name)
    ensures Strip("repo " + name) == "repo " + name
  {
    var l := "repo " + name;
    assert l[0] == 'r' && l[|l| - 1] == name[|name| - 1];
    StripUnpadded(l);
  }

  /** A written repository header splits into `repo` and the name. */
  lemma RepoHeaderWords(name: string)
    requires name != [] && Trimmed(name)
    ensures SplitOnce("repo " + name) == ["repo", name]
  {
    RepoNoSpace();
    SplitOnceWord("repo", name);
    assert "repo" + " " == "repo ";
  }

  lemma RepoNoSpace()
    ensures !HasSpace("repo")
  {
    var w := "repo";
    assert w == ['r', 'e', 'p', 'o'];
  }

  /** `serialize()`: the global sections, a blank line, the groups, a blank
      line, the repository sections; each line is printed with a newline.
      `None` when writing a word list fails its assertion. */
  function Serialized(d: Doc): Option<seq<string>>
    requires WellFormed(d)
  {
    var globals := GlobalSections(d.global);
    match SectionLinesFrom(globals, Keys(globals), "", [])
    case None => None
    case Some(g) => AfterGlobals(d, g)
  }

  /** The rest of `serialize()` once the global sections are written. */
  function AfterGlobals(d: Doc, out: seq<string>): Option<seq<string>>
    requires WellFormed(d)
  {
    match GroupLinesFrom(d.groups, Keys(d.groups), out + [""])
    case None => None
    case Some(m) => AfterGroups(d, m)
  }

  /** The rest of `serialize()` once the groups are written. */
  function AfterGroups(d: Doc, out: seq<string>): Option<seq<string>>
    requires WellFormed(d)
  {
    SectionLinesFrom(d.repos, Keys(d.repos), "repo ", out + [""])
  }

  /** The section loop from the `i`th name on, one turn taken. */
  lemma SectionLinesStep(sections: Dict<Section>, names: seq<string>, i: nat, prefix: string, out: seq<string>)
    requires i < |names|
    requires forall n :: n in names ==> n in sections.entries && Valid(sections.entries[n])
    ensures SectionLinesFrom(sections, names[i..], prefix, out) ==
      var section := sections.entries[names[i]];
      match OptionLinesFrom(section, Keys(section), out + [prefix + names[i]])
      case None => None
      case Some(next) => SectionLinesFrom(sections, names[i + 1..], prefix, next)
  {
    assert names[i..][1..] == names[i + 1..];
  }

  /** The group loop from the `i`th name on, one turn taken. */
  lemma GroupLinesStep(groups: Dict<Value>, names: seq<string>, i: nat, out: seq<string>)
    requires i < |names|
    requires forall n :: n in names ==> n in groups.entries
    ensures GroupLinesFrom(groups, names[i..], out) ==
      match ValueText(groups.entries[names[i]])
      case None => None
      case Some(t) => GroupLinesFrom(groups, names[i + 1..], out + [GroupLine(names[i], t)])
  {
    assert names[i..][1..] == names[i + 1..];
  }

  // ---------------------------------------------------------------------
  // Finding the section for a path

  /** `lookup_repo` raises: a `path_regex` that does not compile, or one
      that is a list (stored by a caller) and so not a pattern at all. */
  datatype LookupError = BadRegex(pattern: string, repo: string) | PatternNotText(repo: string)

  /** Section `name` declares the non-empty pattern `p` as its `path_regex`. */
  predicate Declares(repos: Dict<Section>, name: string, p: string) {
    name in repos.entries && Get(repos.entries[name], "path_regex") == Some(Scalar(p)) && p != []
  }

  /** The loop that fills `repo_patterns`, over the sections `names`, on top
      of the patterns `table` already holds. Patterns are keyed by their text:
      compiling the same text twice gives back the cached pattern object. */
  function PatternsFrom(engine: Engine, repos: Dict<Section>, names: seq<string>, table: Dict<string>): Result<Dict<string>, LookupError>
    decreases |names|
  {
    if names == [] then Ok(table)
    else
      var name := names[0];
      var declared := if name in repos.entries then Get(repos.entries[name], "path_regex") else None;
      if declared.None? || declared.value == Scalar([]) || declared.value == WordList([]) then
        PatternsFrom(engine, repos, names[1..], table)
      else if declared.value.WordList? then Err(PatternNotText(name))
      else if !engine.compiles(declared.value.text) then Err(BadRegex(declared.value.text, name))
      else PatternsFrom(engine, repos, names[1..], Put(table, declared.value.text, name))
  }

  function PatternTable(engine: Engine, repos: Dict<Section>): Result<Dict<string>, LookupError> {
    PatternsFrom(engine, repos, Keys(repos), Empty())
  }

  /** The section of the first pattern, in the table's order, that matches at
      the start of `path`. */
  function Lookup(engine: Engine, table: Dict<string>, path: string): Option<string> {
    var i := FirstMatch(engine, table.order, path);
    if i < |table.order| then Get(table, table.order[i]) else None
  }

  /** `lookup_repo(path)` with no table built yet. */
  function ResolveRepo(engine: Engine, repos: Dict<Section>, path: string): Result<Option<string>, LookupError> {
    if path in repos.entries then Ok(Some(path))
    else
      match PatternTable(engine, repos)
      case Err(e) => Err(e)
      case Ok(table) => Ok(Lookup(engine, table, path))
  }

  /** Every pattern in `table` compiles and is declared by the section it
      leads to; the table's order lists its keys. */
  predicate TableSound(engine: Engine, repos: Dict<Section>, table: Dict<string>) {
    Valid(table) &&
    forall p :: p in table.entries ==> engine.compiles(p) && Declares(repos, table.entries[p], p)
  }

  /** Filling the table keeps it sound, and a successful fill holds the
      pattern of every section it visited. */
  lemma {:induction false} PatternsFromSound(engine: Engine, repos: Dict<Section>, names: seq<string>, table: Dict<string>)
    requires TableSound(engine, repos, table)
    ensures PatternsFrom(engine, repos, names, table).Ok? ==>
      var t := PatternsFrom(engine, repos, names, table).value;
      TableSound(engine, repos, t) &&
      (forall p :: p in table.entries ==> p in t.entries) &&
      (forall n, p :: n in names && Declares(repos, n, p) ==> p in t.entries)
    decreases |names|
  {
    if names != [] {
      var name := names[0];
      var declared := if name in repos.entries then Get(repos.entries[name], "path_regex") else None;
      if declared.None? || declared.value == Scalar([]) || declared.value == WordList([]) {
        PatternsFromSound(engine, repos, names[1..], table);
      } else if declared.value.Scalar? && engine.compiles(declared.value.text) {
        var next := Put(table, declared.value.text, name);
        assert TableSound(engine, repos, next) by {
          forall p | p in next.entries
            ensures engine.compiles(p) && Declares(repos, next.entries[p], p)
          {
            if p != declared.value.text {
              assert Get(next, p) == Get(table, p);
            }
          }
        }
        PatternsFromSound(engine, repos, names[1..], next);
      }
      if PatternsFrom(engine, repos, names, table).Ok? {
        forall n, p | n in names && Declares(repos, n, p)
          ensures p in PatternsFrom(engine, repos, names, table).value.entries
        {
          if n != name {
            assert n in names[1..];
          }
        }
      }
    }
  }

  /** What `lookup_repo` answers: the path itself when it names a section;
      otherwise a section whose pattern matches at the start of the path,
      and nothing only when no section's pattern matches. */
  lemma ResolveRepoMeaning(engine: Engine, repos: Dict<Section>, path: string)
    requires Valid(repos)
    ensures path in repos.entries ==> ResolveRepo(engine, repos, path) == Ok(Some(path))
    ensures path !in repos.entries && ResolveRepo(engine, repos, path).Ok? ==>
      match ResolveRepo(engine, repos, path).value
      case Some(n) => exists p :: Declares(repos, n, p) && engine.matchesAtStart(p, path)
      case None => forall n, p :: Declares(repos, n, p) ==> !engine.matchesAtStart(p, path)
  {
    if path !in repos.entries && PatternTable(engine, repos).Ok? {
      var table := PatternTable(engine, repos).value;
      PatternsFromSound(engine, repos, Keys(repos), Empty());
      var i := FirstMatch(engine, table.order, path);
      if i < |table.order| {
        var p := table.order[i];
        assert Declares(repos, table.entries[p], p) && engine.matchesAtStart(p, path);
      } else {
        forall n, p | Declares(repos, n, p) ensures !engine.matchesAtStart(p, path) {
          assert p in table.entries;
          var j :| 0 <= j < |table.order| && table.order[j] == p;
        }
      }
    }
  }

  // ---------------------------------------------------------------------
  // The object

  /** `_write_section(cfg, header, section)`, `out` being what `cfg` holds. */
  method WriteSection(out: seq<string>, header: string, section: Section) returns (r: Option<seq<string>>)
    requires Valid(section)
    ensures r == OptionLinesFrom(section, Keys(section), out + [header])
  {
    var lines := out + [header];
    var keys := Keys(section);
    var i := 0;
    while i < |keys|
      invariant 0 <= i <= |keys|
      invariant OptionLinesFrom(section, keys, out + [header]) == OptionLinesFrom(section, keys[i..], lines)
    {
      var k := keys[i];
      assert keys[i..][1..] == keys[i + 1..];
      var text: string;
      match section.entries[k] {
        case Scalar(t) =>
          text := t;
        case WordList(ws) =>
          var line := WordsToLine(ws);
          if line.None? {
            return None;
          }
          text := line.value;
      }
      lines := lines + [OptionLine(k, text)];
      i := i + 1;
    }
    return Some(lines);
  }

  /** The two loops of `serialize` that write sections, each through
      `_write_section` with the header `prefix + name`. */
  method WriteSections(out: seq<string>, sections: Dict<Section>, prefix: string) returns (r: Option<seq<string>>)
    requires forall n :: n in Keys(sections) ==> n in sections.entries && Valid(sections.entries[n])
    ensures r == SectionLinesFrom(sections, Keys(sections), prefix, out)
  {
    var lines := out;
    var names := Keys(sections);
    var i := 0;
    while i < |names|
      invariant 0 <= i <= |names|
      invariant SectionLinesFrom(sections, names, prefix, out) == SectionLinesFrom(sections, names[i..], prefix, lines)
    {
      SectionLinesStep(sections, names, i, prefix, lines);
      var next := WriteSection(lines, prefix + names[i], sections.entries[names[i]]);
      if next.None? {
        return None;
      }
      lines := next.value;
      i := i + 1;
    }
    return Some(lines);
  }

  /** The loop of `serialize` that writes `name\t = members` lines. */
  method WriteGroups(out: seq<string>, groups: Dict<Value>) returns (r: Option<seq<string>>)
    requires Valid(groups)
    ensures r == GroupLinesFrom(groups, Keys(groups), out)
  {
    var lines := out;
    var names := Keys(groups);
    var i := 0;
    while i < |names|
      invariant 0 <= i <= |names|
      invariant GroupLinesFrom(groups, names, out) == GroupLinesFrom(groups, names[i..], lines)
    {
      GroupLinesStep(groups, names, i, lines);
      var text: string;
      match groups.entries[names[i]] {
        case Scalar(t) =>
          text := t;
        case WordList(ws) =>
          var line := WordsToLine(ws);
          if line.None? {
            return None;
          }
          text := line.value;
      }
      lines := lines + [GroupLine(names[i], text)];
      i := i + 1;
    }
    return Some(lines);
  }

  /** The loop of `lookup_repo` that fills `repo_patterns`: every section
      with a non-empty `path_regex` adds its compiled pattern, and the first
      pattern that is a word list or does not compile is the error. */
  method BuildPatternTable(engine: Engine, repos: Dict<Section>) returns (r: Result<Dict<string>, LookupError>)
    ensures r == PatternTable(engine, repos)
  {
    var table := Empty();
    var names := Keys(repos);
    var i := 0;
    while i < |names|
      invariant 0 <= i <= |names|
      invariant PatternTable(engine, repos) == PatternsFrom(engine, repos, names[i..], table)
    {
      var name := names[i];
      assert names[i..][1..] == names[i + 1..];
      var declared := if name in repos.entries then Get(repos.entries[name], "path_regex") else None;
      if declared.Some? && declared.value != Scalar([]) && declared.value != WordList([]) {
        if declared.value.WordList? {
          return Err(PatternNotText(name));
        }
        if !engine.compiles(declared.value.text) {
          return Err(BadRegex(declared.value.text, name));
        }
        table := Put(table, declared.value.text, name);
      }
      i := i + 1;
    }
    return Ok(table);
  }

  /** The loop of `lookup_repo` over the pattern table: the section of the
      first pattern, in the table's order, that matches at the start of
      `path`, or nothing. */
  method FindRepo(engine: Engine, table: Dict<string>, path: string) returns (r: Option<string>)
    ensures r == Lookup(engine, table, path)
  {
    var patterns := table.order;
    var j := 0;
    while j < |patterns|
      invariant 0 <= j <= |patterns|
      invariant forall k :: 0 <= k < j ==> !engine.matchesAtStart(patterns[k], path)
    {
      if engine.matchesAtStart(patterns[j], path) {
        FirstMatchAt(engine, patterns, path, j);
        return Get(table, patterns[j]);
      }
      j := j + 1;
    }
    FirstMatchAt(engine, patterns, path, j);
    return None;
  }

  class GitoliteConfig {
    /** The regular-expression engine used for `path_regex`. */
    const engine: Engine
    var global: Dict<Dict<string>>
    var groups: Dict<Value>
    var repos: Dict<Section>
    /** The `repo_patterns` table, once `lookup_repo` has built it. */
    var repoPatterns: Option<Dict<string>>

    function Contents(): Doc
      reads this
    {
      Doc(global, groups, repos)
    }

    /** The pattern table, if built, is the one the current sections give. */
    predicate MemoCurrent()
      reads this
    {
      repoPatterns.Some? ==> PatternTable(engine, repos) == Ok(repoPatterns.value)
    }

    constructor(engine: Engine)
      ensures this.engine == engine
      ensures Contents() == InitialDoc() && repoPatterns == None
      ensures WellFormed(Contents())
    {
      InitialWellFormed();
      this.engine := engine;
      var Doc(g, gs, rs) := InitialDoc();
      global, groups, repos := g, gs, rs;
      repoPatterns := None;
      new;
      assert Contents() == Doc(g, gs, rs);
    }

    /** `get_gitosis(option)` */
    function GetGitosis(option: string): (r: Option<string>)
      reads this
      requires "gitosis" in global.entries
      ensures r.Some? <==> option in global.entries["gitosis"].entries
    {
      Get(global.entries["gitosis"], option)
    }

    /** `set_group_members(g, members)`: the group's list is replaced.
        `ok` is false where the method's assertions fail (the members are
        not a list, or the name does not start with `@`); nothing is then
        changed. */
    method SetGroupMembers(g: string, members: Value) returns (ok: bool)
      modifies this
      ensures ok <==> members.WordList? && StartsWith(g, "@")
      ensures groups == if ok then Put(old(groups), g, members) else old(groups)
      ensures global == old(global) && repos == old(repos) && repoPatterns == old(repoPatterns)
      ensures old(WellFormed(Contents())) ==> WellFormed(Contents())
    {
      if !members.WordList? || !StartsWith(g, "@") {
        return false;
      }
      groups := Put(groups, g, members);
      return true;
    }

    /** `set_repo(r, option, value)`: the option is set in the section, which
        is created when missing. `ok` is false where the assertion fails (an
        access list that is not a list); nothing is then changed. */
    method SetRepo(r: string, option: string, value: Value) returns (ok: bool)
      modifies this
      ensures ok <==> !IsAccessList(option) || value.WordList?
      ensures repos == if ok then PutOption(old(repos), r, option, value) else old(repos)
      ensures global == old(global) && groups == old(groups) && repoPatterns == old(repoPatterns)
      ensures old(WellFormed(Contents())) ==> WellFormed(Contents())
    {
      if WellFormed(Contents()) {
        PutOptionKeepsWellFormed(Contents(), r, option, value);
      }
      if IsAccessList(option) && !value.WordList? {
        return false;
      }
      var section := if r in repos.entries then repos.entries[r] else Empty();
      section := Put(section, option, value);
      repos := Put(repos, r, section);
      return true;
    }

    /** `get_group_members(g)` */
    method GetGroupMembers(g: string) returns (r: Result<Option<seq<string>>, TokenError>)
      modifies this
      ensures r == Members(old(groups), g)
      ensures groups == RememberMembers(old(groups), g)
      ensures global == old(global) && repos == old(repos) && repoPatterns == old(repoPatterns)
      ensures old(WellFormed(Contents())) ==> WellFormed(Contents())
    {
      if WellFormed(Contents()) {
        RememberMembersStores(groups, g);
      }
      if g !in groups.entries {
        return Ok(None);
      }
      var members := groups.entries[g];
      if members.WordList? {
        return Ok(Some(members.words));
      }
      var words := LineToWords(members.text);
      if words.Err? {
        return Err(words.error);
      }
      groups := Put(groups, g, WordList(words.value));
      return Ok(Some(words.value));
    }

    /** `get_repo(r, option)` */
    method GetRepo(r: string, option: string) returns (v: Result<Option<Value>, TokenError>)
      modifies this
      ensures v == RepoOption(old(repos), r, option)
      ensures repos == RememberOption(old(repos), r, option)
      ensures global == old(global) && groups == old(groups) && repoPatterns == old(repoPatterns)
      ensures old(WellFormed(Contents())) ==> WellFormed(Contents())
    {
      if WellFormed(Contents()) {
        RememberOptionKeepsWellFormed(Contents(), r, option);
      }
      if r !in repos.entries {
        return Ok(None);
      }
      var section := repos.entries[r];
      if option !in section.entries {
        return Ok(None);
      }
      var value := section.entries[option];
      if !IsAccessList(option) || value.WordList? {
        return Ok(Some(value));
      }
      var words := LineToWords(value.text);
      if words.Err? {
        return Err(words.error);
      }
      value := WordList(words.value);
      repos := Put(repos, r, Put(section, option, value));
      return Ok(Some(value));
    }

    /** `lookup_repo(path)`: builds the pattern table on the first miss and
        keeps it; a table already built is used as it is. */
    method LookupRepo(path: string) returns (r: Result<Option<string>, LookupError>)
      modifies this
      ensures Contents() == old(Contents())
      ensures path in repos.entries ==> r == Ok(Some(path)) && repoPatterns == old(repoPatterns)
      ensures path !in repos.entries && old(repoPatterns).Some? ==>
        r == Ok(Lookup(engine, old(repoPatterns).value, path)) && repoPatterns == old(repoPatterns)
      ensures path !in repos.entries && old(repoPatterns).None? ==>
        match PatternTable(engine, repos)
        case Err(e) => r == Err(e) && repoPatterns == None
        case Ok(t) => r == Ok(Lookup(engine, t, path)) && repoPatterns == Some(t)
      ensures old(MemoCurrent()) ==> MemoCurrent() && r == ResolveRepo(engine, repos, path)
    {
      if path in repos.entries {
        return Ok(Some(path));
      }
      var table: Dict<string>;
      if repoPatterns.Some? {
        table := repoPatterns.value;
      } else {
        var built := BuildPatternTable(engine, repos);
        if built.Err? {
          return Err(built.error);
        }
        table := built.value;
        repoPatterns := Some(table);
      }
      var found := FindRepo(engine, table, path);
      return Ok(found);
    }

    /** `load(lines)`: on success the document is `Loaded` of the old one;
        on a syntax error it is what the loop had stored before the bad line. */
    method Load(lines: seq<string>) returns (err: Option<LoadError>)
      modifies this
      ensures match Loaded(old(Contents()), lines)
              case Ok(d) => err == None && Contents() == d
              case Err(f) => err == Some(f.error) && Contents() == f.partial
      ensures repoPatterns == old(repoPatterns)
      ensures old(WellFormed(Contents())) ==> WellFormed(Contents())
    {
      ghost var target := Loaded(Contents(), lines);
      if WellFormed(Contents()) {
        LoadKeepsWellFormed(Contents(), lines);
      }
      var sectionOpen: Option<OpenSection> := None;
      var lineCnt := 0;
      while lineCnt < |lines|
        invariant 0 <= lineCnt <= |lines|
        invariant target == Close(LoadLines(Loading(Contents(), sectionOpen), lines[lineCnt..], lineCnt + 1))
        invariant repoPatterns == old(repoPatterns)
      {
        ghost var turn := LoadStripped(Loading(Contents(), sectionOpen), Strip(lines[lineCnt]), lineCnt + 1);
        LoadFrom(Loading(Contents(), sectionOpen), lines, lineCnt);
        var next, e := LoadStep(Strip(lines[lineCnt]), lineCnt + 1, sectionOpen);
        if e.Some? {
          assert turn.Err? && target == Err(turn.error);
          return e;
        }
        assert turn == Ok(Loading(Contents(), next));
        lineCnt := lineCnt + 1;
        sectionOpen := next;
      }
      assert lines[lineCnt..] == [];
      StoreOpen(sectionOpen);
      return None;
    }

    /** The open section is stored, replacing any earlier one of that name. */
    method StoreOpen(open: Option<OpenSection>)
      modifies this
      ensures Contents() == Flush(old(Contents()), open)
      ensures repoPatterns == old(repoPatterns)
    {
      if open.Some? {
        var OpenSection(kind, name, options) := open.value;
        if kind == GlobalKind {
          global := Put(global, name, options);
        } else {
          repos := Put(repos, name, AsScalars(options));
        }
      }
    }

    /** One turn of the loop of `load` on the stripped line `line`, number
        `n`: the section left open, or the syntax error. */
    method LoadStep(line: string, n: nat, open: Option<OpenSection>) returns (next: Option<OpenSection>, err: Option<LoadError>)
      modifies this
      ensures match LoadStripped(Loading(old(Contents()), open), line, n)
              case Ok(st) => err == None && Contents() == st.doc && next == st.open
              case Err(f) => err == Some(f.error) && Contents() == f.partial
      ensures repoPatterns == old(repoPatterns)
    {
      next := open;
      err := None;
      if line == [] || line[0] == '#' {
      } else if line[0] == '@' {
        var parts := SplitAt(line, '=');
        if parts.None? {
          return open, Some(LoadError(BadGroupLine, n));
        }
        groups := Put(groups, Strip(parts.value.0), Scalar(Strip(parts.value.1)));
      } else if IsHeader(line) {
        StoreOpen(open);
        if StartsWith(line, "gitosis") {
          next := Some(OpenSection(GlobalKind, "gitosis", Empty()));
        } else {
          var words := SplitOnce(line);
          if |words| < 2 {
            return None, Some(LoadError(MissingRepoName, n));
          }
          next := Some(OpenSection(RepoKind, Strip(words[1]), Empty()));
        }
      } else if open.Some? {
        var parts := SplitAt(line, '=');
        if parts.None? {
          return open, Some(LoadError(BadOptionLine, n));
        }
        var options := Put(open.value.options, Strip(parts.value.0), Strip(parts.value.1));
        next := Some(open.value.(options := options));
      } else {
        err := Some(LoadError(BadLine, n));
      }
    }

    /** `serialize()`, as the list of lines printed. */
    method Serialize() returns (r: Option<seq<string>>)
      requires WellFormed(Contents())
      ensures r == Serialized(Contents())
    {
      var out := WriteSections([], GlobalSections(global), "");
      if out.None? {
        return None;
      }
      out := WriteGroups(out.value + [""], groups);
      if out.None? {
        return None;
      }
      r := WriteSections(out.value + [""], repos, "repo ");
    }

    /** `groups()` */
    function Groups(): (r: seq<string>)
      reads this
      ensures Valid(groups) ==> forall g :: g in r <==> g in groups.entries
    {
      Keys(groups)
    }

    /** `repos()` */
    function Repos(): (r: seq<string>)
      reads this
      ensures Valid(repos) ==> forall n :: n in r <==> n in repos.entries
    {
      Keys(repos)
    }
  }
}
