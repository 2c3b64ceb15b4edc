# gitosis access gate, modelled in Dafny

This project models the live core of a gitosis fork that reads a
gitolite-style configuration file. gitosis is an SSH gate in front of git
repositories.

- **The configuration document** (`gitosis/gitoliteConfig.py`).
  - The quote-aware word tokenizer `_line_to_words` and its inverse `_words_to_line`.
  - The line loader `load` and the writer `serialize`.
  - The accessors, which tokenize a list on first read and keep the result.
  - `lookup_repo`, with its pattern table built once.
- **Group membership** (`gitosis/group.py`): the recursive, preorder enumeration of the groups a user belongs to, followed by `@all`.
- **The access decision** (`gitosis/access.py`, `haveAccess`).
- **The command gate** (`gitosis/serve.py`, `serve`).
  - The `ALLOW_RE` grammar, the verb lists and one outcome per `ServingError`.
  - The write-then-read decision.
  - The creation of a missing repository on an abstract filesystem.
- **The gitweb side files** (`gitosis/gitweb.py`).
  - File-name escaping.
  - The allow and deny lists that `GitwebProp` fills.
  - The project-list merge of `update` and `refresh`.
  - The three-phase owner rewrite of `OwnerProp.action`.
- **The helpers of `gitosis/util.py`**.
  - `_extract_reldir` and the partition and naming of repositories in `travel`.
  - `RepoProp._get`/`trigger` and the pattern map and section choice of `visit_one`.
  - `mkdir`.

Code that works step by step is modelled as imperative Dafny, and each such method is proved against a function:

- the character loop of `_line_to_words` is `Words.ScanWords`, called by `Words.LineToWords`;
- the in-place escaping of `_words_to_line` is `Words.EscapeAll`, inside `Words.WriteWord`, inside `Words.WordsToLine`;
- the `load` loop is `Config.GitoliteConfig.Load`;
- the memoising accessors are methods of `Config.GitoliteConfig`;
- `GitwebProp` and the module lists are classes;
- `update` removes from the allow list in place (`Gitweb.Update`);
- the three loops of `OwnerProp.action` are `Gitweb.CopyThroughHeader`, `Gitweb.PlaceOwner` and `Gitweb.OwnerAction`;
- `travel` narrows `dirnames` in place (`Util.Walk.Partition`);
- the pattern collection and `visit_one` are `Util.RepositoryDir`;
- the `mkdir` loop of `serve` is `Serve.MakeDirectories`.

Pure code becomes datatypes, functions and lemmas: the group enumeration, `haveAccess`, and the decision part of `serve`.

Python behaviours the code relies on are written out:

- byte-string whitespace, `strip`, `split()`, `split(None, 1)`, `split(sep)`, `replace` and POSIX `os.path.splitext`/`os.path.join`;
- dictionaries, which keep an iteration order. A new key goes last, and an existing key keeps its place. Properties about "the first match" hold for whatever order the dictionary has.

Errors that the source raises are values:

- `Result`/`Option`;
- `Words.TokenError` for the tokenizer;
- `Config.LoadError` with its line number;
- `Config.LookupError` for `lookup_repo`;
- `Serve.ServeError`, one variant per `ServingError` subclass.

Failures that are not `ServingError`s are explicit outcomes of `Serve.Stop`:

- **`AssertionFailed`.** The assertion at `gitosis/serve.py` line 126 can fail: `a.git.git` passes `ALLOW_RE`, `haveAccess` strips one `.git`, and a section named `a.git` grants it. `Serve.AssertionReachable` proves this outcome for a concrete configuration and command.
- **`Diverged`.** Group enumeration records visited groups in a set it never reads. It therefore recurses without end on a cycle of groups, and on any group that lists `@all` (`Group.ScanDiverges`, `Group.AllMemberDiverges`). The model bounds the recursion by `fuel`: a trace that is not `complete` is the output before the bound.
- **`Escaped`.** A list stored as `path_regex`.

## Model

| member | source | states |
|---|---|---|
| Text.LStrip | gitosis/gitoliteConfig.py:12 | the result is a suffix of the input; exactly the leading whitespace is gone |
| Text.RStrip | gitosis/gitoliteConfig.py:12 | the result is a prefix of the input; exactly the trailing whitespace is gone |
| Text.StripEdges | gitosis/gitoliteConfig.py:124 | a stripped line is empty or starts and ends with a non-space character |
| Text.StripUnpadded | gitosis/gitoliteConfig.py:12 | stripping a line without surrounding whitespace leaves it unchanged |
| Text.WordLength | gitosis/gitoliteConfig.py:15 | the first word runs up to the first whitespace character |
| Text.Split | gitosis/gitoliteConfig.py:15 | `split()` yields only non-empty pieces without whitespace |
| Text.SplitBlank | gitosis/gitoliteConfig.py:15 | `split()` finds no piece exactly when the string is all whitespace |
| Words.SplitJoined | gitosis/gitoliteConfig.py:15 | words without whitespace joined by single spaces split back into the same words |
| Text.SplitOnce | gitosis/serve.py:71 | `split(None, 1)` yields at most two pieces, the first non-empty |
| Text.SplitAt | gitosis/gitoliteConfig.py:131 | `split('=', 1)` fails exactly when there is no `=`; otherwise the pieces and the `=` rebuild the line, and the first piece holds no `=` |
| Text.SplitAtFirst | gitosis/gitoliteConfig.py:165 | the two pieces are the text before and after the first `=` |
| Text.JoinSplitPairs | gitosis/gitoliteConfig.py:83-90 | joining the pieces of `w.split('\\\\')` with `\\` gives `w` back |
| Text.SplitPairsPieces | gitosis/gitoliteConfig.py:83 | no piece of `split('\\\\')` holds a doubled backslash, and a piece followed by another does not end with a backslash |
| Dicts.Empty | gitosis/gitoliteConfig.py:115-116 | a new dictionary is valid and has no keys |
| Dicts.Get | gitosis/gitoliteConfig.py:206 | `d.get(k, None)` is the stored value exactly when the key is there |
| Dicts.Put | gitosis/gitoliteConfig.py:139 | after `d[k] = v`, `k` maps to `v` and every other key maps to what it did before; a new key is appended to the iteration order; validity is kept |
| Dicts.Keys | gitosis/gitoliteConfig.py:276-277 | iterating a valid dictionary visits exactly its keys |
| Patterns.FirstMatch | gitosis/gitoliteConfig.py:272-274 | the first pattern, in order, that matches at the start of the path: it matches, and none before it does |
| Patterns.FirstMatchAt | gitosis/util.py:132-137 | a search that stops at the first match stops where `FirstMatch` does |
| Words.LineToWords | gitosis/gitoliteConfig.py:11-74 | returns `Tokenize(line)`: a whitespace split of the stripped line when it has no quote, the character loop's result otherwise |
| Words.ScanWords | gitosis/gitoliteConfig.py:24-74 | the character loop, the two end-of-line errors and the last word give `Resume(Start, l)`, the loop function run from the initial state |
| Words.Tokenize | gitosis/gitoliteConfig.py:11-74 | definition of `_line_to_words` on a line; its meaning is stated by `TokenizeIsLoop`, `QuoteFreeIsSplit`, `TokenizeErrors` and `WordsRoundTrip.RoundTrip`, and `LineToWords` is the loop that computes it |
| Words.TokenizeIsLoop | gitosis/gitoliteConfig.py:14-15 | the quote-free shortcut gives the same result as running the character loop |
| Words.QuoteFreeIsSplit | gitosis/gitoliteConfig.py:14-15 | a line without quotes tokenizes exactly as its whitespace split |
| Words.PlainRunIsSplit | gitosis/gitoliteConfig.py:50-60 | outside quotes, the loop reads words exactly as the whitespace split does |
| Words.MidWordQuoteIsLiteral | gitosis/gitoliteConfig.py:56-60 | a quote opens a quoted word only at a word boundary; inside a word it is an ordinary character |
| Words.EscapeInsideQuote | gitosis/gitoliteConfig.py:34-49 | inside quotes a backslash escapes only `'`, `"` and `\`; any other backslash pair is kept verbatim |
| Words.BackslashOutsideQuote | gitosis/gitoliteConfig.py:50-60 | outside quotes a backslash is an ordinary character |
| Words.RunErrors | gitosis/gitoliteConfig.py:25-33 | the only error raised inside the loop is a non-space character after a closing quote |
| Words.TokenizeErrors | gitosis/gitoliteConfig.py:62-68 | an unclosed-quote error happens exactly when the loop ends inside a quote; an extra-after-quote error happens exactly when the loop raises |
| Words.RunKeepsReachable | gitosis/gitoliteConfig.py:20-61 | the loop keeps its state invariant: an escape is pending only inside an open quote, and a closed word has no open quote |
| Words.TrailingBackslashUnreachable | gitosis/gitoliteConfig.py:66-68 | the trailing-backslash error can never be raised, because a pending escape always sits inside an unclosed quote, which is reported first |
| Words.EscapeSegments | gitosis/gitoliteConfig.py:84-89 | every segment is escaped in place, and the length is kept |
| Words.RenderedWords | gitosis/gitoliteConfig.py:81-94 | every word is rendered in place, and the length is kept |
| Words.Render | gitosis/gitoliteConfig.py:76-95 | definition of `_words_to_line`; its meaning is stated by `RenderedWords`, `WordsRoundTrip.RenderWordFails` and `WordsRoundTrip.RoundTrip`, and `WordsToLine` is the loop that computes it |
| Words.WordsToLine | gitosis/gitoliteConfig.py:76-95 | the loops return `Render(words)`; `None` stands for the failing assertion of line 91 |
| Words.WriteWord | gitosis/gitoliteConfig.py:82-94 | one word as written is `RenderWord`: a word without whitespace is kept, any other is escaped segment by segment and quoted; `None` stands for the failing assertion |
| Words.EscapeAll | gitosis/gitoliteConfig.py:84-89 | after the loop each buffer cell holds its old segment escaped (`EscapeSegments` of the old contents) |
| WordsRoundTrip.RenderWordFails | gitosis/gitoliteConfig.py:91 | rendering fails exactly for a word that holds whitespace and ends with a backslash |
| WordsRoundTrip.EscapeWordIsCharEscape | gitosis/gitoliteConfig.py:83-90 | the split/replace/join escaping of a word equals a character-by-character escape |
| WordsRoundTrip.EscapeSegmentIsCharEscape | gitosis/gitoliteConfig.py:85-88 | the three `replace` calls on a segment without doubled backslashes escape it character by character |
| WordsRoundTrip.CharEscapeJoin | gitosis/gitoliteConfig.py:90 | escaping commutes with joining at doubled backslashes, which become quadrupled |
| WordsRoundTrip.CharEscapeLast | gitosis/gitoliteConfig.py:91 | the escaped word ends with a backslash exactly when the word does |
| WordsRoundTrip.DecodeEscaped | gitosis/gitoliteConfig.py:34-49 | inside quotes, the loop reads an escaped word back as the word itself |
| WordsRoundTrip.ReadQuoted | gitosis/gitoliteConfig.py:42-49 | a quoted, escaped word is read back whole, and the loop ends in the closed-word state |
| WordsRoundTrip.ReadPlain | gitosis/gitoliteConfig.py:50-60 | an unquoted word without whitespace is read character by character into the current word |
| WordsRoundTrip.ReadWord | gitosis/gitoliteConfig.py:81-94 | every writable word renders, and its rendering is read back as that word |
| WordsRoundTrip.ReadGap | gitosis/gitoliteConfig.py:26-28 | the separating space after a word appends the word to the list |
| WordsRoundTrip.ReadLine | gitosis/gitoliteConfig.py:11-74 | the loop reads a written line back as the list of words |
| WordsRoundTrip.WrittenLineUnpadded | gitosis/gitoliteConfig.py:95 | a written line has no surrounding whitespace, so the tokenizer's `strip` leaves it alone |
| WordsRoundTrip.RoundTrip | gitosis/gitoliteConfig.py:76-95 | for words that are non-empty, do not start with a quote unless quoted, and do not end with a backslash when they hold whitespace, writing succeeds and tokenizing the line gives the words back |
| Config.Defaults | gitosis/gitoliteConfig.py:109-114 | the built-in `gitosis` options are `loglevel = INFO` and `decodeID = no` |
| Config.DefaultsOnly | gitosis/gitoliteConfig.py:109-114 | the built-in `gitosis` section sets no option other than `loglevel` and `decodeID` |
| Config.InitialDoc | gitosis/gitoliteConfig.py:108-116 | a new document has the `gitosis` defaults and no groups or repositories, and it is well formed |
| Config.RepoOption | gitosis/gitoliteConfig.py:234-250 | a value of `R` or `RW+` that is read successfully is always a word list |
| Config.RememberMembersKeepsReads | gitosis/gitoliteConfig.py:228-232 | storing the tokenized member list changes what no later `get_group_members` returns, so repeated reads are equal |
| Config.RememberMembersStores | gitosis/gitoliteConfig.py:228-230 | after a successful read, the group holds the word list that was returned, and no key is added |
| Config.RememberOptionKeepsReads | gitosis/gitoliteConfig.py:245-248 | storing a tokenized access list changes no later `get_repo` result |
| Config.PutOptionKeepsOthers | gitosis/gitoliteConfig.py:234-250 | storing a value for one option of one section leaves every `get_repo` of any other option or section as it was |
| Config.RememberOptionKeepsWellFormed | gitosis/gitoliteConfig.py:245-248 | storing a tokenized access list keeps the document well formed |
| Config.RememberOptionKeepsKeys | gitosis/gitoliteConfig.py:245-248 | storing a tokenized access list adds no section and no option |
| Config.AsScalars | gitosis/gitoliteConfig.py:172-180 | a loaded repository section stores every option as raw text, in the same order |
| Config.Loaded | gitosis/gitoliteConfig.py:118-181 | definition of `load`; its meaning is stated by `LoadFrom`, `GroupLineDefines`, `OptionLineStored`, `IgnorableLinesChangeNothing`, `LoadErrorNamesLine` and `LoadKeepsWellFormed`, and `GitoliteConfig.Load` is the loop that computes it |
| Config.LoadFrom | gitosis/gitoliteConfig.py:123-176 | one turn of the loop: the result from line `k` is the step on line `k`, then the rest |
| Config.GroupLineDefines | gitosis/gitoliteConfig.py:129-139 | an `@` line defines a group even inside a section: the trimmed text before the first `=` names it, and the trimmed rest is stored raw, replacing an earlier definition; without `=` it is an error on that line |
| Config.OptionLineStored | gitosis/gitoliteConfig.py:163-176 | any other line is an option `key = value` of the open section, split at the first `=` and trimmed; without an open section, or without `=`, it is an error on that line |
| Config.IgnorableLinesChangeNothing | gitosis/gitoliteConfig.py:127-128 | blank and `#` lines leave the loading state unchanged |
| Config.LoadLineError | gitosis/gitoliteConfig.py:124-176 | an error on a line carries that line's number, and the line is neither blank nor a comment |
| Config.LoadErrorNamesLine | gitosis/gitoliteConfig.py:121-176 | a load error names a line of the input that is neither blank nor a comment |
| Config.OptionsFromKeys | gitosis/gitoliteConfig.py:163-172 | after a run of option lines, the section's keys are the earlier keys plus the keys of those lines |
| Config.OptionLinesFill | gitosis/gitoliteConfig.py:163-172 | a run of option lines only fills the open section |
| Config.GitosisHeaderReplacesSection | gitosis/gitoliteConfig.py:140-181 | a `gitosis` header followed by options replaces the whole `gitosis` section: `loglevel` survives only if the file sets it |
| Config.FlushKeepsWellFormed | gitosis/gitoliteConfig.py:178-181 | storing the open section keeps the document well formed |
| Config.LoadStrippedKeepsSound | gitosis/gitoliteConfig.py:127-176 | each turn of the loop keeps the document and the open section well formed, also in the partial document of an error |
| Config.LoadLinesKeepSound | gitosis/gitoliteConfig.py:123-176 | the whole loop keeps the document and the open section well formed |
| Config.LoadKeepsWellFormed | gitosis/gitoliteConfig.py:118-181 | loading into a well-formed document leaves it well formed, whether it succeeds or fails |
| Config.Serialized | gitosis/gitoliteConfig.py:183-202 | definition of `serialize`; its meaning is stated by `GlobalSections`, `SectionLinesStep`, `GroupLinesStep` and the loader round trips `WrittenOptionRead`, `WrittenGroupRead` and `WrittenHeaderRead` |
| Config.GlobalSections | gitosis/gitoliteConfig.py:186-188 | the global sections are written in their order, with every option as text |
| Config.SectionLinesStep | gitosis/gitoliteConfig.py:97-105 | writing sections is writing the header of the next section, then its options, then the rest |
| Config.GroupLinesStep | gitosis/gitoliteConfig.py:191-195 | writing groups is writing the next group's line, then the rest; a list that cannot be written stops the output |
| Config.PatternsFromSound | gitosis/gitoliteConfig.py:256-270 | every pattern in the table compiles and comes from the `path_regex` of the section it leads to, and a successful build holds the pattern of every section |
| Config.ResolveRepo | gitosis/gitoliteConfig.py:252-274 | definition of `lookup_repo` with a fresh table; its meaning is stated by `ResolveRepoMeaning`, and `GitoliteConfig.LookupRepo` gives it while `MemoCurrent` |
| Config.ResolveRepoMeaning | gitosis/gitoliteConfig.py:252-274 | a section name resolves to itself; otherwise a found section has a `path_regex` that matches at the start of the path, and when none is found no pattern matches |
| Config.WriteSection | gitosis/gitoliteConfig.py:97-105 | `_write_section` writes the header, then one `\tkey\t = value` line per option, with lists rendered |
| Config.WriteSections | gitosis/gitoliteConfig.py:198-200 | the sections are written in order, each through `_write_section` |
| Config.WriteGroups | gitosis/gitoliteConfig.py:191-195 | the groups are written in order, one `name\t = members` line each |
| Config.InitialWellFormed | gitosis/gitoliteConfig.py:108-116 | the initial document is well formed: every dictionary is valid and the `gitosis` section is there |
| Config.GitoliteConfig.constructor | gitosis/gitoliteConfig.py:108-116 | a new configuration is the initial document with no pattern table, and it is well formed |
| Config.GitoliteConfig.GetGitosis | gitosis/gitoliteConfig.py:204-206 | a global option is returned exactly when the `gitosis` section has it |
| Config.GitoliteConfig.SetGroupMembers | gitosis/gitoliteConfig.py:208-211 | a list for a name that starts with `@` replaces the group's value; a value that is not a list, or a name without `@`, is the assertion failure: `false`, with nothing changed; the other dictionaries never change; a well-formed document stays well formed |
| Config.SetMembersRead | gitosis/gitoliteConfig.py:208-232 | a list stored by `set_group_members` is what `get_group_members` returns |
| Config.GitoliteConfig.SetRepo | gitosis/gitoliteConfig.py:213-220 | the option is set in the section, which is created if missing; a value that is not a list for `R` or `RW+` is the assertion failure: `false`, with nothing changed; the other dictionaries never change; a well-formed document stays well formed |
| Config.SetRepoRead | gitosis/gitoliteConfig.py:213-248 | a value stored by `set_repo` (a list, for `R` or `RW+`) is what `get_repo` returns for that section and option |
| Config.PutOptionKeepsWellFormed | gitosis/gitoliteConfig.py:213-220 | `set_repo` keeps every dictionary of the document valid and the `gitosis` section in place |
| Config.SetRepoKeepsOthers | gitosis/gitoliteConfig.py:213-248 | after `set_repo`, every other option of every section reads as before |
| Config.GitoliteConfig.GetGroupMembers | gitosis/gitoliteConfig.py:222-232 | returns the group's words, or `None` for an unknown group, or the tokenizer error; stores the tokenized list; a well-formed document stays well formed |
| Config.GitoliteConfig.GetRepo | gitosis/gitoliteConfig.py:234-250 | returns the option, or `None` for a missing section or option; an `R`/`RW+` list is tokenized and stored back; a well-formed document stays well formed |
| Config.BuildPatternTable | gitosis/gitoliteConfig.py:259-270 | the table-filling loop returns `PatternTable`: the first word-list or non-compiling `path_regex` is the error, otherwise every declared pattern leads to its section |
| Config.FindRepo | gitosis/gitoliteConfig.py:272-274 | the scan returns the section of the first pattern, in the table's order, that matches at the start of the path, and nothing when none does (`Lookup`) |
| Config.GitoliteConfig.LookupRepo | gitosis/gitoliteConfig.py:252-274 | returns the path itself when it is a section; otherwise the table is built once and then kept, a bad pattern is an error, and the section of the first matching pattern is returned; a current table gives `ResolveRepo` |
| Config.GitoliteConfig.Load | gitosis/gitoliteConfig.py:118-181 | the loop leaves the document `Loaded` describes, or the partial document and the error; a well-formed document stays well formed in both cases |
| Config.GitoliteConfig.LoadStep | gitosis/gitoliteConfig.py:124-176 | one line: a group, a header that stores the open section, an option, or an error |
| Config.GitoliteConfig.StoreOpen | gitosis/gitoliteConfig.py:178-181 | the section still open at the end is stored |
| Config.GitoliteConfig.Serialize | gitosis/gitoliteConfig.py:183-202 | the global sections, a blank line, the groups, a blank line, then the `repo` sections |
| Config.WrittenOptionRead | gitosis/gitoliteConfig.py:97-106 | an option line as `_write_section` writes it is read back by `load` into the open section as the same key and value (for a trimmed key without `=` that is no comment, no group and does not start with a header word, and a trimmed value) |
| Config.WrittenGroupRead | gitosis/gitoliteConfig.py:191-195 | a group line as `serialize` writes it is read back by `load` as the same group with the same text (for a trimmed name without `=` and a trimmed value) |
| Config.WrittenHeaderRead | gitosis/gitoliteConfig.py:198-200 | a `repo <name>` header as written is read back by `load` as storing the open section and opening an empty one of that name |
| Config.GitoliteConfig.Groups | gitosis/gitoliteConfig.py:276-277 | lists exactly the defined groups |
| Config.GitoliteConfig.Repos | gitosis/gitoliteConfig.py:279-280 | lists exactly the repository sections |
| Group.Membership | gitosis/group.py:33-47 | when the enumeration finishes, `@all` comes last |
| Group.Scan | gitosis/group.py:4-30 | definition of `_getMembership`, bounded by `fuel`; its meaning is stated by `ScanSound`, `ScanFinds`, `ScanGrows`, `ScanTerminates`, `ScanDiverges` and `AllMemberDiverges` |
| Group.ScanSound | gitosis/group.py:4-30 | every yielded group is defined, and it lists the user or `@all`, or lists a group yielded before it |
| Group.ScanFinds | gitosis/group.py:7-25 | a finished scan yields every group that lists the user or `@all`; a group whose members cannot be read is skipped |
| Group.JustifiedConcat | gitosis/group.py:24-30 | preorder: a group, then what its recursion yields, then the rest of the scan, stays justified |
| Group.ScanGrows | gitosis/group.py:4-30 | more depth only extends the output, and a finished scan is unchanged by more depth |
| Group.ScanTerminates | gitosis/group.py:4-30 | when listing strictly decreases a rank, the recursion finishes within that rank |
| Group.MembershipTerminates | gitosis/group.py:33-47 | on an acyclic group graph without `@all` members, the enumeration finishes and ends with `@all` |
| Group.ScanDiverges | gitosis/group.py:16-30 | a set of groups each listed by one of the set makes the scan recurse without end, because `seen` is never consulted |
| Group.AllMemberDiverges | gitosis/group.py:18-30 | any group that lists `@all` makes `getMembership` recurse without end |
| Access.ModeName | gitosis/access.py:49 | the mode names are the two access-list options |
| Access.RFind | gitosis/access.py:27 | the last position of a character, or -1 |
| Access.SplitExt | gitosis/access.py:27 | `os.path.splitext` cuts the path into two parts that rebuild it |
| Access.GitExtSuffixed | gitosis/access.py:27-28 | a `.git` extension is found only on a path whose last component has a non-dot character before `.git` |
| Access.StripGitExt | gitosis/access.py:27-35 | definition of the `.git` stripping; its meaning is stated by `StripGitExtMeaning` and `StripsOnlyOnce` |
| Access.StripGitExtMeaning | gitosis/access.py:27-35 | exactly one `.git` is stripped from a path that has it as its extension; no other path changes |
| Access.StripsOnlyOnce | gitosis/access.py:27-35 | `a.git.git` becomes `a.git` |
| Access.FirstIn | gitosis/access.py:58-62 | the first of the user's groups that is in the list: it is in the list, and no earlier group is |
| Access.HaveAccess | gitosis/access.py:37-89 | definition of `haveAccess`; its meaning is stated by `GrantMeaning`, `DirectGrant`, `NoSectionDenied`, `EmptyListDenied`, `GroupGrant`, `UnlistedDenied`, `AccessStable` and `RankedDecides` |
| Access.GrantMeaning | gitosis/access.py:37-89 | a grant is the `repositories` prefix (default `repositories`) and the stripped path, never the section name; it needs a non-empty list for the mode that holds the user or one of the user's groups |
| Access.DirectGrant | gitosis/access.py:54-56 | a user named in the list is granted without consulting groups, at any depth |
| Access.NoSectionDenied | gitosis/access.py:37-45 | no section for the path, or a swallowed bad-regex error, is a denial |
| Access.EmptyListDenied | gitosis/access.py:47-54 | a found section whose list for the mode is missing, empty or fails to tokenize denies everyone, groups included |
| Access.GroupGrant | gitosis/access.py:54-62 | a user one of whose enumerated groups is in the list is granted, whether or not the user is named there |
| Access.UnlistedDenied | gitosis/access.py:54-64 | a user not in a non-empty list, none of whose groups (all enumerated) is in it, is denied |
| Access.MembershipGrows | gitosis/group.py:33-47 | with more depth, group membership only extends |
| Access.AccessStable | gitosis/access.py:54-62 | a decision reached at some depth is the decision at every greater depth |
| Access.ByGroupStable | gitosis/access.py:58-62 | once the group step has decided a list (granted or denied), a deeper group scan gives the same decision |
| Access.RankedDecides | gitosis/access.py:58-62 | on an acyclic group graph without `@all` members, the decision is always reached |
| Files.PathJoin | gitosis/serve.py:129 | `os.path.join(a, b)`: an absolute `b` wins; otherwise the result starts with `a` and ends with `b` |
| Files.FileSystem.constructor | gitosis/serve.py:130 | a filesystem with the given existing paths and nothing done yet |
| Files.FileSystem.Mkdir | gitosis/util.py:7-14 | an existing directory is success and changes nothing; a refused one fails; otherwise the directory is made and recorded |
| Files.FileSystem.InitRepository | gitosis/serve.py:145 | the repository directory comes into being |
| Files.FileSystem.Record | gitosis/serve.py:146-156 | a step is recorded and no path changes |
| Serve.DropSlashes | gitosis/serve.py:20 | `/*` drops exactly the leading slashes |
| Serve.AllowedPath | gitosis/serve.py:90-94 | definition of the `ALLOW_RE` match; its meaning is stated by `AllowedPathSafe` and `AllowedQuoted` |
| Serve.AllowedPathSafe | gitosis/serve.py:90-94 | an accepted path is non-empty, has no leading `/`, no quote and no empty, `.` or `..` segment |
| Serve.AllowedQuoted | gitosis/serve.py:20 | a single-quoted argument is accepted exactly when its inside, leading slashes dropped, is a path of the grammar, and that is the path given back |
| Serve.RepoPathChars | gitosis/serve.py:20 | a path of the grammar holds only name characters and slashes |
| Serve.RepoPathHead | gitosis/serve.py:20 | a path of the grammar is non-empty and does not start with `/` |
| Serve.RepoPathQuotes | gitosis/serve.py:20 | a path of the grammar holds no quote |
| Serve.RepoPathSegments | gitosis/serve.py:20 | no segment of such a path is empty, `.` or `..` |
| Serve.ParseCommand | gitosis/serve.py:70-84 | definition of the verb and argument split; its meaning is stated by `Words.SplitOnceWord`, `RequestMeaning` and `RequestOk` |
| Serve.NewlineFirst | gitosis/serve.py:67-68 | a command with a newline is refused before any other check |
| Serve.EffectiveUser | gitosis/serve.py:96-104 | definition of the `decodeID` step; its meaning is stated by `EmptyDecodeRefused` and `DecideMeaning` |
| Serve.EmptyDecodeRefused | gitosis/serve.py:95-104 | with `decodeID` set to a true value, a user that decodes to nothing is refused with `BadEncodedID` before any access is looked up |
| Serve.Request | gitosis/serve.py:67-94 | definition of the request checks; its meaning is stated by `NewlineFirst`, `RequestMeaning` and `RequestOk` |
| Serve.RequestMeaning | gitosis/serve.py:67-94 | an accepted request has no newline, a listed verb (with `git <sub>` rebuilt with one space), and an argument matching `ALLOW_RE` whose path is returned |
| Serve.RequestOk | gitosis/serve.py:70-94 | conversely, a command without a newline whose parsed verb is listed and whose argument matches is accepted with that path |
| Words.SplitOnceWord | gitosis/serve.py:71 | `verb + " " + arg` splits into the verb and the argument |
| Serve.Authorize | gitosis/serve.py:106-123 | definition of the write-then-read decision; its meaning is stated by `AuthorizeMeaning` and `WriteDeniedIsFinal` |
| Serve.AuthorizeMeaning | gitosis/serve.py:106-123 | authorization is the write grant, or for a read verb only, the read grant |
| Serve.WriteDeniedIsFinal | gitosis/serve.py:112-114 | a write verb denied `RW+` is refused with `WriteAccessDenied`, without trying `R` |
| Serve.Decide | gitosis/serve.py:62-127 | definition of the decision part of `serve`; its meaning is stated by `DecideMeaning`, `NewlineFirst`, `EmptyDecodeRefused`, `WriteDeniedIsFinal` and `AssertionReachable` |
| Serve.DecideMeaning | gitosis/serve.py:62-127 | a successful decision has a valid request, a decodable user, a grant for that user, and a repository name without a `.git` ending |
| Serve.AssertionReachable | gitosis/serve.py:125-127 | the command `git-receive-pack 'a.git.git'` by `alice`, with a section `a.git` that lists her for `RW+`, fails the assertion |
| Serve.DoubledRequest | gitosis/serve.py:67-94 | that command passes every check of the request |
| Serve.DoubledGrant | gitosis/access.py:27-89 | that path is granted as `a.git` |
| Serve.MakeDirs | gitosis/serve.py:136-143 | definition of the `mkdir` loop; its meaning is stated by `MakeDirsStep` and `MakeDirsMeaning`, and `MakeDirectories` is the loop that computes it |
| Serve.MakeDirsStep | gitosis/serve.py:141-143 | one round of the `mkdir` loop: skip an existing directory, stop at a refused one, or make one and go on |
| Serve.MakeDirsMeaning | gitosis/serve.py:136-143 | the loop only adds paths, each a leading directory of the repository, and records each one made; a failure names a refused, missing leading directory; success leaves every leading directory in place |
| Serve.Serving | gitosis/serve.py:128-163 | definition of repository creation and the new command; its meaning is stated by `ServingMeaning` and `NewCommandShape`, and `Create` is the method that computes it |
| Serve.ServingMeaning | gitosis/serve.py:128-163 | nothing is created unless access was granted, the repository is missing and no leading component ends in `.git`; a command is returned only on a grant, and then the repository exists |
| Serve.NewCommandShape | gitosis/serve.py:159-163 | the rewritten command is `<verb> '<repobase>/<reponame>.git'` |
| Serve.AnyGitComponent | gitosis/serve.py:138-140 | the check loop finds a leading component ending in `.git` exactly when there is one |
| Serve.MakeDirectories | gitosis/serve.py:141-143 | the loop leaves the paths and records of `MakeDirs` |
| Serve.Create | gitosis/serve.py:128-156 | repository creation leaves the outcome, paths and records of `Serving` |
| Serve.ServeCommand | gitosis/serve.py:62-163 | the whole gate: the outcome, paths and records of `Serving` applied to `Decide` |
| Util.GetBoolean | gitosis/gitweb.py:156-158 | `getboolean` reports a missing option as `None` and nothing else as `None` |
| Util.ExtractReldir | gitosis/util.py:40-46 | `.` for the top directory itself; otherwise defined exactly for paths under `topdir + '/'`, and `topdir + '/' + r` rebuilds the path |
| Util.ReldirRoundTrip | gitosis/util.py:40-46 | the relative directory of `topdir + '/' + r` is `r` |
| Util.PartitionIsPermutation | gitosis/util.py:108-115 | the repositories and the directories kept for descent together are the directories; the repositories are exactly those ending in `.git` |
| Util.PartitionStep | gitosis/util.py:110-114 | each directory goes to exactly one list, in order |
| Util.Walk.constructor | gitosis/util.py:89-107 | a walk step with its list of directories |
| Util.Walk.Partition | gitosis/util.py:108-115 | returns the repositories and narrows `dirnames` in place to the others, in their order |
| Util.RepoName | gitosis/util.py:117-121 | definition of the naming in `travel`; its meaning is stated by `RepoNameMeaning` and `DotGitDirectoryFails` |
| Util.RepoNameMeaning | gitosis/util.py:117-121 | a repository's name is its stem without `.git`, under its directory unless that is `.` |
| Util.DotGitDirectoryFails | gitosis/util.py:117-121 | a directory named `.git` ends in `.git` but has no `.git` extension, so the assertion fails |
| Util.RepoNames | gitosis/util.py:117-123 | no more names than repositories |
| Util.RepoNamesComplete | gitosis/util.py:117-123 | when no assertion fails, every repository is named, in order |
| Util.Trigger | gitosis/util.py:54-64 | the action is called exactly when the option has a value, and with that value |
| Util.Triggered | gitosis/util.py:139-140 | definition of the trigger loop of `visit_one`; its meaning is stated by `TriggeredMeaning`, `TriggeredCount` and `TriggeredAppend`, and `RepositoryDir.TriggerAll` is the loop that computes it |
| Util.TriggeredMeaning | gitosis/util.py:139-140 | every call comes from a property with a value in the section, with that value; every property with a value makes its call |
| Util.TriggeredCount | gitosis/util.py:139-140 | there is exactly one call per property with a value in the section, so no property is triggered twice |
| Util.TriggeredAppend | gitosis/util.py:139-140 | triggering properties one list after another is triggering the joined list |
| Util.CollectFromMeaning | gitosis/util.py:74-87 | the map holds exactly the compiling `path` patterns of `repo …` sections; a failure names such a section whose pattern does not compile |
| Util.CollectPatterns | gitosis/util.py:74-87 | definition of `__collect_pattern`; its meaning is stated by `CollectFromMeaning` and `CollectPatternsMeaning` |
| Util.CollectPatternsMeaning | gitosis/util.py:74-87 | the same for all the sections of the configuration |
| Util.SectionFor | gitosis/util.py:132-137 | definition of the section choice of `visit_one`; its meaning is stated by `SectionForMeaning`, and `RepositoryDir.FindSection` is the loop that computes it |
| Util.SectionForMeaning | gitosis/util.py:132-137 | the section of the first pattern that matches at the start of the name, else `repo <name>` |
| Util.RepositoryDir.constructor | gitosis/util.py:69-72 | a directory walker with no pattern map yet |
| Util.RepositoryDir.Collect | gitosis/util.py:74-87 | the pattern map is built once and then kept |
| Util.RepositoryDir.FindSection | gitosis/util.py:132-137 | the loop with `for … else` gives `SectionFor` |
| Util.RepositoryDir.TriggerAll | gitosis/util.py:139-140 | the properties are triggered once each, in order |
| Util.RepositoryDir.VisitOne | gitosis/util.py:125-140 | the section chosen and the calls made for one repository |
| Gitweb.EscapeChar | gitosis/gitweb.py:37-41 | each character's escape ends with that character |
| Gitweb.ReplaceCharAppend | gitosis/gitweb.py:38-40 | `replace` of one character distributes over concatenation |
| Gitweb.EscapeFilename | gitosis/gitweb.py:37-41 | definition of `_escape_filename`; its meaning is stated by `EscapeFilenameEscapes`, `UnescapeEscaped` and `EscapeInjective` |
| Gitweb.EscapeFilenameEscapes | gitosis/gitweb.py:37-41 | the three chained `replace` calls escape each character on its own: `\`, `$` and `"` get a backslash in front |
| Gitweb.UnescapeEscaped | gitosis/gitweb.py:37-41 | undoing `\c` to `c` recovers the input |
| Gitweb.EscapeInjective | gitosis/gitweb.py:37-41 | distinct names have distinct escapes |
| Gitweb.RepoLists.constructor | gitosis/gitweb.py:43-44 | both module lists start empty |
| Gitweb.GlobalDefault | gitosis/gitweb.py:143-148 | the global default is false when `gitosis` has no `gitweb` option |
| Gitweb.Resolved | gitosis/gitweb.py:155-159 | without a section value, the default applies |
| Gitweb.ResolvedMeaning | gitosis/gitweb.py:155-159 | a section value wins whatever the default is |
| Gitweb.GitwebProp.constructor | gitosis/gitweb.py:137-140 | constructing the property resets both module lists |
| Gitweb.GitwebProp.Get | gitosis/gitweb.py:142-159 | the global default is computed on the first call only and then kept; the section's value wins over it |
| Gitweb.GitwebProp.Action | gitosis/gitweb.py:161-168 | `<reponame>.git` is appended to the allow list when enabled, else to the deny list; the other list is unchanged |
| Gitweb.GitwebProp.Trigger | gitosis/gitweb.py:142-168 | the repository lands on exactly one list according to the resolved value; an unreadable boolean changes neither |
| Gitweb.RemoveFirstMeaning | gitosis/gitweb.py:116-117 | `list.remove` takes out exactly one occurrence, and a missing entry leaves the list unchanged |
| Gitweb.MergeFrom | gitosis/gitweb.py:111-118 | definition of the merge loop of `update`; its meaning is stated by `MergeStep`, `MergeWritten` and `MergeAllow`, and `Update` is the method that computes it |
| Gitweb.MergeStep | gitosis/gitweb.py:112-117 | one line: a kept line is written and removed from the allow list; a dropped line changes nothing |
| Gitweb.MergeWritten | gitosis/gitweb.py:111-118 | exactly the non-blank, non-denied lines are written verbatim, in order |
| Gitweb.MergeAllow | gitosis/gitweb.py:111-117 | the allow list only loses entries, and only the entries of kept lines |
| Gitweb.RefreshedLines | gitosis/gitweb.py:86-88 | the refreshed file has one line per allowed repository, in order |
| Gitweb.Update | gitosis/gitweb.py:100-131 | writes the merged text, leaves the allow list with the entries not yet listed, and keeps the deny list |
| Gitweb.Refresh | gitosis/gitweb.py:80-98 | writes the `\n`-join of the allow list, whatever the file held |
| Gitweb.HeaderFrom | gitosis/gitweb.py:206-209 | the first `[gitweb]` line at or after a position, or the end |
| Gitweb.StopFrom | gitosis/gitweb.py:213-220 | the first section header or `owner=` line at or after a position, or the end |
| Gitweb.OwnerLineShape | gitosis/gitweb.py:197-198 | the written owner line matches the owner regex, and neither the section regex nor `[gitweb]` |
| Gitweb.OwnerRewrite | gitosis/gitweb.py:190-225 | definition of the owner rewrite; its meaning is stated by `OwnerRewriteShape`, `OwnerRewriteIdempotent`, `OwnerFileIdempotent` and `RewriteKeeps`, and `OwnerAction` is the method that computes it |
| Gitweb.OwnerRewriteShape | gitosis/gitweb.py:190-225 | the lines up to and including the first `[gitweb]` are copied, a `[gitweb]` line is added if there is none, and the owner line follows it |
| Gitweb.OwnerRewriteIdempotent | gitosis/gitweb.py:190-225 | setting the same owner twice gives the same line list as setting it once |
| Gitweb.FileLinesConcat | gitosis/gitweb.py:206 | whole lines written out are read back by `for l in gitcfg` as the same lines |
| Gitweb.OwnerRewriteWhole | gitosis/gitweb.py:190-225 | with an owner without a newline, the rewrite of whole lines gives whole lines |
| Gitweb.OwnerFileIdempotent | gitosis/gitweb.py:190-228 | for a file whose text ends in a newline and an owner without one, rewriting the written file again leaves its text unchanged |
| Gitweb.UnterminatedHeaderGlued | gitosis/gitweb.py:206-215 | a last line `[gitweb]` without a newline is followed directly by the owner line, so the written text joins the two |
| Gitweb.RewriteKeeps | gitosis/gitweb.py:206-225 | a file whose first `[gitweb]` is followed by that owner line is left unchanged |
| Gitweb.CopyThroughHeader | gitosis/gitweb.py:206-211 | the first loop with its `else` gives `CopiedHeader` |
| Gitweb.PlaceOwner | gitosis/gitweb.py:213-222 | the second loop gives `PlacedOwner`: the owner line goes before the next header (kept), in place of the first `owner=` line (dropped), or at the end; other lines between are not copied |
| Gitweb.OwnerAction | gitosis/gitweb.py:190-228 | the three loops give `OwnerRewrite` |

## Left out

- Logging, `serve.Main` (environment, `chdir`, `umask`, `execvp`, exit codes), and the `run_hook.py` and `gitdaemon.py` modules are not part of this model.
- `util.parse_bool` and `util.decode_id` are not shown in the source. They are function parameters of `Serve.Decide`.
- The regular-expression engine for operator-supplied patterns (`path_regex`, `path`) is abstract: whether a pattern compiles, and whether it matches at the start of a string (`Patterns.Engine`).
- Python 2 dictionary order is unspecified. Dictionaries keep insertion order, and "first match" properties are stated for whatever order a dictionary has.
- Interpreter limits are not modelled: `re`'s compiled-pattern cache, and Python's recursion limit, which ends the endless group recursion with an exception.
- `Config.GitoliteConfig.LookupRepo`: the pattern table, once built, is not rebuilt after `set_repo`, just as in the source. Its last ensures holds only while the table is current (`MemoCurrent`).
- `Access.HaveAccess` decides on a pure document. It does not write back the lists that `get_repo` and `get_group_members` tokenize and store. Those writes are modelled, and proved not to change any later read, in `Config.GitoliteConfig.GetRepo`/`GetGroupMembers` and `Config.RememberOptionKeepsReads`/`RememberMembersKeepsReads`.
- Group recursion is bounded by `fuel`. A trace that is not `complete`, and the `Undecided` and `Diverged` outcomes, stand for the endless recursion of the source.
- `Files.FileSystem` is a set of existing paths plus a set of paths `mkdir` refuses. Permissions and the `0750` mode are left out. `repository.init` is `InitRepository`, and the `visit_one` and `ProjectList.update` calls after it are recorded as events. Their own logic is modelled in `Util` and `Gitweb`.
- Locking (`ProjectList.lock`/`unlock`), temp-file-then-rename, and reading and writing actual files are left out. File contents are line sequences.
- `DescriptionProp` and `DaemonProp` are not part of this model. Their `trigger` goes through `Util.Trigger`.
- `RepositoryDir` and the props call the `RawConfigParser` interface, which `GitoliteConfig` does not define. That configuration is an abstract lookup (`Util.RawConfig`). `getboolean`'s accepted words are `1/yes/true/on` and `0/no/false/off`, case-insensitive.
- `os.walk` itself is not modelled, and neither is its `onerror` handler. One walk step is modelled: the partition of `dirnames` and the naming of the repositories found.
- `Text.SplitOnce`, `Text.SplitChar` and `Text.SplitPairs` state only the shape facts the model needs. The exact pieces are their definitions.
- `Text.Split` states the shape of its pieces. What the pieces are is stated by `Text.SplitBlank` and by the round trip `Words.SplitJoined`, not as a single ensures.
- `Gitweb.OwnerRewriteIdempotent` is stated on line lists. On the file text it holds when the text ends in a newline and the owner has none (`Gitweb.OwnerFileIdempotent`). A last `[gitweb]` line without a newline gets the owner line glued to it (`Gitweb.UnterminatedHeaderGlued`), and the next run finds no `[gitweb]` line and appends a second section. An owner holding a newline is likewise read back as two lines.
- `Config.WrittenOptionRead`, `Config.WrittenGroupRead` and `Config.WrittenHeaderRead` state the round trip of `serialize` and `load` one line at a time, not for a whole document. Keys and names with `=`, with surrounding whitespace, or starting with `#` are not covered. `Config.WrittenOptionRead` also excludes keys starting with `gitosis` or `repo`: an option named `repo` or `gitosis` is written as a line that `load` reads as a header. A word list is written as `_words_to_line` text and comes back as that text, which `WordsRoundTrip.RoundTrip` tokenizes to the same words.
- `Util.TriggeredMeaning` states where the calls come from and that each property with a value makes its call (`Util.TriggeredCount`: exactly one), not their order. The order is stated exactly by `Util.RepositoryDir.TriggerAll` against `Util.Triggered`.
