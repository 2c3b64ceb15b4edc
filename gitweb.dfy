/**
 * The gitweb side files (`gitosis/gitweb.py`): the escaping of file names,
 * the two module lists of repositories to show and to hide that
 * `GitwebProp` fills, the project list written from them, and the rewrite
 * of a repository's git config that records its owner.
 *
 * File contents are sequences of lines, each line carrying its own `\n`
 * (the last one possibly without).
 */
module Gitweb {
  import opened Outcomes
  import opened Text
  import opened Util

  // ---------------------------------------------------------------------
  // _escape_filename

  /** `_escape_filename`: backslashes are doubled first, then `$` and `"`
      get a backslash in front. */
  function EscapeFilename(s: string): string {
    ReplaceChar(ReplaceChar(ReplaceChar(s, '\\', "\\\\"), '$', "\\$"), '"', "\\\"")
  }

  predicate IsEscaped(c: char) {
    c == '\\' || c == '$' || c == '"'
  }

  /** The escape of one character. */
  function EscapeChar(c: char): (r: string)
    ensures |r| >= 1 && r[|r| - 1] == c
  {
    if IsEscaped(c) then ['\\', c] else [c]
  }

  /** Character by character escaping. */
  function Escaped(s: string): string {
    if s == [] then [] else EscapeChar(s[0]) + Escaped(s[1..])
  }

  /** Undoing the escape: a backslash stands for the character after it. */
  function Unescape(t: string): string {
    if |t| >= 2 && t[0] == '\\' then [t[1]] + Unescape(t[2..])
    else if t == [] then []
    else [t[0]] + Unescape(t[1..])
  }

  lemma {:induction false} ReplaceCharAppend(a: string, b: string, c: char, rep: string)
    ensures ReplaceChar(a + b, c, rep) == ReplaceChar(a, c, rep) + ReplaceChar(b, c, rep)
  {
    if a == [] {
      assert a + b == b;
    } else {
      var h := if a[0] == c then rep else [a[0]];
      var t := a[1..];
      var ab := a + b;
      assert ab[0] == a[0] && ab[1..] == t + b;
      ReplaceCharAppend(t, b, c, rep);
      assert ReplaceChar(ab, c, rep) == h + (ReplaceChar(t, c, rep) + ReplaceChar(b, c, rep));
      assert ReplaceChar(a, c, rep) == h + ReplaceChar(t, c, rep);
    }
  }

  /** Replacing a character that does not occur changes nothing. */
  lemma {:induction false} ReplaceCharAbsent(s: string, c: char, rep: string)
    requires c !in s
    ensures ReplaceChar(s, c, rep) == s
  {
    if s != [] {
      ReplaceCharAbsent(s[1..], c, rep);
      assert s == [s[0]] + s[1..];
    }
  }

  lemma ReplaceCharOne(x: char, c: char, rep: string)
    ensures ReplaceChar([x], c, rep) == if x == c then rep else [x]
  {
    assert [x][1..] == [];
  }

  /** The three replacements escape one character at a time. */
  lemma {:induction false} EscapeFilenameEscapes(s: string)
    ensures EscapeFilename(s) == Escaped(s)
  {
    if s != [] {
      var x, r := s[0], s[1..];
      assert s == [x] + r;
      var r1 := ReplaceChar([x], '\\', "\\\\");
      ReplaceCharAppend([x], r, '\\', "\\\\");
      var r2 := ReplaceChar(r1, '$', "\\$");
      ReplaceCharAppend(r1, ReplaceChar(r, '\\', "\\\\"), '$', "\\$");
      ReplaceCharAppend(r2, ReplaceChar(ReplaceChar(r, '\\', "\\\\"), '$', "\\$"), '"', "\\\"");
      EscapeChain(x);
      EscapeFilenameEscapes(r);
    }
  }

  lemma EscapeChain(x: char)
    ensures ReplaceChar(ReplaceChar(ReplaceChar([x], '\\', "\\\\"), '$', "\\$"), '"', "\\\"") == EscapeChar(x)
  {
    ReplaceCharOne(x, '\\', "\\\\");
    var r1 := ReplaceChar([x], '\\', "\\\\");
    if x == '\\' {
      ReplaceCharAbsent(r1, '$', "\\$");
      ReplaceCharAbsent(r1, '"', "\\\"");
    } else {
      ReplaceCharOne(x, '$', "\\$");
      var r2 := ReplaceChar([x], '$', "\\$");
      if x == '$' {
        ReplaceCharAbsent(r2, '"', "\\\"");
      } else {
        ReplaceCharOne(x, '"', "\\\"");
      }
    }
  }

  /** Undoing the escape gives the name back. */
  lemma {:induction false} UnescapeEscaped(s: string)
    ensures Unescape(Escaped(s)) == s
  {
    if s != [] {
      var x, r := s[0], s[1..];
      UnescapeEscaped(r);
      var t := Escaped(s);
      assert t == EscapeChar(x) + Escaped(r);
      if IsEscaped(x) {
        assert t[2..] == Escaped(r);
      } else {
        assert t[1..] == Escaped(r);
      }
      assert s == [x] + r;
    }
  }

  /** `_escape_filename` is injective: distinct names stay distinct. */
  lemma EscapeInjective(a: string, b: string)
    ensures EscapeFilename(a) == EscapeFilename(b) ==> a == b
  {
    EscapeFilenameEscapes(a);
    EscapeFilenameEscapes(b);
    UnescapeEscaped(a);
    UnescapeEscaped(b);
  }

  // ---------------------------------------------------------------------
  // The module lists and GitwebProp

  /** `_repos_allow` and `_repos_disallow`: the repositories to list in the
      project list and those to leave out, as `<name>.git`. */
  class RepoLists {
    var allow: seq<string>
    var deny: seq<string>

    constructor()
      ensures allow == [] && deny == []
    {
      allow := [];
      deny := [];
    }
  }

  /** The global default of the `gitweb` property: the `gitosis` section's
      boolean, `False` when it is not set; a value that is not a boolean
      raises. */
  function GlobalDefault(config: RawConfig): (r: Result<bool, NotABoolean>)
    ensures config.get("gitosis", "gitweb").None? ==> r == Ok(false)
  {
    match GetBoolean(config, "gitosis", "gitweb")
    case Ok(v) => Ok(if v.Some? then v.value else false)
    case Err(e) => Err(e)
  }

  /** The value of the `gitweb` property for a section: its own boolean,
      else the default. */
  function Resolved(default: bool, config: RawConfig, section: string): (r: Result<bool, NotABoolean>)
    ensures config.get(section, "gitweb").None? ==> r == Ok(default)
  {
    match GetBoolean(config, section, "gitweb")
    case Ok(v) => Ok(if v.Some? then v.value else default)
    case Err(e) => Err(e)
  }

  /** A section's own boolean overrides the default; the default matters
      only where the section has no value. */
  lemma ResolvedMeaning(default: bool, config: RawConfig, section: string, b: bool)
    requires GetBoolean(config, section, "gitweb") == Ok(Some(b))
    ensures Resolved(default, config, section) == Ok(b) && Resolved(!default, config, section) == Ok(b)
  {
  }

  class GitwebProp {
    /** The module lists this property fills. */
    const lists: RepoLists
    /** `default_value`, absent until the first `_get` computes it. */
    var defaultValue: Option<bool>

    /** `__init__` empties both module lists. */
    constructor(lists: RepoLists)
      modifies lists
      ensures this.lists == lists && lists.allow == [] && lists.deny == [] && defaultValue == None
    {
      this.lists := lists;
      defaultValue := None;
      lists.allow := [];
      lists.deny := [];
    }

    /** `_get`: the global default is read once per instance, on the first
        call; the section's own boolean wins over it. */
    method Get(config: RawConfig, section: string) returns (r: Result<bool, NotABoolean>)
      modifies this
      ensures old(defaultValue).Some? ==>
        defaultValue == old(defaultValue) && r == Resolved(old(defaultValue).value, config, section)
      ensures old(defaultValue).None? ==>
        match GlobalDefault(config)
        case Err(e) => defaultValue == None && r == Err(e)
        case Ok(d) => defaultValue == Some(d) && r == Resolved(d, config, section)
    {
      if defaultValue.None? {
        var d := GlobalDefault(config);
        if d.Err? {
          return Err(d.error);
        }
        defaultValue := Some(d.value);
      }
      var v := GetBoolean(config, section, "gitweb");
      if v.Err? {
        return Err(v.error);
      }
      if v.value.Some? {
        return Ok(v.value.value);
      }
      return Ok(defaultValue.value);
    }

    /** `action`: `<reponame>.git` joins the allow list when enabled, the
        deny list otherwise; nothing else changes. */
    method Action(reponame: string, enable: bool)
      modifies lists
      ensures enable ==> lists.allow == old(lists.allow) + [reponame + ".git"] && lists.deny == old(lists.deny)
      ensures !enable ==> lists.deny == old(lists.deny) + [reponame + ".git"] && lists.allow == old(lists.allow)
    {
      if enable {
        lists.allow := lists.allow + [reponame + ".git"];
      } else {
        lists.deny := lists.deny + [reponame + ".git"];
      }
    }

    /** `trigger` with this property's `_get`: the value is a boolean, never
        `None`, so `action` always runs unless the lookup raises. */
    method Trigger(config: RawConfig, section: string, reponame: string) returns (r: Result<bool, NotABoolean>)
      modifies this, lists
      ensures r.Ok? && r.value ==>
        lists.allow == old(lists.allow) + [reponame + ".git"] && lists.deny == old(lists.deny)
      ensures r.Ok? && !r.value ==>
        lists.deny == old(lists.deny) + [reponame + ".git"] && lists.allow == old(lists.allow)
      ensures r.Err? ==> lists.allow == old(lists.allow) && lists.deny == old(lists.deny)
      ensures old(defaultValue).Some? ==> r == Resolved(old(defaultValue).value, config, section)
    {
      r := Get(config, section);
      if r.Ok? {
        Action(reponame, r.value);
      }
    }
  }

  // ---------------------------------------------------------------------
  // ProjectList.refresh and ProjectList.update

  /** `l.strip()` is non-empty and not on the deny list. */
  predicate Kept(line: string, deny: seq<string>) {
    Strip(line) != [] && Strip(line) !in deny
  }

  /** The lines `update` copies, in order. */
  function KeptLines(lines: seq<string>, deny: seq<string>): seq<string> {
    if lines == [] then []
    else (if Kept(lines[0], deny) then [lines[0]] else []) + KeptLines(lines[1..], deny)
  }

  function Concat(lines: seq<string>): string {
    if lines == [] then "" else lines[0] + Concat(lines[1..])
  }

  /** `list.remove(x)`: the first occurrence goes. */
  function RemoveFirst(xs: seq<string>, x: string): seq<string> {
    if xs == [] then []
    else if xs[0] == x then xs[1..]
    else [xs[0]] + RemoveFirst(xs[1..], x)
  }

  lemma {:induction false} RemoveFirstMeaning(xs: seq<string>, x: string)
    ensures x in xs ==> multiset(RemoveFirst(xs, x)) == multiset(xs) - multiset{x}
    ensures x !in xs ==> RemoveFirst(xs, x) == xs
  {
    if xs != [] {
      assert xs == [xs[0]] + xs[1..];
      if xs[0] != x {
        RemoveFirstMeaning(xs[1..], x);
      }
    }
  }

  /** What the line loop of `update` wrote, and the allow list after it. */
  datatype Merge = Merge(written: string, allow: seq<string>)

  function MergeFrom(lines: seq<string>, deny: seq<string>, allow: seq<string>): Merge {
    if lines == [] then Merge("", allow)
    else if Kept(lines[0], deny) then
      var m := MergeFrom(lines[1..], deny, RemoveFirst(allow, Strip(lines[0])));
      Merge(lines[0] + m.written, m.allow)
    else MergeFrom(lines[1..], deny, allow)
  }

  /** `update`: the merged text of the project list, and the allow list it
      leaves behind. */
  function Updated(lines: seq<string>, deny: seq<string>, allow: seq<string>): Merge {
    var m := MergeFrom(lines, deny, allow);
    Merge(m.written + (if m.allow != [] then "\n" + Join(m.allow, "\n") else ""), m.allow)
  }

  /** `refresh`: the allow list, one entry per line, whatever the file held
      before. */
  function Refreshed(allow: seq<string>): string {
    if allow != [] then Join(allow, "\n") else ""
  }

  /** One step of the line loop. */
  lemma MergeStep(lines: seq<string>, deny: seq<string>, allow: seq<string>)
    requires lines != []
    ensures Kept(lines[0], deny) ==>
      var m := MergeFrom(lines[1..], deny, RemoveFirst(allow, Strip(lines[0])));
      MergeFrom(lines, deny, allow) == Merge(lines[0] + m.written, m.allow)
    ensures !Kept(lines[0], deny) ==> MergeFrom(lines, deny, allow) == MergeFrom(lines[1..], deny, allow)
  {
  }

  lemma ConcatCons(l: string, ls: seq<string>)
    ensures Concat([l] + ls) == l + Concat(ls)
  {
    assert ([l] + ls)[1..] == ls;
  }

  /** The loop copies exactly the kept lines, verbatim and in order, and
      they are the lines whose stripped text is non-empty and not denied. */
  lemma {:induction false} MergeWritten(lines: seq<string>, deny: seq<string>, allow: seq<string>)
    ensures MergeFrom(lines, deny, allow).written == Concat(KeptLines(lines, deny))
    ensures forall l :: l in KeptLines(lines, deny) <==> l in lines && Kept(l, deny)
  {
    if lines != [] {
      var rest := KeptLines(lines[1..], deny);
      MergeStep(lines, deny, allow);
      if Kept(lines[0], deny) {
        MergeWritten(lines[1..], deny, RemoveFirst(allow, Strip(lines[0])));
        assert KeptLines(lines, deny) == [lines[0]] + rest;
        ConcatCons(lines[0], rest);
      } else {
        MergeWritten(lines[1..], deny, allow);
        assert KeptLines(lines, deny) == rest;
      }
      assert lines == [lines[0]] + lines[1..];
    }
  }

  /** The allow list only loses entries, and an entry it loses is the
      stripped text of a kept line. */
  lemma {:induction false} MergeAllow(lines: seq<string>, deny: seq<string>, allow: seq<string>)
    ensures multiset(MergeFrom(lines, deny, allow).allow) <= multiset(allow)
    ensures forall a :: a in allow && a !in MergeFrom(lines, deny, allow).allow ==>
      exists i :: 0 <= i < |lines| && Kept(lines[i], deny) && Strip(lines[i]) == a
  {
    if lines != [] {
      var m := MergeFrom(lines, deny, allow);
      MergeStep(lines, deny, allow);
      var l := lines[0];
      if Kept(l, deny) {
        var allow' := RemoveFirst(allow, Strip(l));
        RemoveFirstMeaning(allow, Strip(l));
        MergeAllow(lines[1..], deny, allow');
        forall a | a in allow && a !in m.allow
          ensures exists i :: 0 <= i < |lines| && Kept(lines[i], deny) && Strip(lines[i]) == a
        {
          if a == Strip(l) {
            assert Kept(lines[0], deny) && Strip(lines[0]) == a;
          } else {
            assert a in multiset(allow');
            KeptInTail(lines, deny, a);
          }
        }
      } else {
        MergeAllow(lines[1..], deny, allow);
        forall a | a in allow && a !in m.allow
          ensures exists i :: 0 <= i < |lines| && Kept(lines[i], deny) && Strip(lines[i]) == a
        {
          KeptInTail(lines, deny, a);
        }
      }
    }
  }

  /** A kept line of the tail is a kept line of the whole. */
  lemma KeptInTail(lines: seq<string>, deny: seq<string>, a: string)
    requires lines != []
    requires exists i :: 0 <= i < |lines[1..]| && Kept(lines[1..][i], deny) && Strip(lines[1..][i]) == a
    ensures exists i :: 0 <= i < |lines| && Kept(lines[i], deny) && Strip(lines[i]) == a
  {
    var i :| 0 <= i < |lines[1..]| && Kept(lines[1..][i], deny) && Strip(lines[1..][i]) == a;
    assert lines[i + 1] == lines[1..][i];
  }

  /** Splitting `c.join(xs)` at `c` gives `xs` back when no entry holds
      `c`: the lists are one entry per line. */
  lemma {:induction false} SplitJoin(xs: seq<string>, c: char)
    requires xs != []
    requires forall i :: 0 <= i < |xs| ==> c !in xs[i]
    ensures SplitChar(Join(xs, [c]), c) == xs
  {
    if |xs| == 1 {
      SplitCharNone(xs[0], c);
    } else {
      SplitJoin(xs[1..], c);
      SplitCharAfter(xs[0], Join(xs[1..], [c]), c);
      assert xs == [xs[0]] + xs[1..];
    }
  }

  lemma {:induction false} SplitCharAfter(a: string, b: string, c: char)
    requires c !in a
    ensures SplitChar(a + [c] + b, c) == [a] + SplitChar(b, c)
  {
    if a == [] {
      assert a + [c] + b == [c] + b;
      assert ([c] + b)[1..] == b;
    } else {
      SplitCharAfter(a[1..], b, c);
      assert (a + [c] + b)[1..] == a[1..] + [c] + b;
      assert [a[0]] + a[1..] == a;
    }
  }

  /** `refresh` writes one allow entry per line. */
  lemma RefreshedLines(allow: seq<string>)
    requires allow != []
    requires forall i :: 0 <= i < |allow| ==> '\n' !in allow[i]
    ensures SplitChar(Refreshed(allow), '\n') == allow
  {
    SplitJoin(allow, '\n');
  }

  /** `ProjectList.update` on the old contents of the project list, as
      lines: the kept lines, then the remaining allow entries on lines of
      their own. `remove` changes the module's allow list in place. */
  method Update(lists: RepoLists, lines: seq<string>) returns (content: string)
    modifies lists
    ensures var u := Updated(lines, old(lists.deny), old(lists.allow));
      content == u.written && lists.allow == u.allow && lists.deny == old(lists.deny)
  {
    var written := "";
    var i := 0;
    while i < |lines|
      invariant 0 <= i <= |lines|
      invariant lists.deny == old(lists.deny)
      invariant var m := MergeFrom(lines[i..], lists.deny, lists.allow);
        MergeFrom(lines, old(lists.deny), old(lists.allow)) == Merge(written + m.written, m.allow)
    {
      MergeStep(lines[i..], lists.deny, lists.allow);
      assert lines[i..][1..] == lines[i + 1..];
      var l := lines[i];
      var t := Strip(l);
      if t != [] && t !in lists.deny {
        ghost var m := MergeFrom(lines[i + 1..], lists.deny, RemoveFirst(lists.allow, t));
        assert written + (l + m.written) == (written + l) + m.written;
        written := written + l;
        if t in lists.allow {
          lists.allow := RemoveFirst(lists.allow, t);
        } else {
          RemoveFirstMeaning(lists.allow, t);
        }
      }
      i := i + 1;
    }
    assert lines[i..] == [];
    if lists.allow != [] {
      written := written + "\n";
      written := written + Join(lists.allow, "\n");
    }
    content := written;
  }

  /** `ProjectList.refresh`: the new contents of the project list. */
  method Refresh(lists: RepoLists) returns (content: string)
    ensures content == Refreshed(lists.allow)
  {
    content := "";
    if lists.allow != [] {
      content := Join(lists.allow, "\n");
    }
  }

  // ---------------------------------------------------------------------
  // OwnerProp.action

  /** The position of the first character of `l`, from `i` on, that is not
      whitespace: where `\s*` stops, and where `strip()` starts. */
  function Indent(l: string, i: nat): (k: nat)
    requires i <= |l|
    ensures i <= k <= |l|
    ensures k < |l| ==> !IsSpace(l[k])
    decreases |l| - i
  {
    if i < |l| && IsSpace(l[i]) then Indent(l, i + 1) else i
  }

  /** Some `]` at or after position `m`. */
  predicate ClosesFrom(l: string, m: nat)
    decreases |l| - m
  {
    m < |l| && (l[m] == ']' || ClosesFrom(l, m + 1))
  }

  /** Nothing but whitespace at or after position `m`. */
  predicate BlankFrom(l: string, m: nat)
    decreases |l| - m
  {
    m >= |l| || (IsSpace(l[m]) && BlankFrom(l, m + 1))
  }

  /** `_r_sec.match(l)`: optional whitespace, `[`, and a later `]`. */
  predicate IsSectionLine(l: string) {
    var k := Indent(l, 0);
    k < |l| && l[k] == '[' && ClosesFrom(l, k + 1)
  }

  /** `_r_owner.match(l)`: optional whitespace, `owner`, at most one
      whitespace character, `=`. */
  predicate IsOwnerLine(l: string) {
    var k := Indent(l, 0);
    k + 6 <= |l| && l[k] == 'o' && l[k + 1] == 'w' && l[k + 2] == 'n' && l[k + 3] == 'e' && l[k + 4] == 'r' &&
    (l[k + 5] == '=' || (IsSpace(l[k + 5]) && k + 7 <= |l| && l[k + 6] == '='))
  }

  function OwnerLine(owner: string): string {
    "\towner = " + owner + "\n"
  }

  /** `l.strip() == '[gitweb]'`: the text `[gitweb]` with only whitespace
      around it. */
  predicate IsGitwebHeader(l: string) {
    var k := Indent(l, 0);
    k + 8 <= |l| && l[k] == '[' && l[k + 1] == 'g' && l[k + 2] == 'i' && l[k + 3] == 't' &&
    l[k + 4] == 'w' && l[k + 5] == 'e' && l[k + 6] == 'b' && l[k + 7] == ']' && BlankFrom(l, k + 8)
  }

  /** The position of the first `[gitweb]` line at or after `from`, or the
      end. */
  function HeaderFrom(lines: seq<string>, from: nat): (r: nat)
    requires from <= |lines|
    ensures from <= r <= |lines|
    ensures r < |lines| ==> IsGitwebHeader(lines[r])
    ensures forall j :: from <= j < r ==> !IsGitwebHeader(lines[j])
    decreases |lines| - from
  {
    if from == |lines| then from
    else if IsGitwebHeader(lines[from]) then from
    else HeaderFrom(lines, from + 1)
  }

  /** The position of the first section header or `owner` line at or after
      `from`, or the end. */
  function StopFrom(lines: seq<string>, from: nat): (r: nat)
    requires from <= |lines|
    ensures from <= r <= |lines|
    ensures r < |lines| ==> IsSectionLine(lines[r]) || IsOwnerLine(lines[r])
    ensures forall j :: from <= j < r ==> !IsSectionLine(lines[j]) && !IsOwnerLine(lines[j])
    decreases |lines| - from
  {
    if from == |lines| then from
    else if IsSectionLine(lines[from]) || IsOwnerLine(lines[from]) then from
    else StopFrom(lines, from + 1)
  }

  /** Lines 206-211: the lines copied up to and including the first
      `[gitweb]` line, or all of them and a new `[gitweb]` line; and where
      the reading stopped. */
  function CopiedHeader(lines: seq<string>): (r: (seq<string>, nat))
    ensures r.1 <= |lines|
  {
    var h := HeaderFrom(lines, 0);
    if h < |lines| then (lines[..h + 1], h + 1) else (lines + ["[gitweb]\n"], |lines|)
  }

  /** Lines 213-222: the owner line, put before the next section header
      (which is kept) or in place of the first `owner` line, or at the end;
      and where the reading stopped. The lines passed over are dropped. */
  function PlacedOwner(lines: seq<string>, from: nat, ownerLine: string): (r: (seq<string>, nat))
    requires from <= |lines|
    ensures r.1 <= |lines|
  {
    var k := StopFrom(lines, from);
    if k == |lines| then ([ownerLine], |lines|)
    else if IsSectionLine(lines[k]) then ([ownerLine, lines[k]], k + 1)
    else ([ownerLine], k + 1)
  }

  /** The git config after `OwnerProp.action`; lines 224-225 copy the rest. */
  function OwnerRewrite(lines: seq<string>, owner: string): seq<string> {
    var (a, i) := CopiedHeader(lines);
    var (b, j) := PlacedOwner(lines, i, OwnerLine(owner));
    a + b + lines[j..]
  }

  lemma OwnerLineShape(owner: string)
    ensures IsOwnerLine(OwnerLine(owner)) && !IsSectionLine(OwnerLine(owner)) && !IsGitwebHeader(OwnerLine(owner))
  {
    var l := OwnerLine(owner);
    assert l[0] == '\t' && l[1] == 'o' && l[2] == 'w' && l[3] == 'n' && l[4] == 'e' && l[5] == 'r';
    assert l[6] == ' ' && l[7] == '=';
    assert Indent(l, 0) == 1;
  }

  lemma GitwebHeaderLine()
    ensures IsGitwebHeader("[gitweb]\n")
  {
    var l := "[gitweb]\n";
    assert Indent(l, 0) == 0;
    assert BlankFrom(l, 8);
  }

  /** Where the search for `[gitweb]` stops, given a header at `h` (or the
      end) and none between `from` and `h`. */
  lemma {:induction false} HeaderAt(lines: seq<string>, from: nat, h: nat)
    requires from <= h <= |lines|
    requires h < |lines| ==> IsGitwebHeader(lines[h])
    requires forall j :: from <= j < h ==> !IsGitwebHeader(lines[j])
    ensures HeaderFrom(lines, from) == h
    decreases h - from
  {
    if from < h {
      HeaderAt(lines, from + 1, h);
    }
  }

  /** Where the search for a section header or `owner` line stops, given
      one at `k` (or the end) and none between `from` and `k`. */
  lemma {:induction false} StopAt(lines: seq<string>, from: nat, k: nat)
    requires from <= k <= |lines|
    requires k < |lines| ==> IsSectionLine(lines[k]) || IsOwnerLine(lines[k])
    requires forall j :: from <= j < k ==> !IsSectionLine(lines[j]) && !IsOwnerLine(lines[j])
    ensures StopFrom(lines, from) == k
    decreases k - from
  {
    if from < k {
      StopAt(lines, from + 1, k);
    }
  }

  /** The result in terms of the header position: the copied lines, the
      owner line right after the header, and the rest. */
  lemma OwnerRewriteShape(lines: seq<string>, owner: string)
    ensures var out := OwnerRewrite(lines, owner);
      var h := HeaderFrom(lines, 0);
      h + 2 <= |out| && out[h + 1] == OwnerLine(owner) && IsGitwebHeader(out[h]) &&
      (forall j :: 0 <= j < h ==> out[j] == lines[j]) &&
      (h < |lines| ==> out[..h + 1] == lines[..h + 1])
  {
    GitwebHeaderLine();
  }

  /** Recording the same owner again changes nothing. */
  lemma OwnerRewriteIdempotent(lines: seq<string>, owner: string)
    ensures OwnerRewrite(OwnerRewrite(lines, owner), owner) == OwnerRewrite(lines, owner)
  {
    var out := OwnerRewrite(lines, owner);
    OwnerRewriteShape(lines, owner);
    var h := HeaderFrom(lines, 0);
    assert forall j :: 0 <= j < h ==> !IsGitwebHeader(out[j]) by {
      forall j | 0 <= j < h
        ensures !IsGitwebHeader(out[j])
      {
        assert out[j] == lines[j];
      }
    }
    RewriteKeeps(out, owner, h);
  }

  /** A config whose first `[gitweb]` line is followed by the owner line is
      left as it is. */
  lemma RewriteKeeps(lines: seq<string>, owner: string, h: nat)
    requires h + 2 <= |lines| && IsGitwebHeader(lines[h]) && lines[h + 1] == OwnerLine(owner)
    requires forall j :: 0 <= j < h ==> !IsGitwebHeader(lines[j])
    ensures OwnerRewrite(lines, owner) == lines
  {
    var ol := OwnerLine(owner);
    OwnerLineShape(owner);
    HeaderAt(lines, 0, h);
    assert CopiedHeader(lines) == (lines[..h + 1], h + 1);
    StopAt(lines, h + 1, h + 1);
    assert PlacedOwner(lines, h + 1, ol) == ([ol], h + 2);
    assert lines == lines[..h + 1] + [ol] + lines[h + 2..];
  }

  /** One line as a file yields it: it ends in its `\n` and holds no
      other. */
  predicate WholeLine(l: string) {
    |l| > 0 && l[|l| - 1] == '\n' && '\n' !in l[..|l| - 1]
  }

  predicate WholeLines(lines: seq<string>) {
    forall l :: l in lines ==> WholeLine(l)
  }

  /** The end of the line that starts at `i`: just after the next `\n`, or
      the end of the text. */
  function LineEnd(text: string, i: nat): (r: nat)
    requires i <= |text|
    ensures i <= r <= |text|
    ensures i < |text| ==> i < r
    ensures forall j :: i <= j < r - 1 ==> text[j] != '\n'
    ensures i < r < |text| ==> text[r - 1] == '\n'
    decreases |text| - i
  {
    if i == |text| then i
    else if text[i] == '\n' then i + 1
    else LineEnd(text, i + 1)
  }

  /** `for l in f`: the lines of a file's text, each with its `\n`, the last
      one possibly without. */
  function FileLines(text: string): seq<string>
    decreases |text|
  {
    if text == [] then []
    else
      var e := LineEnd(text, 0);
      [text[..e]] + FileLines(text[e..])
  }

  /** Where the line starting at `i` ends, given the `\n` at `e - 1` and
      none before it. */
  lemma {:induction false} LineEndAt(text: string, i: nat, e: nat)
    requires i < e <= |text| && text[e - 1] == '\n'
    requires forall j :: i <= j < e - 1 ==> text[j] != '\n'
    ensures LineEnd(text, i) == e
    decreases e - i
  {
    if text[i] != '\n' {
      LineEndAt(text, i + 1, e);
    }
  }

  /** Whole lines written out are read back as the same lines. */
  lemma {:induction false} FileLinesConcat(lines: seq<string>)
    requires WholeLines(lines)
    ensures FileLines(Concat(lines)) == lines
  {
    if lines != [] {
      var l := lines[0];
      var rest := Concat(lines[1..]);
      var t := l + rest;
      assert WholeLine(l);
      forall j | 0 <= j < |l| - 1
        ensures t[j] != '\n'
      {
        assert t[j] == l[..|l| - 1][j];
      }
      LineEndAt(t, 0, |l|);
      assert t[..|l|] == l && t[|l|..] == rest;
      assert WholeLines(lines[1..]) by {
        forall x | x in lines[1..]
          ensures WholeLine(x)
        {
          assert x in lines;
        }
      }
      FileLinesConcat(lines[1..]);
      assert lines == [l] + lines[1..];
    }
  }

  /** The text of a file that ends in a newline reads as whole lines. */
  lemma {:induction false} FileLinesWhole(text: string)
    requires text == [] || text[|text| - 1] == '\n'
    ensures WholeLines(FileLines(text))
    decreases |text|
  {
    if text != [] {
      var e := LineEnd(text, 0);
      var l := text[..e];
      assert l[|l| - 1] == text[e - 1];
      var m := l[..|l| - 1];
      assert '\n' !in m by {
        forall j | 0 <= j < |m|
          ensures m[j] != '\n'
        {
          assert m[j] == text[j];
        }
      }
      var rest := text[e..];
      assert rest == [] || rest[|rest| - 1] == text[|text| - 1];
      FileLinesWhole(rest);
    }
  }

  /** The rewrite keeps whole lines whole when the owner has no newline. */
  lemma OwnerRewriteWhole(lines: seq<string>, owner: string)
    requires WholeLines(lines) && '\n' !in owner
    ensures WholeLines(OwnerRewrite(lines, owner))
  {
    var ol := OwnerLine(owner);
    assert WholeLine(ol) by {
      assert ol[..|ol| - 1] == "\towner = " + owner;
    }
    var gl := "[gitweb]\n";
    assert WholeLine(gl) by {
      assert gl[..|gl| - 1] == "[gitweb]";
    }
    var (a, i) := CopiedHeader(lines);
    var (b, j) := PlacedOwner(lines, i, ol);
    forall x | x in a + b + lines[j..]
      ensures WholeLine(x)
    {
      if x in a && x != gl {
        assert x in lines;
      } else if x in b && x != ol {
        assert x in lines;
      } else if x in lines[j..] {
        assert x in lines;
      }
    }
  }

  /** On a file whose text ends in a newline and an owner without one,
      running the rewrite a second time on the written file leaves it as it
      is. */
  lemma OwnerFileIdempotent(text: string, owner: string)
    requires text == [] || text[|text| - 1] == '\n'
    requires '\n' !in owner
    ensures var once := Concat(OwnerRewrite(FileLines(text), owner));
      Concat(OwnerRewrite(FileLines(once), owner)) == once
  {
    var lines := FileLines(text);
    FileLinesWhole(text);
    OwnerRewriteWhole(lines, owner);
    FileLinesConcat(OwnerRewrite(lines, owner));
    OwnerRewriteIdempotent(lines, owner);
  }

  /** A last line `[gitweb]` without its newline gets the owner line glued
      to it. */
  lemma UnterminatedHeaderGlued()
    ensures OwnerRewrite(["[gitweb]"], "x") == ["[gitweb]", OwnerLine("x")]
  {
    var l := "[gitweb]";
    assert IsGitwebHeader(l) by {
      assert Indent(l, 0) == 0;
      assert BlankFrom(l, 8);
    }
    HeaderAt(["[gitweb]"], 0, 0);
    StopAt(["[gitweb]"], 1, 1);
  }

  /** Lines 206-211: copy up to and including the `[gitweb]` line. */
  method CopyThroughHeader(lines: seq<string>) returns (out: seq<string>, next: nat)
    ensures (out, next) == CopiedHeader(lines)
  {
    out := [];
    var i := 0;
    while i < |lines|
      invariant 0 <= i <= |lines|
      invariant out == lines[..i]
      invariant forall j :: 0 <= j < i ==> !IsGitwebHeader(lines[j])
    {
      out := out + [lines[i]];
      if IsGitwebHeader(lines[i]) {
        HeaderAt(lines, 0, i);
        assert out == lines[..i + 1];
        return out, i + 1;
      }
      i := i + 1;
    }
    HeaderAt(lines, 0, |lines|);
    assert lines[..i] == lines;
    out := out + ["[gitweb]\n"];
    next := i;
  }

  /** Lines 213-222: pass over lines up to a section header or an `owner`
      line, and put the owner line there. */
  method PlaceOwner(lines: seq<string>, from: nat, ownerLine: string) returns (out: seq<string>, next: nat)
    requires from <= |lines|
    ensures (out, next) == PlacedOwner(lines, from, ownerLine)
  {
    var i := from;
    while i < |lines|
      invariant from <= i <= |lines|
      invariant forall j :: from <= j < i ==> !IsSectionLine(lines[j]) && !IsOwnerLine(lines[j])
    {
      var l := lines[i];
      if IsSectionLine(l) {
        StopAt(lines, from, i);
        return [ownerLine, l], i + 1;
      } else if IsOwnerLine(l) {
        StopAt(lines, from, i);
        return [ownerLine], i + 1;
      }
      i := i + 1;
    }
    StopAt(lines, from, |lines|);
    return [ownerLine], |lines|;
  }

  /** `OwnerProp.action` on the lines of the repository's git config. */
  method OwnerAction(lines: seq<string>, owner: string) returns (out: seq<string>)
    ensures out == OwnerRewrite(lines, owner)
  {
    var next;
    out, next := CopyThroughHeader(lines);
    var placed;
    placed, next := PlaceOwner(lines, next, OwnerLine(owner));
    out := out + placed;
    ghost var head := out;
    var i := next;
    while i < |lines|
      invariant next <= i <= |lines|
      invariant out == head + lines[next..i]
    {
      out := out + [lines[i]];
      i := i + 1;
    }
    assert lines[next..i] == lines[next..];
  }
}
