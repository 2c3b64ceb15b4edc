/**
 * The parts of Python 2's byte-string API that the core relies on:
 * `isspace`, `strip`, `split()`, `split(None, 1)`, `split(sep)`,
 * `sep.join`, `replace`, `startswith` and `endswith`.
 */
module Text {
  import opened Outcomes

  /** The whitespace set shared by `str.isspace`, `str.split()`, `str.strip()`
      and the regular-expression class `\s` on byte strings. */
  predicate IsSpace(c: char) {
    c == ' ' || c == '\t' || c == '\n' || c == '\r' || c == '\U{B}' || c == '\U{C}'
  }

  predicate HasSpace(s: string) {
    exists i :: 0 <= i < |s| && IsSpace(s[i])
  }

  predicate StartsWith(s: string, p: string) {
    |p| <= |s| && s[..|p|] == p
  }

  predicate EndsWith(s: string, p: string) {
    |p| <= |s| && s[|s| - |p|..] == p
  }

  /** `s.lstrip()`: drops the leading whitespace and nothing else. */
  function LStrip(s: string): (r: string)
    ensures |r| <= |s| && r == s[|s| - |r|..]
    ensures r == [] || !IsSpace(r[0])
    ensures forall i :: 0 <= i < |s| - |r| ==> IsSpace(s[i])
  {
    if |s| > 0 && IsSpace(s[0]) then LStrip(s[1..]) else s
  }

  /** `s.rstrip()`: drops the trailing whitespace and nothing else. */
  function RStrip(s: string): (r: string)
    ensures |r| <= |s| && r == s[..|r|]
    ensures r == [] || !IsSpace(r[|r| - 1])
    ensures forall i :: |r| <= i < |s| ==> IsSpace(s[i])
  {
    if |s| > 0 && IsSpace(s[|s| - 1]) then RStrip(s[..|s| - 1]) else s
  }

  /** `s.strip()` */
  function Strip(s: string): string {
    RStrip(LStrip(s))
  }

  lemma StripUnpadded(s: string)
    requires s == [] || (!IsSpace(s[0]) && !IsSpace(s[|s| - 1]))
    ensures Strip(s) == s
  {
  }

  predicate AllSpace(s: string) {
    forall i :: 0 <= i < |s| ==> IsSpace(s[i])
  }

  /** No whitespace at either end. */
  predicate Trimmed(s: string) {
    s == [] || (!IsSpace(s[0]) && !IsSpace(s[|s| - 1]))
  }

  /** `strip()` removes whitespace around a string that has none at its
      ends, and nothing more. */
  lemma StripAround(p: string, a: string, q: string)
    requires AllSpace(p) && AllSpace(q) && Trimmed(a)
    ensures Strip(p + a + q) == a
  {
    if a == [] {
      assert p + a + q == (p + q) + [];
      assert AllSpace(p + q) by {
        forall i | 0 <= i < |p + q| ensures IsSpace((p + q)[i]) {
          if i < |p| { assert (p + q)[i] == p[i]; } else { assert (p + q)[i] == q[i - |p|]; }
        }
      }
      LStripSpaces(p + q, []);
    } else {
      assert p + a + q == p + (a + q);
      assert (a + q)[0] == a[0];
      LStripSpaces(p, a + q);
      RStripSpaces(a, q);
    }
  }

  lemma {:induction false} LStripSpaces(p: string, x: string)
    requires AllSpace(p)
    requires x == [] || !IsSpace(x[0])
    ensures LStrip(p + x) == x
    decreases |p|
  {
    if p == [] {
      assert p + x == x;
    } else {
      assert (p + x)[1..] == p[1..] + x;
      assert AllSpace(p[1..]) by {
        forall i | 0 <= i < |p[1..]| ensures IsSpace(p[1..][i]) {
          assert p[1..][i] == p[i + 1];
        }
      }
      LStripSpaces(p[1..], x);
    }
  }

  lemma {:induction false} RStripSpaces(x: string, q: string)
    requires AllSpace(q)
    requires x == [] || !IsSpace(x[|x| - 1])
    ensures RStrip(x + q) == x
    decreases |q|
  {
    if q == [] {
      assert x + q == x;
    } else {
      var q' := q[..|q| - 1];
      assert (x + q)[..|x + q| - 1] == x + q';
      assert AllSpace(q') by {
        forall i | 0 <= i < |q'| ensures IsSpace(q'[i]) {
          assert q'[i] == q[i];
        }
      }
      RStripSpaces(x, q');
    }
  }

  /** A stripped string neither starts nor ends with whitespace. */
  lemma StripEdges(s: string)
    ensures Strip(s) == [] || (!IsSpace(Strip(s)[0]) && !IsSpace(Strip(s)[|Strip(s)| - 1]))
  {
    var l := LStrip(s);
    var r := RStrip(l);
    if r != [] {
      assert r[0] == l[0];
    }
  }

  /** Length of the run of non-space characters at the start of `s`. */
  function WordLength(s: string): (n: nat)
    ensures n <= |s|
    ensures forall i :: 0 <= i < n ==> !IsSpace(s[i])
    ensures n < |s| ==> IsSpace(s[n])
  {
    if |s| == 0 || IsSpace(s[0]) then 0 else 1 + WordLength(s[1..])
  }

  /** `s.split()`: the maximal runs of non-space characters, in order. */
  function Split(s: string): (r: seq<string>)
    ensures forall k :: 0 <= k < |r| ==> r[k] != [] && !HasSpace(r[k])
    decreases |s|
  {
    if |s| == 0 then []
    else if IsSpace(s[0]) then Split(s[1..])
    else
      var n := WordLength(s);
      [s[..n]] + Split(s[n..])
  }

  /** `split()` finds nothing exactly in a string of whitespace. */
  lemma {:induction false} SplitBlank(s: string)
    ensures Split(s) == [] <==> forall i :: 0 <= i < |s| ==> IsSpace(s[i])
    decreases |s|
  {
    if |s| > 0 && IsSpace(s[0]) {
      SplitBlank(s[1..]);
      assert forall i :: 1 <= i < |s| ==> s[i] == s[1..][i - 1];
    }
  }

  /** `s.split(None, 1)`: the first word, then what follows the whitespace
      after it (trailing whitespace kept); nothing for a blank string. */
  function SplitOnce(s: string): (r: seq<string>)
    ensures |r| <= 2
    ensures |r| >= 1 ==> r[0] != []
  {
    var t := LStrip(s);
    if t == [] then []
    else
      var n := WordLength(t);
      var rest := LStrip(t[n..]);
      if rest == [] then [t[..n]] else [t[..n], rest]
  }

  /** `s.split(c)`: cuts `s` at every `c`, keeping empty pieces. */
  function SplitChar(s: string, c: char): (parts: seq<string>)
    ensures |parts| >= 1
  {
    if s == [] then [""]
    else
      var r := SplitChar(s[1..], c);
      if s[0] == c then [""] + r else [[s[0]] + r[0]] + r[1..]
  }

  /** Without the separator, `s` is one piece. */
  lemma {:induction false} SplitCharNone(s: string, c: char)
    requires c !in s
    ensures SplitChar(s, c) == [s]
  {
    if s != [] {
      SplitCharNone(s[1..], c);
      assert [s[0]] + s[1..] == s;
    }
  }

  /** `s.split(cc)` for a separator of two equal characters: leftmost,
      non-overlapping occurrences of `cc` cut `s` into pieces. */
  function SplitPairs(s: string, c: char): (parts: seq<string>)
    ensures |parts| >= 1
  {
    if |s| >= 2 && s[0] == c && s[1] == c then [""] + SplitPairs(s[2..], c)
    else if s == [] then [""]
    else
      var r := SplitPairs(s[1..], c);
      [[s[0]] + r[0]] + r[1..]
  }

  /** `sep.join(parts)` */
  function Join(parts: seq<string>, sep: string): string {
    if |parts| == 0 then ""
    else if |parts| == 1 then parts[0]
    else parts[0] + sep + Join(parts[1..], sep)
  }

  /** `s.replace(c, rep)` for a one-character pattern. */
  function ReplaceChar(s: string, c: char, rep: string): string {
    if s == [] then []
    else (if s[0] == c then rep else [s[0]]) + ReplaceChar(s[1..], c, rep)
  }

  /** `s.replace(ab, rep)` for a two-character pattern: leftmost,
      non-overlapping occurrences. */
  function ReplacePair(s: string, a: char, b: char, rep: string): string {
    if |s| >= 2 && s[0] == a && s[1] == b then rep + ReplacePair(s[2..], a, b, rep)
    else if s == [] then []
    else [s[0]] + ReplacePair(s[1..], a, b, rep)
  }

  /** Joining the pieces of `s.split(cc)` with `cc` gives `s` back. */
  lemma {:induction false} JoinSplitPairs(s: string, c: char)
    ensures Join(SplitPairs(s, c), [c, c]) == s
    decreases |s|
  {
    if |s| >= 2 && s[0] == c && s[1] == c {
      JoinSplitPairs(s[2..], c);
      JoinPairsAtSep(s, c);
    } else if s != [] {
      JoinSplitPairs(s[1..], c);
      JoinPairsAtChar(s, c);
    }
  }

  lemma JoinPairsAtSep(s: string, c: char)
    requires |s| >= 2 && s[0] == c && s[1] == c
    requires Join(SplitPairs(s[2..], c), [c, c]) == s[2..]
    ensures Join(SplitPairs(s, c), [c, c]) == s
  {
    var parts := SplitPairs(s, c);
    var sep := [c, c];
    var rest := SplitPairs(s[2..], c);
    assert parts[1..] == rest;
    assert Join(parts, sep) == "" + sep + Join(rest, sep);
    assert "" + sep == sep;
    assert s == sep + s[2..];
  }

  lemma JoinPairsAtChar(s: string, c: char)
    requires s != [] && !(|s| >= 2 && s[0] == c && s[1] == c)
    requires Join(SplitPairs(s[1..], c), [c, c]) == s[1..]
    ensures Join(SplitPairs(s, c), [c, c]) == s
  {
    var parts := SplitPairs(s, c);
    var sep := [c, c];
    var r := SplitPairs(s[1..], c);
    assert parts == [[s[0]] + r[0]] + r[1..];
    if |r| > 1 {
      var j := Join(r[1..], sep);
      assert parts[1..] == r[1..];
      assert Join(parts, sep) == ([s[0]] + r[0]) + sep + j;
      AppendAssoc([s[0]], r[0], sep);
      AppendAssoc([s[0]], r[0] + sep, j);
    }
    assert [s[0]] + s[1..] == s;
  }

  lemma AppendAssoc<T>(p: seq<T>, q: seq<T>, r: seq<T>)
    ensures p + (q + r) == (p + q) + r
  {
  }

  /** No two adjacent characters of `s` are both `c`. */
  predicate NoDoubled(s: string, c: char) {
    forall i :: 0 < i < |s| ==> !(s[i - 1] == c && s[i] == c)
  }

  /** The first piece of `s.split(cc)` is a prefix of `s`, and when more
      pieces follow, `cc` comes right after it. */
  lemma {:induction false} SplitPairsFirst(s: string, c: char)
    ensures |SplitPairs(s, c)[0]| <= |s| && SplitPairs(s, c)[0] == s[..|SplitPairs(s, c)[0]|]
    ensures |SplitPairs(s, c)| > 1 ==>
      |SplitPairs(s, c)[0]| + 2 <= |s| && s[|SplitPairs(s, c)[0]|] == c && s[|SplitPairs(s, c)[0]| + 1] == c
    decreases |s|
  {
    if !(|s| >= 2 && s[0] == c && s[1] == c) && s != [] {
      SplitPairsFirst(s[1..], c);
    }
  }

  /** The pieces of `s.split(cc)` hold no `cc`, and every piece but the last
      does not end with `c`. */
  lemma {:induction false} SplitPairsPieces(s: string, c: char, k: nat)
    requires k < |SplitPairs(s, c)|
    ensures NoDoubled(SplitPairs(s, c)[k], c)
    ensures k + 1 < |SplitPairs(s, c)| ==> SplitPairs(s, c)[k] == [] || Last(SplitPairs(s, c)[k]) != c
    decreases |s|
  {
    if |s| >= 2 && s[0] == c && s[1] == c {
      if k > 0 { SplitPairsPieces(s[2..], c, k - 1); }
    } else if s != [] {
      var r := SplitPairs(s[1..], c);
      SplitPairsPieces(s[1..], c, k);
      if k == 0 {
        FirstPieceOfPairs(s, c);
      }
    }
  }

  lemma FirstPieceOfPairs(s: string, c: char)
    requires s != [] && !(|s| >= 2 && s[0] == c && s[1] == c)
    requires NoDoubled(SplitPairs(s[1..], c)[0], c)
    requires |SplitPairs(s[1..], c)| > 1 ==> SplitPairs(s[1..], c)[0] == [] || Last(SplitPairs(s[1..], c)[0]) != c
    ensures NoDoubled(SplitPairs(s, c)[0], c)
    ensures |SplitPairs(s, c)| > 1 ==> Last(SplitPairs(s, c)[0]) != c
  {
    var r := SplitPairs(s[1..], c);
    var p := [s[0]] + r[0];
    assert SplitPairs(s, c)[0] == p;
    SplitPairsFirst(s[1..], c);
    assert p == s[..|p|];
    forall i | 0 < i < |p|
      ensures !(p[i - 1] == c && p[i] == c)
    {
      if i > 1 {
        assert p[i - 1] == r[0][i - 2] && p[i] == r[0][i - 1];
      }
    }
    if |r| > 1 && r[0] == [] {
      assert s[1] == c && s[2] == c;
    }
  }

  function Last(s: string): char
    requires s != []
  {
    s[|s| - 1]
  }

  /** `s.split(c, 1)` when it yields two pieces: what comes before the first
      `c` and what comes after it; `None` when `s` holds no `c`. */
  function SplitAt(s: string, c: char): (r: Option<(string, string)>)
    ensures r.None? <==> c !in s
    ensures r.Some? ==> s == r.value.0 + [c] + r.value.1 && c !in r.value.0
  {
    if s == [] then None
    else if s[0] == c then
      assert s == [] + [c] + s[1..];
      Some(([], s[1..]))
    else match SplitAt(s[1..], c)
      case None => None
      case Some(parts) =>
        assert s == [s[0]] + s[1..];
        Some(([s[0]] + parts.0, parts.1))
  }

  /** The pieces are those around the first `c`. */
  lemma SplitAtFirst(s: string, c: char, k: nat)
    requires k < |s| && s[k] == c && c !in s[..k]
    ensures SplitAt(s, c) == Some((s[..k], s[k + 1..]))
  {
    assert c in s;
    var (a, b) := SplitAt(s, c).value;
    assert s[|a|] == c;
    assert a == s[..k];
  }
}
