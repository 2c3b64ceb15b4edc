/**
 * Writing a list of words with `_words_to_line` and reading the line back
 * with `_line_to_words` gives the same list, for every word that is
 * non-empty, does not start with a quote unless it is quoted, and does not
 * end with a backslash when it holds whitespace.
 *
 * The proof goes through a character-level description `CharEscape` of
 * what the split/replace/join pipeline of `EscapeWord` does.
 */
module WordsRoundTrip {
  import opened Outcomes
  import opened Text
  import opened Words

  /** Does `s` start with a backslash that escapes the character after it? */
  predicate PairHead(s: string) {
    |s| >= 2 && s[0] == Backslash && (s[1] == Backslash || s[1] == SingleQuote || s[1] == DoubleQuote)
  }

  /** How many characters of `s` the next step of the escape consumes. */
  function EscWidth(s: string): nat {
    if PairHead(s) then 2 else 1
  }

  /** What the next step of the escape writes. */
  function EscChunk(s: string): string
    requires s != []
  {
    if PairHead(s) then
      if s[1] == Backslash then [Backslash, Backslash, Backslash, Backslash]
      else if s[1] == SingleQuote then [Backslash, Backslash, Backslash, SingleQuote]
      else [Backslash, Backslash, DoubleQuote]
    else if s[0] == SingleQuote then [Backslash, SingleQuote]
    else [s[0]]
  }

  /** The escaping of `EscapeWord`, one character (or escaped pair) at a time. */
  function CharEscape(s: string): string
    decreases |s|
  {
    if s == [] then [] else EscChunk(s) + CharEscape(s[EscWidth(s)..])
  }

  // ---------------------------------------------------------------------
  // `replace` over a concatenation

  /** `replace` of a two-character pattern works piecewise when no match
      straddles the cut. */
  lemma {:induction false} ReplacePairConcat(x: string, y: string, a: char, b: char, rep: string)
    requires x == [] || y == [] || Last(x) != a || y[0] != b
    ensures ReplacePair(x + y, a, b, rep) == ReplacePair(x, a, b, rep) + ReplacePair(y, a, b, rep)
    decreases |x|
  {
    if x == [] {
      assert x + y == y;
    } else {
      var n := ReplacePairStep(x, y, a, b, rep);
      var head := if n == 2 then rep else [x[0]];
      assert x[n..] == [] || Last(x[n..]) == Last(x);
      ReplacePairConcat(x[n..], y, a, b, rep);
      AppendAssoc(head, ReplacePair(x[n..], a, b, rep), ReplacePair(y, a, b, rep));
    }
  }

  /** The first step of `replace` on `x + y` is that on `x`: `n` characters
      consumed, `head` written. */
  lemma ReplacePairStep(x: string, y: string, a: char, b: char, rep: string) returns (n: nat)
    requires x != [] && (y == [] || Last(x) != a || y[0] != b)
    ensures 1 <= n <= |x|
    ensures var head := if n == 2 then rep else [x[0]];
      ReplacePair(x + y, a, b, rep) == head + ReplacePair(x[n..] + y, a, b, rep) &&
      ReplacePair(x, a, b, rep) == head + ReplacePair(x[n..], a, b, rep)
  {
    var xy := x + y;
    if |x| >= 2 && x[0] == a && x[1] == b {
      assert xy[0] == a && xy[1] == b;
      assert xy[2..] == x[2..] + y;
      n := 2;
    } else {
      NoMatchAcross(x, y, a, b);
      assert xy[0] == x[0];
      assert xy[1..] == x[1..] + y;
      n := 1;
    }
  }

  lemma NoMatchAcross(x: string, y: string, a: char, b: char)
    requires x != [] && !(|x| >= 2 && x[0] == a && x[1] == b)
    requires y == [] || Last(x) != a || y[0] != b
    ensures !(|x + y| >= 2 && (x + y)[0] == a && (x + y)[1] == b)
  {
    var xy := x + y;
    if |x| == 1 && |xy| >= 2 { assert xy[0] == Last(x) && xy[1] == y[0]; }
    if |x| >= 2 { assert xy[0] == x[0] && xy[1] == x[1]; }
  }

  lemma {:induction false} ReplaceCharConcat(x: string, y: string, c: char, rep: string)
    ensures ReplaceChar(x + y, c, rep) == ReplaceChar(x, c, rep) + ReplaceChar(y, c, rep)
    decreases |x|
  {
    if x == [] {
      assert x + y == y;
    } else {
      assert (x + y)[1..] == x[1..] + y;
      ReplaceCharConcat(x[1..], y, c, rep);
    }
  }

  /** A replacement that starts with the pattern's first character and ends
      with its second keeps the first and last characters of the string. */
  lemma {:induction false} ReplacePairEnds(x: string, a: char, b: char, rep: string)
    requires x != [] && |rep| >= 1 && rep[0] == a && Last(rep) == b
    ensures ReplacePair(x, a, b, rep) != []
    ensures ReplacePair(x, a, b, rep)[0] == x[0]
    ensures Last(ReplacePair(x, a, b, rep)) == Last(x)
    decreases |x|
  {
    if |x| >= 2 && x[0] == a && x[1] == b {
      if x[2..] != [] {
        ReplacePairEnds(x[2..], a, b, rep);
      } else {
        assert ReplacePair(x[2..], a, b, rep) == [];
      }
    } else if x[1..] != [] {
      ReplacePairEnds(x[1..], a, b, rep);
    } else {
      assert ReplacePair(x[1..], a, b, rep) == [];
    }
  }

  /** `EscapeSegment` works piecewise at a cut no escape can straddle. */
  lemma EscapeSegmentConcat(x: string, y: string)
    requires x == [] || y == [] || Last(x) != Backslash || (y[0] != SingleQuote && y[0] != DoubleQuote)
    ensures EscapeSegment(x + y) == EscapeSegment(x) + EscapeSegment(y)
  {
    var r1 := [Backslash, Backslash, SingleQuote];
    var r2 := [Backslash, Backslash, DoubleQuote];
    ReplacePairConcat(x, y, Backslash, SingleQuote, r1);
    var x1 := ReplacePair(x, Backslash, SingleQuote, r1);
    var y1 := ReplacePair(y, Backslash, SingleQuote, r1);
    if x != [] { ReplacePairEnds(x, Backslash, SingleQuote, r1); }
    if y != [] { ReplacePairEnds(y, Backslash, SingleQuote, r1); }
    ReplacePairConcat(x1, y1, Backslash, DoubleQuote, r2);
    var x2 := ReplacePair(x1, Backslash, DoubleQuote, r2);
    var y2 := ReplacePair(y1, Backslash, DoubleQuote, r2);
    ReplaceCharConcat(x2, y2, SingleQuote, [Backslash, SingleQuote]);
  }

  lemma EscapeSingle(c: char)
    ensures EscapeSegment([c]) == if c == SingleQuote then [Backslash, SingleQuote] else [c]
  {
    var r1 := [Backslash, Backslash, SingleQuote];
    var r2 := [Backslash, Backslash, DoubleQuote];
    assert [c][1..] == [];
    assert ReplacePair([c], Backslash, SingleQuote, r1) == [c];
    assert ReplacePair([c], Backslash, DoubleQuote, r2) == [c];
    assert ReplaceChar([c], SingleQuote, [Backslash, SingleQuote]) == (if c == SingleQuote then [Backslash, SingleQuote] else [c]) + ReplaceChar([], SingleQuote, [Backslash, SingleQuote]);
  }

  lemma EscapeQuotePair(q: char)
    requires q == SingleQuote || q == DoubleQuote
    ensures EscapeSegment([Backslash, q]) ==
      if q == SingleQuote then [Backslash, Backslash, Backslash, SingleQuote] else [Backslash, Backslash, DoubleQuote]
  {
    var r1 := [Backslash, Backslash, SingleQuote];
    var r2 := [Backslash, Backslash, DoubleQuote];
    var s := [Backslash, q];
    assert s[2..] == [];
    var a := ReplacePair(s, Backslash, SingleQuote, r1);
    if q == SingleQuote {
      assert a == r1 + ReplacePair([], Backslash, SingleQuote, r1);
      assert a == r1;
      assert r1 == [Backslash] + [Backslash, SingleQuote];
      ReplacePairConcat([Backslash], [Backslash, SingleQuote], Backslash, DoubleQuote, r2);
      ReplacePairConcat([Backslash], [SingleQuote], Backslash, DoubleQuote, r2);
      assert [Backslash][1..] == [] && [SingleQuote][1..] == [];
      var b := ReplacePair(a, Backslash, DoubleQuote, r2);
      assert b == r1;
      ReplaceCharConcat([Backslash, Backslash], [SingleQuote], SingleQuote, [Backslash, SingleQuote]);
      ReplaceCharConcat([Backslash], [Backslash], SingleQuote, [Backslash, SingleQuote]);
      assert [Backslash, Backslash] == [Backslash] + [Backslash];
      assert r1 == [Backslash, Backslash] + [SingleQuote];
    } else {
      assert a == [Backslash] + ReplacePair([q], Backslash, SingleQuote, r1);
      assert [q][1..] == [];
      assert a == s;
      var b := ReplacePair(a, Backslash, DoubleQuote, r2);
      assert b == r2 + ReplacePair([], Backslash, DoubleQuote, r2);
      assert b == r2;
      ReplaceCharConcat([Backslash, Backslash], [DoubleQuote], SingleQuote, [Backslash, SingleQuote]);
      ReplaceCharConcat([Backslash], [Backslash], SingleQuote, [Backslash, SingleQuote]);
      assert [Backslash, Backslash] == [Backslash] + [Backslash];
      assert r2 == [Backslash, Backslash] + [DoubleQuote];
    }
  }

  lemma NoDoubledSuffix(s: string, n: nat)
    requires n <= |s| && NoDoubled(s, Backslash)
    ensures NoDoubled(s[n..], Backslash)
  {
    forall i | 0 < i < |s[n..]|
      ensures !(s[n..][i - 1] == Backslash && s[n..][i] == Backslash)
    {
      assert s[n..][i - 1] == s[n + i - 1] && s[n..][i] == s[n + i];
    }
  }

  /** On a segment free of doubled backslashes, the three replacements are
      the character-level escape. */
  lemma {:induction false} EscapeSegmentIsCharEscape(seg: string)
    requires NoDoubled(seg, Backslash)
    ensures EscapeSegment(seg) == CharEscape(seg)
    decreases |seg|
  {
    if seg == [] {
      assert ReplacePair([], Backslash, SingleQuote, [Backslash, Backslash, SingleQuote]) == [];
    } else if |seg| >= 2 && seg[0] == Backslash && (seg[1] == SingleQuote || seg[1] == DoubleQuote) {
      var t := seg[2..];
      assert seg == [Backslash, seg[1]] + t;
      EscapeSegmentConcat([Backslash, seg[1]], t);
      EscapeQuotePair(seg[1]);
      NoDoubledSuffix(seg, 2);
      EscapeSegmentIsCharEscape(t);
    } else {
      var t := seg[1..];
      assert seg == [seg[0]] + t;
      assert |seg| >= 2 && seg[0] == Backslash ==> seg[1] != Backslash by {
        if |seg| >= 2 { assert !(seg[0] == Backslash && seg[1] == Backslash); }
      }
      EscapeSegmentConcat([seg[0]], t);
      EscapeSingle(seg[0]);
      NoDoubledSuffix(seg, 1);
      EscapeSegmentIsCharEscape(t);
    }
  }

  // ---------------------------------------------------------------------
  // The whole word

  /** `CharEscape` works piecewise when the left part does not end in a backslash. */
  lemma {:induction false} CharEscapeConcat(x: string, y: string)
    requires x == [] || Last(x) != Backslash
    ensures CharEscape(x + y) == CharEscape(x) + CharEscape(y)
    decreases |x|
  {
    if x == [] {
      assert x + y == y;
    } else {
      var n := EscWidth(x);
      CharEscapeStep(x, y);
      assert x[n..] == [] || Last(x[n..]) == Last(x);
      CharEscapeConcat(x[n..], y);
      AppendAssoc(EscChunk(x), CharEscape(x[n..]), CharEscape(y));
    }
  }

  /** The first step of the escape of `x + y` is that of `x`. */
  lemma CharEscapeStep(x: string, y: string)
    requires x != [] && Last(x) != Backslash
    ensures EscWidth(x) <= |x|
    ensures CharEscape(x + y) == EscChunk(x) + CharEscape(x[EscWidth(x)..] + y)
    ensures CharEscape(x) == EscChunk(x) + CharEscape(x[EscWidth(x)..])
  {
    var xy := x + y;
    assert xy[0] == x[0];
    assert |x| >= 2 ==> xy[1] == x[1];
    assert PairHead(xy) == PairHead(x);
    assert EscChunk(xy) == EscChunk(x);
    assert xy[EscWidth(x)..] == x[EscWidth(x)..] + y;
  }

  function CharEscapes(parts: seq<string>): (r: seq<string>)
    ensures |r| == |parts|
    ensures forall k :: 0 <= k < |parts| ==> r[k] == CharEscape(parts[k])
  {
    if parts == [] then [] else [CharEscape(parts[0])] + CharEscapes(parts[1..])
  }

  /** Escaping the joined pieces is joining the escaped pieces, when no
      piece but the last ends with a backslash. */
  lemma {:induction false} CharEscapeJoin(parts: seq<string>)
    requires forall k :: 0 <= k < |parts| - 1 ==> parts[k] == [] || Last(parts[k]) != Backslash
    ensures CharEscape(Join(parts, [Backslash, Backslash])) ==
      Join(CharEscapes(parts), [Backslash, Backslash, Backslash, Backslash])
    decreases |parts|
  {
    var sep := [Backslash, Backslash];
    var sep4 := [Backslash, Backslash, Backslash, Backslash];
    if |parts| == 0 {
    } else if |parts| == 1 {
    } else {
      var j := Join(parts[1..], sep);
      CharEscapeJoin(parts[1..]);
      AppendAssoc(parts[0], sep, j);
      CharEscapeConcat(parts[0], sep + j);
      EscapedSeparator(j);
      assert CharEscapes(parts)[1..] == CharEscapes(parts[1..]);
      AppendAssoc(CharEscape(parts[0]), sep4, CharEscape(j));
    }
  }

  /** A doubled backslash is written as four. */
  lemma EscapedSeparator(j: string)
    ensures CharEscape([Backslash, Backslash] + j) == [Backslash, Backslash, Backslash, Backslash] + CharEscape(j)
  {
    var s := [Backslash, Backslash] + j;
    assert PairHead(s);
    assert s[2..] == j;
  }

  /** The split/replace/join pipeline is the character-level escape. */
  lemma EscapeWordIsCharEscape(w: string)
    ensures EscapeWord(w) == CharEscape(w)
  {
    var parts := SplitPairs(w, Backslash);
    forall k | 0 <= k < |parts|
      ensures NoDoubled(parts[k], Backslash)
      ensures k < |parts| - 1 ==> parts[k] == [] || Last(parts[k]) != Backslash
    {
      SplitPairsPieces(w, Backslash, k);
    }
    forall k | 0 <= k < |parts|
      ensures EscapeSegments(parts)[k] == CharEscapes(parts)[k]
    {
      EscapeSegmentIsCharEscape(parts[k]);
    }
    assert EscapeSegments(parts) == CharEscapes(parts);
    CharEscapeJoin(parts);
    JoinSplitPairs(w, Backslash);
  }

  /** The escaped word ends with a backslash exactly when the word does. */
  lemma {:induction false} CharEscapeLast(w: string)
    requires w != []
    ensures CharEscape(w) != [] && (Last(CharEscape(w)) == Backslash <==> Last(w) == Backslash)
    decreases |w|
  {
    var n := if |w| >= 2 && w[0] == Backslash && (w[1] == Backslash || w[1] == SingleQuote || w[1] == DoubleQuote) then 2 else 1;
    var t := w[n..];
    if t != [] {
      CharEscapeLast(t);
      assert Last(t) == Last(w);
    } else {
      assert CharEscape(t) == [];
    }
  }

  /** The assertion in `_words_to_line` fails exactly on a word that holds
      whitespace and ends with a backslash. */
  lemma RenderWordFails(w: string)
    ensures RenderWord(w).None? <==> HasSpace(w) && Last(w) == Backslash
  {
    if HasSpace(w) {
      EscapeWordIsCharEscape(w);
      CharEscapeLast(w);
    }
  }

  // ---------------------------------------------------------------------
  // Reading an escaped word back

  function Quoted(acc: string, ws: seq<string>): Scan {
    Scan(Some(SingleQuote), false, false, acc, ws)
  }

  lemma {:induction false} RunConcat(st: Scan, p: string, x: string)
    requires Run(st, p).Ok?
    ensures Run(st, p + x) == Run(Run(st, p).value, x)
    decreases |p|
  {
    if p == [] {
      assert p + x == x;
    } else {
      assert (p + x)[1..] == p[1..] + x;
      RunConcat(Step(st, p[0]).value, p[1..], x);
    }
  }

  lemma {:induction false} RunTwo(st: Scan, c: char, d: char)
    requires Step(st, c).Ok? && Step(Step(st, c).value, d).Ok?
    ensures Run(st, [c, d]) == Step(Step(st, c).value, d)
  {
    var n := Step(st, c).value;
    assert [c, d][0] == c && [c, d][1..] == [d];
    assert Run(st, [c, d]) == Run(n, [d]);
    assert [d][0] == d && [d][1..] == [];
    assert Run(n, [d]) == Run(Step(n, d).value, []);
  }

  /** Inside a single quote, a backslash and the character after it read
      back as that character when it is a quote or a backslash, and as both
      characters otherwise. */
  lemma DecodePair(acc: string, ws: seq<string>, d: char)
    ensures Run(Quoted(acc, ws), [Backslash, d]) ==
      Ok(Quoted(acc + (if d == SingleQuote || d == DoubleQuote || d == Backslash then [d] else [Backslash, d]), ws))
  {
    RunTwo(Quoted(acc, ws), Backslash, d);
  }

  /** Inside a single quote, any character but the quote and the backslash
      is taken as it is. */
  lemma DecodeOne(acc: string, ws: seq<string>, c: char)
    requires c != SingleQuote && c != Backslash
    ensures Run(Quoted(acc, ws), [c]) == Ok(Quoted(acc + [c], ws))
  {
    assert [c][0] == c && [c][1..] == [];
  }

  /** How many characters of `w` the decoder reads back from one step. */
  function DecodeWidth(w: string): nat
    requires w != []
  {
    if w[0] == Backslash then 2 else 1
  }

  /** What the escape writes for the first `DecodeWidth(w)` characters. */
  function DecodeUnit(w: string): string
    requires w != [] && (w[0] == Backslash ==> |w| >= 2)
  {
    if PairHead(w) then EscChunk(w)
    else if w[0] == Backslash then [Backslash, w[1]]
    else EscChunk(w)
  }

  lemma DecodeUnitSplit(w: string)
    requires w != [] && Last(w) != Backslash
    ensures w[0] == Backslash ==> |w| >= 2
    ensures CharEscape(w) == DecodeUnit(w) + CharEscape(w[DecodeWidth(w)..])
  {
    if w[0] == Backslash && !PairHead(w) {
      LoneBackslash(w);
    }
  }

  /** A backslash that escapes nothing is copied, and so is the character
      after it. */
  lemma LoneBackslash(w: string)
    requires w != [] && Last(w) != Backslash && w[0] == Backslash && !PairHead(w)
    ensures |w| >= 2
    ensures CharEscape(w) == [Backslash, w[1]] + CharEscape(w[2..])
  {
    var t := w[1..];
    assert t[0] == w[1];
    assert t[1..] == w[2..];
    SingleStep(w);
    SingleStep(t);
    PairCons(Backslash, w[1], CharEscape(w[2..]));
  }

  lemma PairCons<T>(a: T, b: T, e: seq<T>)
    ensures [a] + ([b] + e) == [a, b] + e
  {
  }

  /** A character that does not start an escaped pair and is not a quote
      is written as it is. */
  lemma SingleStep(s: string)
    requires s != [] && !PairHead(s) && s[0] != SingleQuote
    ensures CharEscape(s) == [s[0]] + CharEscape(s[1..])
  {
  }

  lemma DecodeUnitRun(w: string, acc: string, ws: seq<string>)
    requires w != [] && (w[0] == Backslash ==> |w| >= 2)
    ensures Run(Quoted(acc, ws), DecodeUnit(w)) == Ok(Quoted(acc + w[..DecodeWidth(w)], ws))
  {
    var q := Quoted(acc, ws);
    if PairHead(w) {
      var half := Quoted(acc + [Backslash], ws);
      DecodePair(acc, ws, Backslash);
      var second := DecodeUnit(w)[2..];
      assert DecodeUnit(w) == [Backslash, Backslash] + second;
      RunConcat(q, [Backslash, Backslash], second);
      assert w[..2] == [Backslash, w[1]];
      if w[1] == DoubleQuote {
        assert second == [DoubleQuote];
        DecodeOne(acc + [Backslash], ws, DoubleQuote);
      } else {
        assert second == [Backslash, w[1]];
        DecodePair(acc + [Backslash], ws, w[1]);
      }
      assert (acc + [Backslash]) + [w[1]] == acc + [Backslash, w[1]];
    } else if w[0] == Backslash {
      DecodePair(acc, ws, w[1]);
      assert w[..2] == [Backslash, w[1]];
    } else if w[0] == SingleQuote {
      DecodePair(acc, ws, SingleQuote);
      assert w[..1] == [SingleQuote];
    } else {
      DecodeOne(acc, ws, w[0]);
      assert w[..1] == [w[0]];
    }
  }

  lemma AppendInTwo(acc: string, w: string, n: nat)
    requires n <= |w|
    ensures (acc + w[..n]) + w[n..] == acc + w
  {
    assert w == w[..n] + w[n..];
  }

  /** One step of reading an escaped word back inside a single quote. */
  lemma DecodeStep(w: string, rest: string, acc: string, ws: seq<string>)
    requires w != [] && Last(w) != Backslash
    ensures DecodeWidth(w) <= |w|
    ensures Run(Quoted(acc, ws), CharEscape(w) + rest) ==
      Run(Quoted(acc + w[..DecodeWidth(w)], ws), CharEscape(w[DecodeWidth(w)..]) + rest)
  {
    DecodeUnitSplit(w);
    var n := DecodeWidth(w);
    var unit := DecodeUnit(w);
    var tail := CharEscape(w[n..]) + rest;
    assert CharEscape(w) + rest == unit + tail;
    DecodeUnitRun(w, acc, ws);
    RunConcat(Quoted(acc, ws), unit, tail);
  }

  /** Inside a single quote, an escaped word reads back as the word, when
      the word does not end with a backslash. */
  lemma {:induction false} DecodeEscaped(w: string, rest: string, acc: string, ws: seq<string>)
    requires w == [] || Last(w) != Backslash
    ensures Run(Quoted(acc, ws), CharEscape(w) + rest) == Run(Quoted(acc + w, ws), rest)
    decreases |w|
  {
    if w == [] {
      assert CharEscape(w) + rest == rest;
      assert acc + w == acc;
    } else {
      DecodeStep(w, rest, acc, ws);
      var n := DecodeWidth(w);
      var t := w[n..];
      var acc' := acc + w[..n];
      assert t == [] || Last(t) != Backslash by {
        if t != [] { assert t[|t| - 1] == w[|w| - 1]; }
      }
      DecodeEscaped(t, rest, acc', ws);
      AppendInTwo(acc, w, n);
    }
  }

  // ---------------------------------------------------------------------
  // Reading a written line back

  /** A word `_words_to_line` writes so that `_line_to_words` reads it back:
      it is not empty; a word with whitespace does not end with a backslash;
      a word without whitespace does not start with a quote. */
  predicate Writable(w: string) {
    w != [] && (HasSpace(w) ==> Last(w) != Backslash) && (!HasSpace(w) ==> !IsQuote(w[0]))
  }

  /** The loop between two words, having read `ws`. */
  function Between(ws: seq<string>): Scan {
    Scan(None, false, false, "", ws)
  }

  /** The loop right after reading the word `w`; `quoted` says whether it
      ended with a closing quote. */
  function AfterWord(w: string, ws: seq<string>, quoted: bool): Scan {
    Scan(None, false, quoted, w, ws)
  }

  lemma RunCons(st: Scan, c: char, x: string)
    requires Step(st, c).Ok?
    ensures Run(st, [c] + x) == Run(Step(st, c).value, x)
  {
    assert ([c] + x)[0] == c && ([c] + x)[1..] == x;
  }

  lemma Regroup(e: string, rest: string)
    ensures ([SingleQuote] + e + [SingleQuote]) + rest == [SingleQuote] + (e + ([SingleQuote] + rest))
  {
  }

  /** A quoted, escaped word reads back as the word. */
  lemma ReadQuoted(w: string, ws: seq<string>, rest: string)
    requires w != [] && Last(w) != Backslash
    ensures Run(Between(ws), ([SingleQuote] + CharEscape(w) + [SingleQuote]) + rest) == Run(AfterWord(w, ws, true), rest)
  {
    Regroup(CharEscape(w), rest);
    assert Step(Between(ws), SingleQuote) == Ok(Quoted("", ws));
    RunCons(Between(ws), SingleQuote, CharEscape(w) + ([SingleQuote] + rest));
    DecodeEscaped(w, [SingleQuote] + rest, "", ws);
    assert "" + w == w;
    assert Step(Quoted(w, ws), SingleQuote) == Ok(AfterWord(w, ws, true));
    RunCons(Quoted(w, ws), SingleQuote, rest);
  }

  lemma NoSpaceTail(v: string)
    requires v != [] && !HasSpace(v)
    ensures !IsSpace(v[0]) && !HasSpace(v[1..])
  {
    forall i | 0 <= i < |v[1..]| ensures !IsSpace(v[1..][i]) {
      assert v[1..][i] == v[i + 1];
    }
  }

  /** Outside quotes, a run of non-space characters is taken as it is,
      provided it does not open a quote at the start of a word. */
  lemma {:induction false} ReadPlain(u: string, v: string, ws: seq<string>, rest: string)
    requires !HasSpace(v) && (v == [] || u != [] || !IsQuote(v[0]))
    ensures Run(Scan(None, false, false, u, ws), v + rest) == Run(Scan(None, false, false, u + v, ws), rest)
    decreases |v|
  {
    if v == [] {
      assert v + rest == rest;
      assert u + v == u;
    } else {
      NoSpaceTail(v);
      var st := Scan(None, false, false, u, ws);
      var u' := u + [v[0]];
      assert Step(st, v[0]) == Ok(Scan(None, false, false, u', ws));
      assert v + rest == [v[0]] + (v[1..] + rest);
      RunCons(st, v[0], v[1..] + rest);
      ReadPlain(u', v[1..], ws, rest);
      AppendInTwo(u, v, 1);
      assert v[..1] == [v[0]];
    }
  }

  /** A written word reads back as the word. */
  lemma ReadWord(w: string, ws: seq<string>, rest: string)
    requires Writable(w)
    ensures RenderWord(w).Some?
    ensures Run(Between(ws), RenderWord(w).value + rest) == Run(AfterWord(w, ws, HasSpace(w)), rest)
  {
    RenderWordFails(w);
    if HasSpace(w) {
      EscapeWordIsCharEscape(w);
      ReadQuoted(w, ws, rest);
    } else {
      ReadPlain("", w, ws, rest);
      assert "" + w == w;
    }
  }

  /** The space after a word ends it. */
  lemma ReadGap(w: string, ws: seq<string>, quoted: bool, rest: string)
    requires w != []
    ensures Run(AfterWord(w, ws, quoted), " " + rest) == Run(Between(ws + [w]), rest)
  {
    assert Step(AfterWord(w, ws, quoted), ' ') == Ok(Between(ws + [w]));
    assert " " + rest == [' '] + rest;
    RunCons(AfterWord(w, ws, quoted), ' ', rest);
  }

  predicate AllWritable(words: seq<string>) {
    forall k :: 0 <= k < |words| ==> Writable(words[k])
  }

  lemma WritableRenders(words: seq<string>)
    requires AllWritable(words)
    ensures AllRender(words)
  {
    forall k | 0 <= k < |words| ensures RenderWord(words[k]).Some? {
      RenderWordFails(words[k]);
    }
  }

  /** The line `_words_to_line` writes for renderable words. */
  function WrittenLine(words: seq<string>): string
    requires AllRender(words)
  {
    Join(RenderedWords(words), " ")
  }

  lemma WrittenLineCons(words: seq<string>)
    requires |words| >= 2 && AllRender(words)
    ensures AllRender(words[1..])
    ensures WrittenLine(words) == RenderWord(words[0]).value + (" " + WrittenLine(words[1..]))
  {
    var rs := RenderedWords(words);
    assert rs[1..] == RenderedWords(words[1..]);
  }

  lemma WrittenLineOne(words: seq<string>)
    requires |words| == 1 && AllRender(words)
    ensures WrittenLine(words) == RenderWord(words[0]).value + []
  {
  }

  lemma ResumeEnd(st: Scan)
    ensures Resume(st, []) == Finish(st)
  {
  }

  /** Once all its words are read, the loop ends with the words it read. */
  lemma FinishAfterWord(w: string, ws: seq<string>, quoted: bool)
    requires w != []
    ensures Resume(AfterWord(w, ws, quoted), []) == Ok(ws + [w])
  {
    ResumeEnd(AfterWord(w, ws, quoted));
  }

  lemma ResumeWord(w: string, ws: seq<string>, rest: string)
    requires Writable(w)
    ensures RenderWord(w).Some?
    ensures Resume(Between(ws), RenderWord(w).value + rest) == Resume(AfterWord(w, ws, HasSpace(w)), rest)
  {
    ReadWord(w, ws, rest);
  }

  lemma ResumeGap(w: string, ws: seq<string>, quoted: bool, rest: string)
    requires w != []
    ensures Resume(AfterWord(w, ws, quoted), " " + rest) == Resume(Between(ws + [w]), rest)
  {
    ReadGap(w, ws, quoted, rest);
  }

  /** The loop reads a written line back as the words it was written from. */
  lemma {:induction false} ReadLine(words: seq<string>, ws: seq<string>)
    requires AllWritable(words) && AllRender(words)
    ensures Resume(Between(ws), WrittenLine(words)) == Ok(ws + words)
    decreases |words|
  {
    if words == [] {
      assert WrittenLine(words) == [];
      ResumeEnd(Between(ws));
      assert ws + words == ws;
    } else if |words| == 1 {
      ReadLineOne(words, ws);
    } else {
      WritableTail(words);
      WrittenLineCons(words);
      ReadLine(words[1..], ws + [words[0]]);
      ReadLineCons(words, ws);
    }
  }

  lemma ReadLineOne(words: seq<string>, ws: seq<string>)
    requires |words| == 1 && AllWritable(words) && AllRender(words)
    ensures Resume(Between(ws), WrittenLine(words)) == Ok(ws + words)
  {
    var w := words[0];
    WrittenLineOne(words);
    ResumeWord(w, ws, []);
    FinishAfterWord(w, ws, HasSpace(w));
    assert ws + words == ws + [w];
  }

  lemma WritableTail(words: seq<string>)
    requires words != [] && AllWritable(words)
    ensures AllWritable(words[1..])
  {
    forall k | 0 <= k < |words[1..]| ensures Writable(words[1..][k]) {
      assert words[1..][k] == words[k + 1];
    }
  }

  /** The first word and its gap, then the rest as the induction gives it. */
  lemma ReadLineCons(words: seq<string>, ws: seq<string>)
    requires |words| >= 2 && AllWritable(words) && AllRender(words)
    requires AllRender(words[1..])
    requires Resume(Between(ws + [words[0]]), WrittenLine(words[1..])) == Ok((ws + [words[0]]) + words[1..])
    ensures Resume(Between(ws), WrittenLine(words)) == Ok(ws + words)
  {
    var w := words[0];
    WrittenLineCons(words);
    var j := WrittenLine(words[1..]);
    ResumeWord(w, ws, " " + j);
    ResumeGap(w, ws, HasSpace(w), j);
    ConsTail(ws, words);
  }

  lemma ConsTail(ws: seq<string>, xs: seq<string>)
    requires xs != []
    ensures (ws + [xs[0]]) + xs[1..] == ws + xs
  {
    assert xs == [xs[0]] + xs[1..];
  }

  lemma JoinFirst(rs: seq<string>, sep: string)
    requires |rs| >= 1 && rs[0] != []
    ensures Join(rs, sep) != [] && Join(rs, sep)[0] == rs[0][0]
  {
  }

  lemma {:induction false} JoinLast(rs: seq<string>, sep: string)
    requires |rs| >= 1 && rs[|rs| - 1] != []
    ensures Join(rs, sep) != [] && Last(Join(rs, sep)) == Last(rs[|rs| - 1])
    decreases |rs|
  {
    if |rs| >= 2 {
      JoinLast(rs[1..], sep);
      assert rs[1..][|rs[1..]| - 1] == rs[|rs| - 1];
    }
  }

  /** A written word neither starts nor ends with whitespace. */
  lemma RenderWordEdges(w: string)
    requires Writable(w) && RenderWord(w).Some?
    ensures RenderWord(w).value != []
    ensures !IsSpace(RenderWord(w).value[0]) && !IsSpace(Last(RenderWord(w).value))
  {
    if !HasSpace(w) {
      assert !IsSpace(w[0]);
      assert !IsSpace(w[|w| - 1]);
    }
  }

  /** A written line has no whitespace at either end. */
  lemma WrittenLineUnpadded(words: seq<string>)
    requires AllWritable(words) && AllRender(words)
    ensures Strip(WrittenLine(words)) == WrittenLine(words)
  {
    var rs := RenderedWords(words);
    var line := WrittenLine(words);
    if words != [] {
      var n := |words| - 1;
      RenderWordEdges(words[0]);
      RenderWordEdges(words[n]);
      JoinFirst(rs, " ");
      JoinLast(rs, " ");
    }
    StripUnpadded(line);
  }

  /** Round trip: `_line_to_words(_words_to_line(words)) == words` for
      writable words. */
  lemma RoundTrip(words: seq<string>)
    requires AllWritable(words)
    ensures Render(words).Some?
    ensures Tokenize(Render(words).value) == Ok(words)
  {
    WritableRenders(words);
    var line := WrittenLine(words);
    assert Render(words) == Some(line);
    assert Resume(Start, line) == Ok(words) by {
      ReadLine(words, []);
      assert [] + words == words;
    }
    WrittenLineUnpadded(words);
    TokenizeIsLoop(line);
  }
}
