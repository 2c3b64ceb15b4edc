/**
 * The word syntax of a gitolite-style configuration value: `_line_to_words`
 * splits a member or permission list into words, honouring `'`/`"` quotes
 * and backslash escapes, and `_words_to_line` writes a list back so that it
 * reads the same.
 */
module Words {
  import opened Outcomes
  import opened Text

  const Backslash: char := '\\'
  const SingleQuote: char := '\''
  const DoubleQuote: char := '"'

  predicate IsQuote(c: char) {
    c == SingleQuote || c == DoubleQuote
  }

  predicate HasQuote(s: string) {
    exists i :: 0 <= i < |s| && IsQuote(s[i])
  }

  /** The three ways `_line_to_words` raises. */
  datatype TokenError =
    | ExtraAfterQuote   // a non-space character right after a closing quote
    | UnclosedQuote     // the line ends inside a quoted word
    | TrailingBackslash // the line ends while an escape is pending

  /** The loop's variables: `open_quot`, `escape_on`, `word_closed`, `word`, `words`. */
  datatype Scan = Scan(quote: Option<char>, escape: bool, closed: bool, word: string, words: seq<string>)

  const Start := Scan(None, false, false, "", [])

  /** One turn of the character loop. */
  function Step(st: Scan, x: char): Result<Scan, TokenError> {
    if st.closed then
      if IsSpace(x) then Ok(st.(words := st.words + [st.word], word := "", closed := false))
      else Err(ExtraAfterQuote)
    else if st.escape then
      if x == SingleQuote || x == DoubleQuote || x == Backslash then Ok(st.(word := st.word + [x], escape := false))
      else Ok(st.(word := st.word + [Backslash, x], escape := false))
    else if st.quote.Some? then
      if x == st.quote.value then Ok(st.(quote := None, closed := true))
      else if x == Backslash then Ok(st.(escape := true))
      else Ok(st.(word := st.word + [x]))
    else if IsSpace(x) then
      if st.word != [] then Ok(st.(words := st.words + [st.word], word := "")) else Ok(st)
    else if IsQuote(x) && st.word == [] then Ok(st.(quote := Some(x)))
    else Ok(st.(word := st.word + [x]))
  }

  /** The loop over all of `s`, stopping at the first error. */
  function Run(st: Scan, s: string): Result<Scan, TokenError>
    decreases |s|
  {
    if s == [] then Ok(st)
    else match Step(st, s[0])
      case Err(e) => Err(e)
      case Ok(next) => Run(next, s[1..])
  }

  /** What follows the loop: the two end-of-line errors, then the last word. */
  function Finish(st: Scan): Result<seq<string>, TokenError> {
    if st.quote.Some? then Err(UnclosedQuote)
    else if st.escape then Err(TrailingBackslash)
    else if st.word != [] then Ok(st.words + [st.word])
    else Ok(st.words)
  }

  /** The loop from state `st` over `s`, then what follows it. */
  function Resume(st: Scan, s: string): Result<seq<string>, TokenError> {
    match Run(st, s)
    case Err(e) => Err(e)
    case Ok(last) => Finish(last)
  }

  /** `_line_to_words(line)`: a quote-free line is split at whitespace,
      any other line goes through the character loop. */
  function Tokenize(line: string): Result<seq<string>, TokenError> {
    var l := Strip(line);
    if !HasQuote(l) then Ok(Split(l)) else Resume(Start, l)
  }

  /** `_line_to_words`, as the loop it is. */
  method LineToWords(line: string) returns (r: Result<seq<string>, TokenError>)
    ensures r == Tokenize(line)
  {
    var l := Strip(line);
    if !HasQuote(l) {
      return Ok(Split(l));
    }
    r := ScanWords(l);
  }

  /** The character loop of `_line_to_words` over the stripped line `l`,
      then the end-of-line checks and the last word. */
  method ScanWords(l: string) returns (r: Result<seq<string>, TokenError>)
    ensures r == Resume(Start, l)
  {
    var openQuote: Option<char> := None;
    var escapeOn := false;
    var wordClosed := false;
    var word := "";
    var words: seq<string> := [];
    var i := 0;
    while i < |l|
      invariant 0 <= i <= |l|
      invariant Run(Start, l) == Run(Scan(openQuote, escapeOn, wordClosed, word, words), l[i..])
    {
      var x := l[i];
      ghost var before := Scan(openQuote, escapeOn, wordClosed, word, words);
      assert l[i..][1..] == l[i + 1..];
      if wordClosed {
        if IsSpace(x) {
          words := words + [word];
          word := "";
          wordClosed := false;
        } else {
          return Err(ExtraAfterQuote);
        }
      } else if escapeOn {
        if x == SingleQuote || x == DoubleQuote || x == Backslash {
          word := word + [x];
        } else {
          word := word + [Backslash, x];
        }
        escapeOn := false;
      } else if openQuote.Some? {
        if x == openQuote.value {
          openQuote := None;
          wordClosed := true;
        } else if x == Backslash {
          escapeOn := true;
        } else {
          word := word + [x];
        }
      } else {
        if IsSpace(x) {
          if word != [] {
            words := words + [word];
            word := "";
          }
        } else {
          if IsQuote(x) && word == [] {
            openQuote := Some(x);
          } else {
            word := word + [x];
          }
        }
      }
      assert Step(before, x) == Ok(Scan(openQuote, escapeOn, wordClosed, word, words));
      i := i + 1;
    }
    assert l[i..] == [];
    if openQuote.Some? {
      return Err(UnclosedQuote);
    }
    if escapeOn {
      return Err(TrailingBackslash);
    }
    if word != [] {
      words := words + [word];
      word := "";
    }
    return Ok(words);
  }

  // ---------------------------------------------------------------------
  // Properties of the tokenizer

  /** A state the loop can be in: an escape is only ever pending inside a
      quote, and a closed word has no quote open. */
  predicate Reachable(st: Scan) {
    (st.escape ==> st.quote.Some? && !st.closed) && (st.closed ==> st.quote.None?)
  }

  lemma {:induction false} RunKeepsReachable(st: Scan, s: string)
    requires Reachable(st)
    ensures Run(st, s).Ok? ==> Reachable(Run(st, s).value)
    decreases |s|
  {
    if s != [] {
      var n := Step(st, s[0]);
      if n.Ok? {
        RunKeepsReachable(n.value, s[1..]);
      }
    }
  }

  /** The "trailing backslash" error can never be raised: a pending escape
      implies an open quote, and that is reported first. */
  lemma TrailingBackslashUnreachable(line: string)
    ensures Tokenize(line) != Err(TrailingBackslash)
  {
    var l := Strip(line);
    if HasQuote(l) {
      RunKeepsReachable(Start, l);
      var r := Run(Start, l);
      RunErrors(Start, l);
      if r.Ok? {
        assert Reachable(r.value);
        assert Tokenize(line) == Finish(r.value);
      }
    }
  }

  /** The three errors, as the source raises them, and nothing else: the
      tokenizer fails exactly when the loop hits a non-space after a closing
      quote, or the line ends inside a quote. */
  lemma TokenizeErrors(line: string)
    ensures Tokenize(line) == Err(UnclosedQuote) <==>
      HasQuote(Strip(line)) && Run(Start, Strip(line)).Ok? && Run(Start, Strip(line)).value.quote.Some?
    ensures Tokenize(line) == Err(ExtraAfterQuote) <==>
      HasQuote(Strip(line)) && Run(Start, Strip(line)) == Err(ExtraAfterQuote)
  {
    var l := Strip(line);
    if HasQuote(l) {
      assert Tokenize(line) == Resume(Start, l);
      ResumeErrors(l);
    } else {
      assert Tokenize(line).Ok?;
    }
  }

  /** After the loop, an unclosed quote is reported when the loop ends
      inside one; the only error of the loop itself is an extra character. */
  lemma ResumeErrors(l: string)
    ensures Resume(Start, l) == Err(UnclosedQuote) <==> Run(Start, l).Ok? && Run(Start, l).value.quote.Some?
    ensures Resume(Start, l) == Err(ExtraAfterQuote) <==> Run(Start, l) == Err(ExtraAfterQuote)
  {
    var r := Run(Start, l);
    if r.Err? {
      RunErrors(Start, l);
    }
  }

  /** The loop itself only ever fails on extra characters after a quote. */
  lemma {:induction false} RunErrors(st: Scan, s: string)
    ensures Run(st, s).Err? ==> Run(st, s).error == ExtraAfterQuote
    decreases |s|
  {
    if s != [] {
      var n := Step(st, s[0]);
      if n.Ok? {
        RunErrors(n.value, s[1..]);
      }
    }
  }

  /** A word of `s` with no whitespace and a non-empty head: `split()` of
      `w + t` is `w` followed by the split of `t`, when `t` begins at a gap. */
  lemma SplitAfterWord(w: string, t: string)
    requires w != [] && !HasSpace(w)
    requires t == [] || IsSpace(t[0])
    ensures Split(w + t) == [w] + Split(t)
  {
    var s := w + t;
    WordLengthOf(w, t);
    assert !IsSpace(s[0]) by { assert s[0] == w[0]; }
    assert s[..|w|] == w;
    assert s[|w|..] == t;
  }

  /** Words without whitespace joined by single spaces split back into the
      same words. */
  lemma {:induction false} SplitJoined(ws: seq<string>)
    requires forall k :: 0 <= k < |ws| ==> ws[k] != [] && !HasSpace(ws[k])
    ensures Split(Join(ws, " ")) == ws
  {
    if |ws| == 1 {
      SplitAfterWord(ws[0], "");
      assert ws[0] + "" == ws[0];
    } else if |ws| > 1 {
      var rest := Join(ws[1..], " ");
      SplitJoined(ws[1..]);
      assert Split(" " + rest) == Split(rest) by {
        assert (" " + rest)[1..] == rest;
      }
      SplitAfterWord(ws[0], " " + rest);
      assert Join(ws, " ") == ws[0] + (" " + rest);
      assert ws == [ws[0]] + ws[1..];
    }
  }

  /** A first word followed by a space and an argument that starts with a
      non-space character splits into those two. */
  lemma SplitOnceWord(verb: string, arg: string)
    requires verb != [] && !HasSpace(verb) && arg != [] && !IsSpace(arg[0])
    ensures SplitOnce(verb + " " + arg) == [verb, arg]
  {
    var s := verb + " " + arg;
    assert s == verb + (" " + arg);
    assert LStrip(s) == s by {
      assert s[0] == verb[0];
    }
    WordLengthOf(verb, " " + arg);
    assert s[..|verb|] == verb;
    assert s[|verb|..] == " " + arg;
    assert LStrip(" " + arg) == arg by {
      assert (" " + arg)[1..] == arg;
    }
  }

  lemma {:induction false} WordLengthOf(w: string, t: string)
    requires !HasSpace(w)
    requires t == [] || IsSpace(t[0])
    ensures WordLength(w + t) == |w|
    decreases |w|
  {
    if w == [] {
      assert w + t == t;
    } else {
      assert (w + t)[1..] == w[1..] + t;
      assert !IsSpace(w[0]);
      assert !HasSpace(w[1..]) by {
        forall i | 0 <= i < |w[1..]| ensures !IsSpace(w[1..][i]) {
          assert w[1..][i] == w[i + 1];
        }
      }
      WordLengthOf(w[1..], t);
    }
  }

  /** A step that succeeds can be taken out of `Resume`. */
  lemma ResumeStep(st: Scan, s: string)
    requires s != [] && Step(st, s[0]).Ok?
    ensures Resume(st, s) == Resume(Step(st, s[0]).value, s[1..])
  {
  }

  /** Outside quotes, on a quote-free input, the loop accumulates exactly the
      words of `split()`. */
  lemma {:induction false} PlainRunIsSplit(w: string, ws: seq<string>, s: string)
    requires !HasSpace(w) && !HasQuote(s)
    ensures Resume(Scan(None, false, false, w, ws), s) == Ok(ws + Split(w + s))
    decreases |s|
  {
    var st := Scan(None, false, false, w, ws);
    if s == [] {
      assert Resume(st, s) == Finish(st);
      PlainEnd(w, ws);
      assert w + s == w;
    } else {
      var x := s[0];
      assert !IsQuote(x);
      assert !HasQuote(s[1..]) by {
        forall i | 0 <= i < |s[1..]| ensures !IsQuote(s[1..][i]) {
          assert s[1..][i] == s[i + 1];
        }
      }
      if IsSpace(x) {
        var next := if w != [] then Scan(None, false, false, "", ws + [w]) else st;
        assert Step(st, x) == Ok(next);
        ResumeStep(st, s);
        PlainRunIsSplit("", next.words, s[1..]);
        assert "" + s[1..] == s[1..];
        SplitAtGap(w, ws, s);
      } else {
        var w' := w + [x];
        assert Step(st, x) == Ok(Scan(None, false, false, w', ws));
        ResumeStep(st, s);
        NoSpaceExtend(w, x);
        PlainRunIsSplit(w', ws, s[1..]);
        assert w' + s[1..] == w + s;
      }
    }
  }

  lemma PlainEnd(w: string, ws: seq<string>)
    requires !HasSpace(w)
    ensures Finish(Scan(None, false, false, w, ws)) == Ok(ws + Split(w))
  {
    assert Split([]) == [];
    if w != [] {
      SplitAfterWord(w, []);
      assert w + [] == w;
      assert Split(w) == [w];
    } else {
      assert ws + [] == ws;
    }
  }

  lemma NoSpaceExtend(w: string, x: char)
    requires !HasSpace(w) && !IsSpace(x)
    ensures !HasSpace(w + [x])
  {
    forall i | 0 <= i < |w + [x]| ensures !IsSpace((w + [x])[i]) {
      if i < |w| { assert (w + [x])[i] == w[i]; }
    }
  }

  /** At a whitespace character the pending word, if any, is complete. */
  lemma SplitAtGap(w: string, ws: seq<string>, s: string)
    requires !HasSpace(w) && s != [] && IsSpace(s[0])
    ensures ws + Split(w + s) == (if w != [] then ws + [w] else ws) + Split(s[1..])
  {
    assert Split(s) == Split(s[1..]);
    if w != [] {
      SplitAfterWord(w, s);
    } else {
      assert w + s == s;
    }
  }

  /** A line with no quote character tokenizes as a plain whitespace split,
      and the character loop would have produced the very same words: the
      fast path of `_line_to_words` is only a shortcut. */
  lemma QuoteFreeIsSplit(line: string)
    requires !HasQuote(Strip(line))
    ensures Tokenize(line) == Ok(Split(Strip(line)))
    ensures Resume(Start, Strip(line)) == Ok(Split(Strip(line)))
  {
    QuoteFreeRun(Strip(line));
  }

  lemma QuoteFreeRun(l: string)
    requires !HasQuote(l)
    ensures Resume(Start, l) == Ok(Split(l))
  {
    PlainRunIsSplit("", [], l);
    assert "" + l == l;
    assert [] + Split(l) == Split(l);
  }

  /** With or without quotes, `_line_to_words` is the character loop over
      the stripped line. */
  lemma TokenizeIsLoop(line: string)
    ensures Tokenize(line) == Resume(Start, Strip(line))
  {
    if !HasQuote(Strip(line)) {
      QuoteFreeIsSplit(line);
    }
  }

  /** Outside quotes, a quote character inside a word is an ordinary
      character; only at the start of a word does it open a quote. */
  lemma MidWordQuoteIsLiteral(st: Scan, x: char)
    requires st.quote.None? && !st.escape && !st.closed && IsQuote(x)
    ensures st.word != [] ==> Step(st, x) == Ok(st.(word := st.word + [x]))
    ensures st.word == [] ==> Step(st, x) == Ok(st.(quote := Some(x)))
  {
  }

  /** Inside a quote, a backslash escapes only a quote character or a
      backslash; before any other character both are kept. */
  lemma EscapeInsideQuote(st: Scan, x: char)
    requires st.quote.Some? && IsQuote(st.quote.value) && !st.closed && !st.escape
    ensures Step(st, Backslash).Ok? && Step(st, Backslash).value.escape
    ensures var e := Step(st, Backslash).value;
      Step(e, x) == Ok(if x == SingleQuote || x == DoubleQuote || x == Backslash
                        then st.(word := st.word + [x])
                        else st.(word := st.word + [Backslash, x]))
  {
  }

  /** Outside quotes a backslash is an ordinary character. */
  lemma BackslashOutsideQuote(st: Scan)
    requires st.quote.None? && !st.escape && !st.closed
    ensures Step(st, Backslash) == Ok(st.(word := st.word + [Backslash]))
  {
  }

  // ---------------------------------------------------------------------
  // Writing words back: `_words_to_line`

  /** The three replacements made on one backslash-free segment of a word:
      `\'` becomes `\\'`, then `\"` becomes `\\"`, then `'` becomes `\'`. */
  function EscapeSegment(seg: string): string {
    var a := ReplacePair(seg, Backslash, SingleQuote, [Backslash, Backslash, SingleQuote]);
    var b := ReplacePair(a, Backslash, DoubleQuote, [Backslash, Backslash, DoubleQuote]);
    ReplaceChar(b, SingleQuote, [Backslash, SingleQuote])
  }

  /** `EscapeSegment` applied to every segment, in place. */
  function EscapeSegments(segs: seq<string>): (r: seq<string>)
    ensures |r| == |segs|
    ensures forall k :: 0 <= k < |segs| ==> r[k] == EscapeSegment(segs[k])
  {
    if segs == [] then [] else [EscapeSegment(segs[0])] + EscapeSegments(segs[1..])
  }

  /** A word holding whitespace, before it is quoted: cut at every doubled
      backslash, each segment escaped, and the segments joined again with a
      doubled pair of doubled backslashes. */
  function EscapeWord(w: string): string {
    Join(EscapeSegments(SplitPairs(w, Backslash)), [Backslash, Backslash, Backslash, Backslash])
  }

  /** One word as written: a word with whitespace is escaped and put in
      single quotes, and must not then end with a backslash (the source
      asserts this); any other word is written as it is. */
  function RenderWord(w: string): Option<string> {
    if HasSpace(w) then
      var e := EscapeWord(w);
      if e != [] && Last(e) == Backslash then None else Some([SingleQuote] + e + [SingleQuote])
    else Some(w)
  }

  predicate AllRender(ws: seq<string>) {
    forall k :: 0 <= k < |ws| ==> RenderWord(ws[k]).Some?
  }

  function RenderedWords(ws: seq<string>): (r: seq<string>)
    requires AllRender(ws)
    ensures |r| == |ws|
    ensures forall k :: 0 <= k < |ws| ==> r[k] == RenderWord(ws[k]).value
  {
    if ws == [] then [] else [RenderWord(ws[0]).value] + RenderedWords(ws[1..])
  }

  /** `_words_to_line(ws)`: the written words separated by single spaces;
      `None` when the assertion on a written word fails. */
  function Render(ws: seq<string>): Option<string> {
    if AllRender(ws) then Some(Join(RenderedWords(ws), " ")) else None
  }

  /** `_words_to_line`, as the loops it is: each word is written in turn,
      and the written words are joined by single spaces. */
  method WordsToLine(words: seq<string>) returns (r: Option<string>)
    ensures r == Render(words)
  {
    var written: seq<string> := [];
    var j := 0;
    while j < |words|
      invariant 0 <= j <= |words|
      invariant |written| == j
      invariant forall k :: 0 <= k < j ==> RenderWord(words[k]) == Some(written[k])
    {
      var word := WriteWord(words[j]);
      if word.None? {
        return None;
      }
      written := written + [word.value];
      j := j + 1;
    }
    assert AllRender(words);
    assert written == RenderedWords(words);
    return Some(Join(written, " "));
  }

  /** The body of the word loop of `_words_to_line`: a word holding
      whitespace has its segments escaped in place in a buffer, joined
      again and quoted; a word ending in a lone backslash cannot be
      written. */
  method WriteWord(w: string) returns (r: Option<string>)
    ensures r == RenderWord(w)
  {
    if !HasSpace(w) {
      return Some(w);
    }
    var segs := SplitPairs(w, Backslash);
    var tmp := new string[|segs|](k requires 0 <= k < |segs| => segs[k]);
    assert tmp[..] == segs;
    EscapeAll(tmp);
    var e := Join(tmp[..], [Backslash, Backslash, Backslash, Backslash]);
    if e != [] && Last(e) == Backslash {
      return None;
    }
    return Some([SingleQuote] + e + [SingleQuote]);
  }

  /** The inner loop of `_words_to_line`: every segment in the buffer is
      escaped in place. */
  method EscapeAll(a: array<string>)
    modifies a
    ensures a[..] == EscapeSegments(old(a[..]))
  {
    var i := 0;
    while i < a.Length
      invariant 0 <= i <= a.Length
      invariant forall k :: 0 <= k < i ==> a[k] == EscapeSegment(old(a[k]))
      invariant forall k :: i <= k < a.Length ==> a[k] == old(a[k])
    {
      a[i] := EscapeSegment(a[i]);
      i := i + 1;
    }
  }
}
