/** The word wrap of the generated help: greedy, counted in characters, one line per entry.
    Text is a sequence of Unicode characters. */
module Wrap {
  import opened Common

  predicate IsSpace(c: char) {
    || c == ' ' || '\t' <= c <= '\r' || c == '\U{0085}' || c == '\U{00A0}' || c == '\U{1680}'
    || '\U{2000}' <= c <= '\U{200a}' || c == '\U{2028}' || c == '\U{2029}' || c == '\U{202f}'
    || c == '\U{205f}' || c == '\U{3000}'
  }

  predicate Word(w: string) {
    w != "" && forall i :: 0 <= i < |w| ==> !IsSpace(w[i])
  }

  ghost predicate Words(s: seq<string>) {
    forall i :: 0 <= i < |s| ==> Word(s[i])
  }

  /** Where the leading word of s ends. */
  function WordEnd(s: string): (n: nat)
    ensures n <= |s| && (forall i :: 0 <= i < n ==> !IsSpace(s[i])) && (n < |s| ==> IsSpace(s[n]))
  {
    if s == "" || IsSpace(s[0]) then 0 else 1 + WordEnd(s[1..])
  }

  /** strings.Fields. */
  function Fields(s: string): (r: seq<string>)
    ensures Words(r)
    decreases |s|
  {
    if s == "" then []
    else if IsSpace(s[0]) then Fields(s[1..])
    else [s[..WordEnd(s)]] + Fields(s[WordEnd(s)..])
  }

  /** A line of words, one space between two. */
  function Text(line: seq<string>): string {
    if line == [] then "" else if |line| == 1 then line[0] else line[0] + " " + Text(line[1..])
  }

  function Texts(lines: seq<seq<string>>): (r: seq<string>)
    ensures |r| == |lines|
  {
    if lines == [] then [] else [Text(lines[0])] + Texts(lines[1..])
  }

  /** strings.Join with newlines. */
  function Join(lines: seq<string>): string {
    if lines == [] then "" else if |lines| == 1 then lines[0] else lines[0] + "\n" + Join(lines[1..])
  }

  function Concat(lines: seq<seq<string>>): seq<string> {
    if lines == [] then [] else lines[0] + Concat(lines[1..])
  }

  lemma {:induction false} TextSnoc(line: seq<string>, w: string)
    requires line != []
    ensures Text(line + [w]) == Text(line) + " " + w
  {
    if |line| > 1 {
      TextSnoc(line[1..], w);
      assert (line + [w])[1..] == line[1..] + [w];
    }
  }

  /** How far the line that starts at from, and reaches to at, is filled. */
  function Fill(words: seq<string>, from: nat, at: nat, width: int): (end: nat)
    requires from < at <= |words|
    ensures at <= end <= |words|
    decreases |words| - at
  {
    if at < |words| && |Text(words[from..at])| + 1 + |words[at]| <= width then Fill(words, from, at + 1, width) else at
  }

  function Greedy(words: seq<string>, from: nat, width: int): seq<seq<string>>
    requires from <= |words|
    decreases |words| - from
  {
    if from == |words| then []
    else
      var end := Fill(words, from, from + 1, width);
      [words[from..end]] + Greedy(words, end, width)
  }

  /** wrapPlain as a function. */
  function Wrapped(s: string, width: int): string {
    Join(Texts(Greedy(Fields(s), 0, width)))
  }

  // ---------- what wrapping promises ----------

  predicate Fits(line: seq<string>, width: int) {
    |line| >= 1 && (|line| == 1 || |Text(line)| <= width)
  }

  /** A way to break the words into lines, each within the width unless it is a single word. */
  ghost predicate Arrangement(lines: seq<seq<string>>, words: seq<string>, width: int) {
    Concat(lines) == words && forall i :: 0 <= i < |lines| ==> Fits(lines[i], width)
  }

  lemma TextGrows(words: seq<string>, from: nat, at: nat)
    requires from < at < |words|
    ensures |Text(words[from..at + 1])| == |Text(words[from..at])| + 1 + |words[at]|
  {
    assert words[from..at + 1] == words[from..at] + [words[at]];
    TextSnoc(words[from..at], words[at]);
  }

  lemma {:induction false} FillFits(words: seq<string>, from: nat, at: nat, width: int)
    requires from < at <= |words| && Fits(words[from..at], width)
    ensures Fits(words[from..Fill(words, from, at, width)], width)
    decreases |words| - at
  {
    if Fill(words, from, at, width) != at {
      TextGrows(words, from, at);
      FillFits(words, from, at + 1, width);
    }
  }

  /** The wrapped lines hold the words in order, and each is within the width or one word. */
  lemma {:induction false} GreedyArranges(words: seq<string>, from: nat, width: int)
    requires from <= |words|
    ensures Arrangement(Greedy(words, from, width), words[from..], width)
    decreases |words| - from
  {
    if from < |words| {
      var end := Fill(words, from, from + 1, width);
      FillFits(words, from, from + 1, width);
      GreedyArranges(words, end, width);
      assert words[from..] == words[from..end] + words[end..];
      assert Greedy(words, from, width)[1..] == Greedy(words, end, width);
    }
  }

  lemma {:induction false} TextLength(words: seq<string>, from: nat, at: nat, stop: nat)
    requires from < at <= stop <= |words|
    ensures |Text(words[from..at])| <= |Text(words[from..stop])|
    decreases stop - at
  {
    if at < stop {
      TextGrows(words, from, stop - 1);
      if at < stop - 1 { TextLength(words, from, at, stop - 1); }
    }
  }

  lemma {:induction false} TextStart(words: seq<string>, from: nat, later: nat, stop: nat)
    requires from <= later < stop <= |words|
    ensures |Text(words[later..stop])| <= |Text(words[from..stop])|
    decreases later - from
  {
    if from < later {
      assert words[from..stop][1..] == words[from + 1..stop];
      TextStart(words, from + 1, later, stop);
    }
  }

  /** Greedy filling reaches at least as far as any line that fits. */
  lemma {:induction false} FillReaches(words: seq<string>, from: nat, at: nat, stop: nat, width: int)
    requires from < at <= stop <= |words| && (stop == from + 1 || |Text(words[from..stop])| <= width)
    ensures Fill(words, from, at, width) >= stop
    decreases stop - at
  {
    if at < stop {
      TextGrows(words, from, at);
      TextLength(words, from, at + 1, stop);
      FillReaches(words, from, at + 1, stop, width);
    }
  }

  /** Starting no earlier than an arrangement, greedy wrapping needs no more lines. */
  lemma {:induction false} StaysAhead(words: seq<string>, from: nat, ahead: nat, lines: seq<seq<string>>, width: int)
    requires from <= ahead <= |words| && Arrangement(lines, words[from..], width)
    ensures |Greedy(words, ahead, width)| <= |lines|
    decreases |lines|
  {
    if lines == [] {
    } else if ahead < |words| {
      var stop := from + |lines[0]|;
      var rest := lines[1..];
      assert words[from..] == lines[0] + Concat(rest);
      assert words[from..stop] == lines[0] && words[stop..] == Concat(rest);
      assert forall i :: 0 <= i < |rest| ==> rest[i] == lines[i + 1];
      if ahead >= stop {
        StaysAhead(words, stop, ahead, rest, width);
      } else {
        if stop > ahead + 1 { TextStart(words, from, ahead, stop); }
        FillReaches(words, ahead, ahead + 1, stop, width);
        StaysAhead(words, stop, Fill(words, ahead, ahead + 1, width), rest, width);
      }
    }
  }

  /** No arrangement of the words under the same rule has fewer lines. */
  lemma FewestLines(words: seq<string>, lines: seq<seq<string>>, width: int)
    requires Arrangement(lines, words, width)
    ensures |Greedy(words, 0, width)| <= |lines|
  {
    assert words[0..] == words;
    StaysAhead(words, 0, 0, lines, width);
  }

  // ---------- reading a wrapped text again ----------

  lemma {:induction false} WordEndOf(w: string, rest: string)
    requires (forall i :: 0 <= i < |w| ==> !IsSpace(w[i])) && (rest == "" || IsSpace(rest[0]))
    ensures WordEnd(w + rest) == |w|
  {
    if w != "" {
      assert (w + rest)[1..] == w[1..] + rest;
      WordEndOf(w[1..], rest);
    } else {
      assert w + rest == rest;
    }
  }

  lemma FieldsWord(w: string, rest: string)
    requires Word(w) && (rest == "" || IsSpace(rest[0]))
    ensures Fields(w + rest) == [w] + Fields(rest)
  {
    WordEndOf(w, rest);
    assert (w + rest)[..|w|] == w && (w + rest)[|w|..] == rest;
  }

  lemma FieldsSpace(c: char, rest: string)
    requires IsSpace(c)
    ensures Fields([c] + rest) == Fields(rest)
  {
    assert ([c] + rest)[1..] == rest;
  }

  lemma TextSplits(line: seq<string>, rest: string)
    requires |line| > 1
    ensures Text(line) + rest == line[0] + ([' '] + (Text(line[1..]) + rest))
  {
    var a, b := line[0], Text(line[1..]);
    assert " " == [' '];
    assert (a + " " + b) + rest == a + ([' '] + (b + rest));
  }

  lemma {:induction false} FieldsText(line: seq<string>, rest: string)
    requires line != [] && Words(line) && (rest == "" || IsSpace(rest[0]))
    ensures Fields(Text(line) + rest) == line + Fields(rest)
  {
    if |line| == 1 {
      FieldsWord(line[0], rest);
      assert line == [line[0]];
    } else {
      var tail := Text(line[1..]) + rest;
      TextSplits(line, rest);
      FieldsWord(line[0], [' '] + tail);
      FieldsSpace(' ', tail);
      FieldsText(line[1..], rest);
      Front(line, Fields(rest));
    }
  }

  lemma Front(line: seq<string>, rest: seq<string>)
    requires line != []
    ensures [line[0]] + (line[1..] + rest) == line + rest
  {}

  lemma {:induction false} FieldsJoin(lines: seq<seq<string>>)
    requires forall i :: 0 <= i < |lines| ==> lines[i] != [] && Words(lines[i])
    ensures Fields(Join(Texts(lines))) == Concat(lines)
  {
    if |lines| == 1 {
      FieldsText(lines[0], "");
      assert Text(lines[0]) + "" == Text(lines[0]);
      assert lines[1..] == [];
    } else if |lines| > 1 {
      var more := Join(Texts(lines[1..]));
      assert Texts(lines)[1..] == Texts(lines[1..]);
      assert Join(Texts(lines)) == Text(lines[0]) + (['\n'] + more);
      FieldsText(lines[0], ['\n'] + more);
      FieldsSpace('\n', more);
      FieldsJoin(lines[1..]);
    }
  }

  lemma {:induction false} ConcatWords(lines: seq<seq<string>>, i: nat)
    requires Words(Concat(lines)) && i < |lines|
    ensures Words(lines[i])
  {
    var first, rest := lines[0], Concat(lines[1..]);
    assert forall k :: 0 <= k < |first| ==> first[k] == Concat(lines)[k];
    assert forall k :: 0 <= k < |rest| ==> rest[k] == Concat(lines)[|first| + k];
    if i > 0 { ConcatWords(lines[1..], i - 1); }
  }

  /** Wrapping loses and adds no word. */
  lemma WrappedKeepsWords(s: string, width: int)
    ensures Fields(Wrapped(s, width)) == Fields(s)
  {
    var words := Fields(s);
    var lines := Greedy(words, 0, width);
    GreedyArranges(words, 0, width);
    assert words[0..] == words;
    forall i | 0 <= i < |lines| ensures lines[i] != [] && Words(lines[i]) {
      assert Fits(lines[i], width);
      ConcatWords(lines, i);
    }
    FieldsJoin(lines);
  }

  lemma WrappingIsIdempotent(s: string, width: int)
    ensures Wrapped(Wrapped(s, width), width) == Wrapped(s, width)
  {
    WrappedKeepsWords(s, width);
  }

  // ---------- what strings.Fields promises ----------

  ghost predicate Blank(g: string) {
    forall i :: 0 <= i < |g| ==> IsSpace(g[i])
  }

  /** White space around and between the words, none of it missing between two. */
  ghost predicate Separates(gaps: seq<string>, words: seq<string>) {
    && |gaps| == |words| + 1 && Words(words)
    && (forall i :: 0 <= i < |gaps| ==> Blank(gaps[i]))
    && (forall i :: 0 < i < |words| ==> gaps[i] != "")
  }

  function Woven(gaps: seq<string>, words: seq<string>): string
    requires |gaps| == |words| + 1
  {
    if words == [] then gaps[0] else gaps[0] + (words[0] + Woven(gaps[1..], words[1..]))
  }

  lemma {:induction false} FieldsBlank(g: string, rest: string)
    requires Blank(g)
    ensures Fields(g + rest) == Fields(rest)
  {
    if g != "" {
      FieldsBlank(g[1..], rest);
      assert g + rest == [g[0]] + (g[1..] + rest);
      FieldsSpace(g[0], g[1..] + rest);
    } else {
      assert g + rest == rest;
    }
  }

  lemma SeparatesTail(gaps: seq<string>, words: seq<string>)
    requires Separates(gaps, words) && words != []
    ensures Separates(gaps[1..], words[1..])
    ensures var rest := Woven(gaps[1..], words[1..]); rest == "" || IsSpace(rest[0])
  {
    assert |words| > 1 ==> gaps[1] != "";
    assert Blank(gaps[1]);
  }

  lemma {:induction false} FieldsOfWoven(gaps: seq<string>, words: seq<string>)
    requires Separates(gaps, words)
    ensures Fields(Woven(gaps, words)) == words
  {
    if words == [] {
      FieldsBlank(gaps[0], "");
      assert gaps[0] + "" == gaps[0];
    } else {
      var rest := Woven(gaps[1..], words[1..]);
      SeparatesTail(gaps, words);
      FieldsBlank(gaps[0], words[0] + rest);
      FieldsWord(words[0], rest);
      FieldsOfWoven(gaps[1..], words[1..]);
    }
  }

  /** Put a blank, or a word, before a text that is taken apart. */
  lemma LongerGap(c: char, gaps: seq<string>, words: seq<string>)
    requires Separates(gaps, words) && IsSpace(c)
    ensures Separates([[c] + gaps[0]] + gaps[1..], words)
    ensures Woven([[c] + gaps[0]] + gaps[1..], words) == [c] + Woven(gaps, words)
  {
    var more := [[c] + gaps[0]] + gaps[1..];
    assert more[1..] == gaps[1..] && Blank(more[0]);
    if words == [] {
      assert more[0] == [c] + gaps[0];
    } else {
      var tail := words[0] + Woven(gaps[1..], words[1..]);
      assert ([c] + gaps[0]) + tail == [c] + (gaps[0] + tail);
    }
  }

  lemma OneMoreWord(w: string, gaps: seq<string>, words: seq<string>)
    requires Separates(gaps, words) && Word(w) && (words != [] ==> gaps[0] != "")
    ensures Separates([""] + gaps, [w] + words)
    ensures Woven([""] + gaps, [w] + words) == w + Woven(gaps, words)
  {
    assert ([""] + gaps)[1..] == gaps && ([w] + words)[1..] == words;
  }

  /** The gaps are those of the text behind its first character, or behind its first word. */
  lemma {:induction false} WovenFields(s: string) returns (gaps: seq<string>)
    ensures Separates(gaps, Fields(s)) && Woven(gaps, Fields(s)) == s
    ensures s != "" && IsSpace(s[0]) ==> gaps[0] != ""
    decreases |s|
  {
    if s == "" {
      gaps := [""];
    } else if IsSpace(s[0]) {
      var rest := WovenFields(s[1..]);
      gaps := WovenAfterBlank(s, rest);
    } else {
      var rest := WovenFields(s[WordEnd(s)..]);
      gaps := WovenAfterWord(s, rest);
    }
  }

  lemma WovenAfterBlank(s: string, rest: seq<string>) returns (gaps: seq<string>)
    requires s != "" && IsSpace(s[0]) && Separates(rest, Fields(s[1..])) && Woven(rest, Fields(s[1..])) == s[1..]
    ensures Separates(gaps, Fields(s)) && Woven(gaps, Fields(s)) == s && gaps[0] != ""
  {
    LongerGap(s[0], rest, Fields(s[1..]));
    gaps := [[s[0]] + rest[0]] + rest[1..];
    assert s == [s[0]] + s[1..];
  }

  lemma WovenAfterWord(s: string, rest: seq<string>) returns (gaps: seq<string>)
    requires s != "" && !IsSpace(s[0])
    requires var t := s[WordEnd(s)..]; Separates(rest, Fields(t)) && Woven(rest, Fields(t)) == t
    requires WordEnd(s) < |s| ==> rest[0] != ""
    ensures Separates(gaps, Fields(s)) && Woven(gaps, Fields(s)) == s
  {
    var n := WordEnd(s);
    OneMoreWord(s[..n], rest, Fields(s[n..]));
    gaps := [""] + rest;
    assert s == s[..n] + s[n..];
  }

  /** The fields of a text are the one list of words of which it consists, but for white
      space around them and between every two. */
  lemma FieldsExactly(s: string, words: seq<string>)
    ensures Fields(s) == words <==> exists gaps :: Separates(gaps, words) && Woven(gaps, words) == s
  {
    if Fields(s) == words {
      var gaps := WovenFields(s);
    } else if gaps: seq<string> :| Separates(gaps, words) && Woven(gaps, words) == s {
      FieldsOfWoven(gaps, words);
    }
  }

  // ---------- the loop ----------

  /** The lines still to come when the open line runs from from to at. */
  function Pending(words: seq<string>, from: nat, at: nat, width: int): seq<seq<string>>
    requires from < at <= |words|
  {
    var end := Fill(words, from, at, width);
    [words[from..end]] + Greedy(words, end, width)
  }

  lemma TextsCons(line: seq<string>, rest: seq<seq<string>>)
    ensures Texts([line] + rest) == [Text(line)] + Texts(rest)
  {
    assert ([line] + rest)[1..] == rest;
  }

  lemma {:induction false} TextsAppend(a: seq<seq<string>>, b: seq<seq<string>>)
    ensures Texts(a + b) == Texts(a) + Texts(b)
  {
    if a == [] {
      assert a + b == b;
    } else {
      TextsAppend(a[1..], b);
      TextsCons(a[0], a[1..] + b);
      assert a == [a[0]] + a[1..];
      Assoc([a[0]], a[1..], b);
      Assoc([Text(a[0])], Texts(a[1..]), Texts(b));
    }
  }

  /** The next word does not fit: the open line is finished. */
  lemma Break(words: seq<string>, done: seq<seq<string>>, from: nat, at: nat, width: int)
    requires from < at < |words| && |Text(words[from..at])| + 1 + |words[at]| > width
    ensures done + Pending(words, from, at, width) == (done + [words[from..at]]) + Pending(words, at, at + 1, width)
  {
    assert Fill(words, from, at, width) == at;
    assert Greedy(words, at, width) == Pending(words, at, at + 1, width);
    var line, rest := [words[from..at]], Pending(words, at, at + 1, width);
    assert done + (line + rest) == (done + line) + rest;
  }

  /** The next word fits. */
  lemma Extend(words: seq<string>, from: nat, at: nat, width: int)
    requires from < at < |words| && |Text(words[from..at])| + 1 + |words[at]| <= width
    ensures Pending(words, from, at, width) == Pending(words, from, at + 1, width)
    ensures Text(words[from..at + 1]) == Text(words[from..at]) + " " + words[at]
  {
    TextSnoc(words[from..at], words[at]);
    assert words[from..at + 1] == words[from..at] + [words[at]];
  }

  lemma TextsSnoc(done: seq<seq<string>>, line: seq<string>)
    ensures Texts(done + [line]) == Texts(done) + [Text(line)]
  {
    TextsAppend(done, [line]);
  }

  /** The finished lines, the open one, and what they are lines of. */
  ghost predicate Wrapping(words: seq<string>, width: int, lines: seq<string>, line: string,
                           done: seq<seq<string>>, from: nat, at: nat) {
    && from < at <= |words| && line == Text(words[from..at]) && lines == Texts(done)
    && done + Pending(words, from, at, width) == Greedy(words, 0, width)
  }

  lemma WrappingBreaks(words: seq<string>, width: int, lines: seq<string>, line: string,
                       done: seq<seq<string>>, from: nat, at: nat)
    requires Wrapping(words, width, lines, line, done, from, at) && at < |words| && |line| + 1 + |words[at]| > width
    ensures Wrapping(words, width, lines + [line], words[at], done + [words[from..at]], at, at + 1)
  {
    Break(words, done, from, at, width);
    TextsSnoc(done, words[from..at]);
    assert words[at..at + 1] == [words[at]];
  }

  lemma WrappingEnds(words: seq<string>, width: int, lines: seq<string>, line: string,
                     done: seq<seq<string>>, from: nat)
    requires Wrapping(words, width, lines, line, done, from, |words|)
    ensures lines + [line] == Texts(Greedy(words, 0, width))
  {
    TextsSnoc(done, words[from..|words|]);
    assert Pending(words, from, |words|, width) == [words[from..|words|]];
  }

  method WrapPlain(s: string, width: int) returns (r: string)
    ensures r == Wrapped(s, width)
  {
    var words := Fields(s);
    if |words| == 0 { return ""; }
    var lines: seq<string> := [];
    var line := words[0];
    ghost var done: seq<seq<string>>, from := [], 0;
    assert words[0..1] == [words[0]] && done + Pending(words, 0, 1, width) == Greedy(words, 0, width);
    for at := 1 to |words|
      invariant from >= 0 && Wrapping(words, width, lines, line, done, from, at)
    {
      if |line| + 1 + |words[at]| > width {
        WrappingBreaks(words, width, lines, line, done, from, at);
        done := done + [words[from..at]];
        lines := lines + [line];
        line := words[at];
        from := at;
        continue;
      }
      Extend(words, from, at, width);
      line := line + " " + words[at];
    }
    WrappingEnds(words, width, lines, line, done, from);
    r := Join(lines + [line]);
  }
}
