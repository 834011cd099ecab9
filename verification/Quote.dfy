/** Quoting arguments for the device's shell, and reading the result as a POSIX shell does
    (POSIX Shell Command Language, IEEE Std 1003.1, sections 2.2.1 to 2.2.3 and 2.3). The
    reader refuses whatever would make the shell do more than take words: expansions,
    operators, patterns and comments outside quotes, and expansions in double quotes. */
module Quote {
  import opened Common

  datatype QChar = QChar(c: char, quoted: bool)

  type QWord = seq<QChar>

  datatype Mode = Plain | Single | Double

  /** Characters that mean something to the shell when they are not quoted (section 2.2). */
  predicate Special(c: char) {
    c in {'|', '&', ';', '<', '>', '(', ')', '$', '`', '\\', '"', '\'', ' ', '\t', '\n',
          '*', '?', '[', '#', '~', '=', '%', '!', '{', '}'}
  }

  predicate Blank(c: char) {
    c == ' ' || c == '\t'
  }

  function Open(word: Option<QWord>): QWord {
    if word.Some? then word.value else []
  }

  function Close(word: Option<QWord>, done: seq<QWord>): seq<QWord> {
    if word.Some? then done + [word.value] else done
  }

  /** The words of s, after those done and with word open; None where the shell would do
      more than take words, or a quote is left open. */
  function Read(s: string, mode: Mode, word: Option<QWord>, done: seq<QWord>): Option<seq<QWord>>
    decreases |s|
  {
    if s == "" then (if mode.Plain? then Some(Close(word, done)) else None)
    else
      var c, rest, w := s[0], s[1..], Open(word);
      match mode
      case Plain =>
        if c == '\'' then Read(rest, Single, Some(w), done)
        else if c == '"' then Read(rest, Double, Some(w), done)
        else if Blank(c) then Read(rest, Plain, None, Close(word, done))
        else if c == '\\' then
          if rest == "" then None
          else if rest[0] == '\n' then Read(rest[1..], Plain, word, done)
          else Read(rest[1..], Plain, Some(w + [QChar(rest[0], true)]), done)
        else if Special(c) then None
        else Read(rest, Plain, Some(w + [QChar(c, false)]), done)
      case Single =>
        if c == '\'' then Read(rest, Plain, Some(w), done)
        else Read(rest, Single, Some(w + [QChar(c, true)]), done)
      case Double =>
        if c == '"' then Read(rest, Plain, Some(w), done)
        else if c == '$' || c == '`' then None
        else if c == '\\' && rest != "" && rest[0] == '\n' then Read(rest[1..], Double, Some(w), done)
        else if c == '\\' && rest != "" && rest[0] in {'$', '`', '"', '\\'} then
          Read(rest[1..], Double, Some(w + [QChar(rest[0], true)]), done)
        else Read(rest, Double, Some(w + [QChar(c, true)]), done)
  }

  /** What the shell makes of a command line. */
  function Words(s: string): Option<seq<QWord>> {
    Read(s, Plain, None, [])
  }

  function Marked(s: string, quoted: bool): (r: QWord)
    ensures |r| == |s| && forall i :: 0 <= i < |s| ==> r[i] == QChar(s[i], quoted)
  {
    seq(|s|, i requires 0 <= i < |s| => QChar(s[i], quoted))
  }

  function AllQuoted(args: seq<string>): (r: seq<QWord>)
    ensures |r| == |args| && forall i :: 0 <= i < |args| ==> r[i] == Marked(args[i], true)
  {
    seq(|args|, i requires 0 <= i < |args| => Marked(args[i], true))
  }

  function AllPlain(words: seq<string>): (r: seq<QWord>)
    ensures |r| == |words| && forall i :: 0 <= i < |words| ==> r[i] == Marked(words[i], false)
  {
    seq(|words|, i requires 0 <= i < |words| => Marked(words[i], false))
  }

  // ---------- quote and quoteAll ----------

  /** A single quote ends the quoting, stands in double quotes, and begins it again. */
  const APOSTROPHE := "'\"'\"'"

  function Escaped(s: string): string {
    if s == "" then "" else (if s[0] == '\'' then APOSTROPHE else [s[0]]) + Escaped(s[1..])
  }

  function Quoted(s: string): string {
    "'" + Escaped(s) + "'"
  }

  function QuotedAll(args: seq<string>): string {
    if args == [] then "" else if |args| == 1 then Quoted(args[0]) else Quoted(args[0]) + " " + QuotedAll(args[1..])
  }

  lemma ReadOne(c: char, tail: string, w: QWord, done: seq<QWord>)
    requires c != '\''
    ensures Read([c] + tail, Single, Some(w), done) == Read(tail, Single, Some(w + [QChar(c, true)]), done)
  {
    assert ([c] + tail)[1..] == tail;
  }

  lemma ReadApostrophe(tail: string, w: QWord, done: seq<QWord>)
    ensures Read(APOSTROPHE + tail, Single, Some(w), done) == Read(tail, Single, Some(w + [QChar('\'', true)]), done)
  {
    var a, b, c, d := "\"'\"'" + tail, "'\"'" + tail, "\"'" + tail, "'" + tail;
    assert APOSTROPHE + tail == ['\''] + a && a == ['"'] + b && b == ['\''] + c && c == ['"'] + d && d == ['\''] + tail;
    assert Read(APOSTROPHE + tail, Single, Some(w), done) == Read(a, Plain, Some(w), done);
    assert Read(a, Plain, Some(w), done) == Read(b, Double, Some(w), done);
    assert Read(b, Double, Some(w), done) == Read(c, Double, Some(w + [QChar('\'', true)]), done);
    assert Read(c, Double, Some(w + [QChar('\'', true)]), done) == Read(d, Plain, Some(w + [QChar('\'', true)]), done);
  }

  lemma MoreMarked(s: string, w: QWord, quoted: bool)
    requires s != ""
    ensures (w + [QChar(s[0], quoted)]) + Marked(s[1..], quoted) == w + Marked(s, quoted)
  {}

  lemma {:induction false} ReadEscaped(s: string, tail: string, w: QWord, done: seq<QWord>)
    ensures Read(Escaped(s) + tail, Single, Some(w), done) == Read(tail, Single, Some(w + Marked(s, true)), done)
  {
    if s == "" {
      assert Escaped(s) + tail == tail && w + Marked(s, true) == w;
    } else {
      var rest := Escaped(s[1..]) + tail;
      var next := w + [QChar(s[0], true)];
      if s[0] == '\'' {
        Assoc(APOSTROPHE, Escaped(s[1..]), tail);
        ReadApostrophe(rest, w, done);
      } else {
        Assoc([s[0]], Escaped(s[1..]), tail);
        ReadOne(s[0], rest, w, done);
      }
      ReadEscaped(s[1..], tail, next, done);
      MoreMarked(s, w, true);
    }
  }

  /** A quoted argument is read as one word: that argument, every character of it quoted. */
  lemma ReadQuoted(s: string, tail: string, done: seq<QWord>)
    ensures Read(Quoted(s) + tail, Plain, None, done) == Read(tail, Plain, Some(Marked(s, true)), done)
  {
    var inner := Escaped(s) + (['\''] + tail);
    assert Quoted(s) + tail == ['\''] + inner;
    assert Read(Quoted(s) + tail, Plain, None, done) == Read(inner, Single, Some([]), done);
    ReadEscaped(s, ['\''] + tail, [], done);
    assert [] + Marked(s, true) == Marked(s, true);
    assert (['\''] + tail)[1..] == tail;
  }

  lemma ReadBlank(tail: string, w: QWord, done: seq<QWord>)
    ensures Read([' '] + tail, Plain, Some(w), done) == Read(tail, Plain, None, done + [w])
  {
    assert ([' '] + tail)[1..] == tail;
  }

  lemma {:induction false} ReadQuotedAll(args: seq<string>, done: seq<QWord>)
    ensures Read(QuotedAll(args), Plain, None, done) == Some(done + AllQuoted(args))
  {
    if args == [] {
      assert done + AllQuoted(args) == done;
    } else {
      var w := Marked(args[0], true);
      if |args| == 1 {
        assert Quoted(args[0]) + "" == Quoted(args[0]);
        ReadQuoted(args[0], "", done);
        assert done + AllQuoted(args) == done + [w];
      } else {
        var more := QuotedAll(args[1..]);
        assert " " == [' '];
        Assoc(Quoted(args[0]), [' '], more);
        ReadQuoted(args[0], [' '] + more, done);
        ReadBlank(more, w, done);
        ReadQuotedAll(args[1..], done + [w]);
        MoreQuoted(args, done);
      }
    }
  }

  /** The shell reads the quoted list as exactly the arguments, no character outside quotes. */
  lemma QuotingRoundTrips(args: seq<string>)
    ensures Words(QuotedAll(args)) == Some(AllQuoted(args))
  {
    ReadQuotedAll(args, []);
    assert [] + AllQuoted(args) == AllQuoted(args);
  }

  lemma QuotingIsInjective(a: seq<string>, b: seq<string>)
    requires QuotedAll(a) == QuotedAll(b)
    ensures a == b
  {
    QuotingRoundTrips(a);
    QuotingRoundTrips(b);
    forall i | 0 <= i < |a| ensures a[i] == b[i] {
      assert AllQuoted(a)[i] == AllQuoted(b)[i];
      assert forall k :: 0 <= k < |a[i]| ==> Marked(a[i], true)[k] == Marked(b[i], true)[k];
    }
  }

  // ---------- fixed words ----------

  predicate PlainWord(w: string) {
    w != "" && forall i :: 0 <= i < |w| ==> !Special(w[i])
  }

  /** Fixed words, each followed by a space. */
  function Fixed(words: seq<string>): string {
    if words == [] then "" else words[0] + " " + Fixed(words[1..])
  }

  lemma {:induction false} ReadLetters(w: string, tail: string, word: QWord, done: seq<QWord>)
    requires forall i :: 0 <= i < |w| ==> !Special(w[i])
    ensures Read(w + tail, Plain, Some(word), done) == Read(tail, Plain, Some(word + Marked(w, false)), done)
  {
    if w == "" {
      assert w + tail == tail && word + Marked(w, false) == word;
    } else {
      assert (w + tail)[1..] == w[1..] + tail;
      ReadLetters(w[1..], tail, word + [QChar(w[0], false)], done);
      assert word + [QChar(w[0], false)] + Marked(w[1..], false) == word + Marked(w, false);
    }
  }

  lemma ReadPlain(w: string, tail: string, done: seq<QWord>)
    requires PlainWord(w)
    ensures Read(w + tail, Plain, None, done) == Read(tail, Plain, Some(Marked(w, false)), done)
  {
    ReadLetters(w, tail, [], done);
    assert [] + Marked(w, false) == Marked(w, false);
    assert (w + tail)[0] == w[0];
  }

  lemma FixedSplits(words: seq<string>, tail: string)
    requires words != []
    ensures Fixed(words) + tail == words[0] + ([' '] + (Fixed(words[1..]) + tail))
  {
    assert " " == [' '];
    assert (words[0] + " " + Fixed(words[1..])) + tail == words[0] + ([' '] + (Fixed(words[1..]) + tail));
  }

  lemma MorePlain(words: seq<string>, done: seq<QWord>)
    requires words != []
    ensures (done + [Marked(words[0], false)]) + AllPlain(words[1..]) == done + AllPlain(words)
  {}

  lemma MoreQuoted(args: seq<string>, done: seq<QWord>)
    requires args != []
    ensures (done + [Marked(args[0], true)]) + AllQuoted(args[1..]) == done + AllQuoted(args)
  {}

  lemma {:induction false} ReadFixed(words: seq<string>, tail: string, done: seq<QWord>)
    requires forall i :: 0 <= i < |words| ==> PlainWord(words[i])
    ensures Read(Fixed(words) + tail, Plain, None, done) == Read(tail, Plain, None, done + AllPlain(words))
  {
    if words == [] {
      assert Fixed(words) + tail == tail && done + AllPlain(words) == done;
    } else {
      var w := Marked(words[0], false);
      var more := Fixed(words[1..]) + tail;
      FixedSplits(words, tail);
      ReadPlain(words[0], [' '] + more, done);
      ReadBlank(more, w, done);
      ReadFixed(words[1..], tail, done + [w]);
      MorePlain(words, done);
    }
  }

  /** A fixed beginning followed by quoted arguments expands to the fixed words and then
      exactly the arguments. */
  lemma CommandReads(fixed: seq<string>, args: seq<string>)
    requires forall i :: 0 <= i < |fixed| ==> PlainWord(fixed[i])
    ensures Words(Fixed(fixed) + QuotedAll(args)) == Some(AllPlain(fixed) + AllQuoted(args))
  {
    ReadFixed(fixed, QuotedAll(args), []);
    assert [] + AllPlain(fixed) == AllPlain(fixed);
    ReadQuotedAll(args, AllPlain(fixed));
  }

  /** Fixed words alone, the last without a space behind it. */
  lemma ReadClosing(front: seq<string>, last: string, done: seq<QWord>)
    requires PlainWord(last) && forall i :: 0 <= i < |front| ==> PlainWord(front[i])
    ensures Read(Fixed(front) + last, Plain, None, done) == Some(done + AllPlain(front + [last]))
  {
    ReadFixed(front, last, done);
    ReadPlain(last, "", done + AllPlain(front));
    assert last + "" == last;
    assert AllPlain(front + [last]) == AllPlain(front) + [Marked(last, false)];
    Assoc(done, AllPlain(front), [Marked(last, false)]);
  }

  /** One argument between fixed words. */
  lemma SandwichReads(fixed: seq<string>, arg: string, front: seq<string>, last: string)
    requires forall i :: 0 <= i < |fixed| ==> PlainWord(fixed[i])
    requires PlainWord(last) && forall i :: 0 <= i < |front| ==> PlainWord(front[i])
    ensures Words(Fixed(fixed) + (Quoted(arg) + ([' '] + (Fixed(front) + last)))) ==
            Some(AllPlain(fixed) + AllQuoted([arg]) + AllPlain(front + [last]))
  {
    var more := [' '] + (Fixed(front) + last);
    ReadFixed(fixed, Quoted(arg) + more, []);
    assert [] + AllPlain(fixed) == AllPlain(fixed);
    ReadQuoted(arg, more, AllPlain(fixed));
    ReadBlank(Fixed(front) + last, Marked(arg, true), AllPlain(fixed));
    assert AllQuoted([arg]) == [Marked(arg, true)];
    ReadClosing(front, last, AllPlain(fixed) + AllQuoted([arg]));
  }

  /** strings.ReplaceAll and the surrounding quotes, as the source builds them. */
  method QuoteAll(args: seq<string>) returns (r: string)
    ensures r == QuotedAll(args)
  {
    var out := new string[|args|](_ => "");
    for i := 0 to |args|
      invariant forall k :: 0 <= k < i ==> out[k] == Quoted(args[k])
    {
      out[i] := Quoted(args[i]);
    }
    r := "";
    var i := |args|;
    while i > 0
      invariant 0 <= i <= |args| && r == QuotedAll(args[i..])
    {
      i := i - 1;
      assert args[i..][0] == args[i] && args[i..][1..] == args[i + 1..];
      r := if i + 1 == |args| then out[i] else out[i] + " " + r;
    }
    assert args[0..] == args;
  }
}
