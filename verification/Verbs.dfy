/** The structured verbs: each turns its arguments into one shell command, or refuses. */
module Verbs {
  import opened Common
  import opened Quote

  datatype Command = Command(line: string) | Refused

  // ---------- strconv.Atoi ----------

  const MAX_INT64: int := 0x7fff_ffff_ffff_ffff

  predicate Digits(s: string) {
    forall i :: 0 <= i < |s| ==> '0' <= s[i] <= '9'
  }

  function Value(s: string): int
    requires Digits(s)
  {
    if s == "" then 0 else 10 * Value(s[..|s| - 1]) + (s[|s| - 1] as int - '0' as int)
  }

  /** An optional sign, digits, and a value within 64 bits. */
  predicate IsInt(s: string) {
    var signed := s != "" && (s[0] == '-' || s[0] == '+');
    var d := if signed then s[1..] else s;
    d != "" && Digits(d) && (Value(d) <= MAX_INT64 || (signed && s[0] == '-' && Value(d) == MAX_INT64 + 1))
  }

  predicate AllInts(args: seq<string>) {
    forall i :: 0 <= i < |args| ==> IsInt(args[i])
  }

  // ---------- the verbs ----------

  const LAUNCHER := "android.intent.category.LAUNCHER"

  function Screenshot(args: seq<string>): Command {
    if |args| != 0 then Refused else Command("/system/bin/screencap -p")
  }

  function Input(args: seq<string>): Command {
    if |args| == 0 then Refused
    else if args[0] == "tap" && (|args| != 3 || !AllInts(args[1..])) then Refused
    else if args[0] == "swipe" && ((|args| != 5 && |args| != 6) || !AllInts(args[1..])) then Refused
    else if args[0] == "text" && |args| != 2 then Refused
    else if args[0] == "key" && |args| != 2 then Refused
    else if args[0] !in {"tap", "swipe", "text", "key"} then Refused
    else Command("/system/bin/input " + QuotedAll(args))
  }

  function App(args: seq<string>): Command {
    if |args| == 0 then Refused
    else
      var sub, rest := args[0], args[1..];
      if sub == "list" then Command("/system/bin/pm list packages " + QuotedAll(rest))
      else if |rest| != 1 then Refused
      else if sub == "info" then Command("/system/bin/dumpsys package " + Quoted(rest[0]))
      else if sub == "install" then Command("/system/bin/pm install -r " + Quoted(rest[0]))
      else if sub == "uninstall" then Command("/system/bin/pm uninstall " + Quoted(rest[0]))
      else if sub == "start" then
        Command("/system/bin/monkey -p " + Quoted(rest[0]) + (" -c " + LAUNCHER + " 1"))
      else if sub == "stop" then Command("/system/bin/am force-stop " + Quoted(rest[0]))
      else if sub == "clear" then Command("/system/bin/pm clear " + Quoted(rest[0]))
      else Refused
  }

  function Settings(args: seq<string>): Command {
    if |args| < 3 || args[1] !in {"system", "secure", "global"} then Refused
    else if args[0] == "get" then (if |args| != 3 then Refused else Command("/system/bin/settings " + QuotedAll(args)))
    else if args[0] == "put" then (if |args| != 4 then Refused else Command("/system/bin/settings " + QuotedAll(args)))
    else Refused
  }

  function Prop(args: seq<string>): Command {
    if |args| == 0 then Refused
    else if args[0] == "get" then
      (if |args| > 2 then Refused else Command("/system/bin/getprop " + QuotedAll(args[1..])))
    else if args[0] == "set" then
      (if |args| != 3 then Refused else Command("/system/bin/setprop " + QuotedAll(args[1..])))
    else Refused
  }

  function Logcat(args: seq<string>): Command {
    if "-f" in args then Refused
    else if |args| == 0 then Command("/system/bin/logcat -d -v time -t 200")
    else Command("/system/bin/logcat " + QuotedAll(args))
  }

  datatype Verb = ScreenshotVerb | InputVerb | AppVerb | SettingsVerb | PropVerb | LogcatVerb

  function Build(v: Verb, args: seq<string>): Command {
    match v
    case ScreenshotVerb => Screenshot(args)
    case InputVerb => Input(args)
    case AppVerb => App(args)
    case SettingsVerb => Settings(args)
    case PropVerb => Prop(args)
    case LogcatVerb => Logcat(args)
  }

  /** What each verb takes. */
  predicate Usage(v: Verb, args: seq<string>) {
    match v
    case ScreenshotVerb => args == []
    case InputVerb =>
      args != [] &&
      ((args[0] == "tap" && |args| == 3 && AllInts(args[1..]))
       || (args[0] == "swipe" && |args| in {5, 6} && AllInts(args[1..]))
       || (args[0] in {"text", "key"} && |args| == 2))
    case AppVerb =>
      args != [] &&
      (args[0] == "list"
       || (args[0] in {"info", "install", "uninstall", "start", "stop", "clear"} && |args| == 2))
    case SettingsVerb =>
      |args| >= 3 && args[1] in {"system", "secure", "global"}
      && ((args[0] == "get" && |args| == 3) || (args[0] == "put" && |args| == 4))
    case PropVerb =>
      args != [] && ((args[0] == "get" && |args| <= 2) || (args[0] == "set" && |args| == 3))
    case LogcatVerb => "-f" !in args
  }

  /** It is refused exactly when it is given anything else. */
  lemma RefusedExactly(v: Verb, args: seq<string>)
    ensures Build(v, args).Refused? <==> !Usage(v, args)
  {}

  // ---------- what a verb's command means to the shell ----------

  /** A command's own words around the caller's. */
  datatype Meaning = Meaning(before: seq<string>, theirs: seq<string>, after: seq<string>)

  function Expanded(m: Meaning): seq<QWord> {
    AllPlain(m.before) + AllQuoted(m.theirs) + AllPlain(m.after)
  }

  /** The program, its fixed options, and which of the caller's words it is given. */
  function MeaningOf(v: Verb, args: seq<string>): Meaning {
    match v
    case ScreenshotVerb => Meaning(["/system/bin/screencap"], [], ["-p"])
    case InputVerb => Meaning(["/system/bin/input"], args, [])
    case SettingsVerb => Meaning(["/system/bin/settings"], args, [])
    case LogcatVerb =>
      if args == [] then Meaning(["/system/bin/logcat"], [], ["-d", "-v", "time", "-t", "200"])
      else Meaning(["/system/bin/logcat"], args, [])
    case PropVerb =>
      var rest := if args == [] then [] else args[1..];
      Meaning([if args != [] && args[0] == "get" then "/system/bin/getprop" else "/system/bin/setprop"], rest, [])
    case AppVerb =>
      var sub, rest := if args == [] then "" else args[0], if args == [] then [] else args[1..];
      if sub == "list" then Meaning(["/system/bin/pm", "list", "packages"], rest, [])
      else if sub == "info" then Meaning(["/system/bin/dumpsys", "package"], rest, [])
      else if sub == "install" then Meaning(["/system/bin/pm", "install", "-r"], rest, [])
      else if sub == "uninstall" then Meaning(["/system/bin/pm", "uninstall"], rest, [])
      else if sub == "start" then
        Meaning(["/system/bin/monkey", "-p"], rest, ["-c", LAUNCHER, "1"])
      else if sub == "stop" then Meaning(["/system/bin/am", "force-stop"], rest, [])
      else Meaning(["/system/bin/pm", "clear"], rest, [])
  }

  /** The line's own words, and then the caller's. */
  predicate Yields(line: string, before: seq<string>, theirs: seq<string>) {
    Words(line) == Some(Expanded(Meaning(before, theirs, [])))
  }

  lemma Reads(before: seq<string>, theirs: seq<string>, prefix: string)
    requires forall i :: 0 <= i < |before| ==> PlainWord(before[i])
    requires prefix == Fixed(before)
    ensures Yields(prefix + QuotedAll(theirs), before, theirs)
  {
    CommandReads(before, theirs);
    assert AllPlain(before) + AllQuoted(theirs) + AllPlain([]) == AllPlain(before) + AllQuoted(theirs);
  }

  // Each program's text is taken apart by itself, which keeps the proofs small.

  lemma ListReads(args: seq<string>)
    ensures Yields("/system/bin/pm list packages " + QuotedAll(args), ["/system/bin/pm", "list", "packages"], args)
  {
    Reads(["/system/bin/pm", "list", "packages"], args, "/system/bin/pm list packages ");
  }

  lemma InfoReads(args: seq<string>)
    ensures Yields("/system/bin/dumpsys package " + QuotedAll(args), ["/system/bin/dumpsys", "package"], args)
  {
    Reads(["/system/bin/dumpsys", "package"], args, "/system/bin/dumpsys package ");
  }

  lemma InstallReads(args: seq<string>)
    ensures Yields("/system/bin/pm install -r " + QuotedAll(args), ["/system/bin/pm", "install", "-r"], args)
  {
    Reads(["/system/bin/pm", "install", "-r"], args, "/system/bin/pm install -r ");
  }

  lemma UninstallReads(args: seq<string>)
    ensures Yields("/system/bin/pm uninstall " + QuotedAll(args), ["/system/bin/pm", "uninstall"], args)
  {
    Reads(["/system/bin/pm", "uninstall"], args, "/system/bin/pm uninstall ");
  }

  lemma StopReads(args: seq<string>)
    ensures Yields("/system/bin/am force-stop " + QuotedAll(args), ["/system/bin/am", "force-stop"], args)
  {
    Reads(["/system/bin/am", "force-stop"], args, "/system/bin/am force-stop ");
  }

  lemma ClearReads(args: seq<string>)
    ensures Yields("/system/bin/pm clear " + QuotedAll(args), ["/system/bin/pm", "clear"], args)
  {
    Reads(["/system/bin/pm", "clear"], args, "/system/bin/pm clear ");
  }

  lemma InputReads(args: seq<string>)
    ensures Yields("/system/bin/input " + QuotedAll(args), ["/system/bin/input"], args)
  {
    Reads(["/system/bin/input"], args, "/system/bin/input ");
  }

  lemma SettingsReads(args: seq<string>)
    ensures Yields("/system/bin/settings " + QuotedAll(args), ["/system/bin/settings"], args)
  {
    Reads(["/system/bin/settings"], args, "/system/bin/settings ");
  }

  lemma GetpropReads(args: seq<string>)
    ensures Yields("/system/bin/getprop " + QuotedAll(args), ["/system/bin/getprop"], args)
  {
    Reads(["/system/bin/getprop"], args, "/system/bin/getprop ");
  }

  lemma SetpropReads(args: seq<string>)
    ensures Yields("/system/bin/setprop " + QuotedAll(args), ["/system/bin/setprop"], args)
  {
    Reads(["/system/bin/setprop"], args, "/system/bin/setprop ");
  }

  lemma LogcatReads(args: seq<string>)
    ensures Yields("/system/bin/logcat " + QuotedAll(args), ["/system/bin/logcat"], args)
  {
    Reads(["/system/bin/logcat"], args, "/system/bin/logcat ");
  }

  lemma StartTail(w: string)
    ensures " -c " + w + " 1" == [' '] + (Fixed(["-c", w]) + "1")
  {
    assert ["-c", w][1..] == [w] && [w][1..] == [];
    assert Fixed([w]) == w + " " + Fixed([]);
    assert Fixed(["-c", w]) == "-c" + " " + Fixed([w]);
  }

  lemma PlainParts(a: string, b: string)
    requires PlainWord(a) && PlainWord(b)
    ensures PlainWord(a + b)
  {}

  lemma LauncherParts()
    ensures LAUNCHER == ("android." + "intent.") + ("category." + "LAUNCHER")
  {}

  lemma PlainPieces()
    ensures PlainWord("android.") && PlainWord("intent.") && PlainWord("category.") && PlainWord("LAUNCHER")
  {}

  lemma PlainLauncher()
    ensures PlainWord(LAUNCHER)
  {
    LauncherParts();
    PlainPieces();
    PlainFour("android.", "intent.", "category.", "LAUNCHER");
  }

  lemma PlainFour(a: string, b: string, c: string, d: string)
    requires PlainWord(a) && PlainWord(b) && PlainWord(c) && PlainWord(d)
    ensures PlainWord((a + b) + (c + d))
  {
    PlainParts(a, b);
    PlainParts(c, d);
    PlainParts(a + b, c + d);
  }

  lemma StartReads(arg: string)
    ensures Words("/system/bin/monkey -p " + Quoted(arg) + (" -c " + LAUNCHER + " 1")) ==
            Some(Expanded(Meaning(["/system/bin/monkey", "-p"], [arg], ["-c", LAUNCHER, "1"])))
  {
    PlainLauncher();
    StartWith(arg, LAUNCHER);
  }

  lemma StartWith(arg: string, w: string)
    requires PlainWord(w)
    ensures Words("/system/bin/monkey -p " + Quoted(arg) + (" -c " + w + " 1")) ==
            Some(Expanded(Meaning(["/system/bin/monkey", "-p"], [arg], ["-c", w, "1"])))
  {
    StartTail(w);
    assert "/system/bin/monkey -p " == Fixed(["/system/bin/monkey", "-p"]);
    Sandwiched("/system/bin/monkey -p ", ["/system/bin/monkey", "-p"], arg, ["-c", w], "1", " -c " + w + " 1");
    assert ["-c", w] + ["1"] == ["-c", w, "1"];
  }

  lemma Sandwiched(prefix: string, fixed: seq<string>, arg: string, front: seq<string>, last: string, after: string)
    requires forall i :: 0 <= i < |fixed| ==> PlainWord(fixed[i])
    requires PlainWord(last) && forall i :: 0 <= i < |front| ==> PlainWord(front[i])
    requires prefix == Fixed(fixed) && after == [' '] + (Fixed(front) + last)
    ensures Words(prefix + Quoted(arg) + after) == Some(Expanded(Meaning(fixed, [arg], front + [last])))
  {
    Assoc(prefix, Quoted(arg), after);
    SandwichReads(fixed, arg, front, last);
  }

  lemma AppReads(args: seq<string>)
    requires App(args).Command?
    ensures Words(App(args).line) == Some(Expanded(MeaningOf(AppVerb, args)))
  {
    var sub, rest := args[0], args[1..];
    assert |rest| == 1 ==> QuotedAll(rest) == Quoted(rest[0]) && rest == [rest[0]];
    if sub == "list" { ListReads(rest); }
    else if sub == "info" { InfoReads(rest); }
    else if sub == "install" { InstallReads(rest); }
    else if sub == "uninstall" { UninstallReads(rest); }
    else if sub == "start" { StartReads(rest[0]); }
    else if sub == "stop" { StopReads(rest); }
    else { ClearReads(rest); }
  }

  lemma BareReads(prefix: string, before: seq<string>, tail: string, front: seq<string>, last: string)
    requires PlainWord(last) && forall i :: 0 <= i < |front| ==> PlainWord(front[i])
    requires forall i :: 0 <= i < |before| ==> PlainWord(before[i])
    requires prefix == Fixed(before) && tail == Fixed(front) + last
    ensures Words(prefix + tail) == Some(Expanded(Meaning(before, [], front + [last])))
  {
    ReadFixed(before, tail, []);
    assert [] + AllPlain(before) == AllPlain(before) == AllPlain(before) + AllQuoted([]);
    ReadClosing(front, last, AllPlain(before));
  }

  lemma ScreenshotReads()
    ensures Words("/system/bin/screencap -p") == Some(Expanded(Meaning(["/system/bin/screencap"], [], ["-p"])))
  {
    assert "/system/bin/screencap " == Fixed(["/system/bin/screencap"]);
    assert "-p" == Fixed([]) + "-p" && [] + ["-p"] == ["-p"];
    BareReads("/system/bin/screencap ", ["/system/bin/screencap"], "-p", [], "-p");
    assert "/system/bin/screencap " + "-p" == "/system/bin/screencap -p";
  }

  lemma DumpOptions()
    ensures "-d -v time -t 200" == Fixed(["-d", "-v", "time", "-t"]) + "200"
  {
    assert Fixed(["-t"]) == "-t ";
    assert Fixed(["time", "-t"]) == "time -t ";
    assert Fixed(["-v", "time", "-t"]) == "-v time -t ";
    assert Fixed(["-d", "-v", "time", "-t"]) == "-d -v time -t ";
  }

  lemma DumpPlain()
    ensures PlainWord("-d") && PlainWord("-v") && PlainWord("time") && PlainWord("-t") && PlainWord("200")
    ensures PlainWord("/system/bin/logcat")
  {}

  lemma DumpLine()
    ensures "/system/bin/logcat -d -v time -t 200" == "/system/bin/logcat " + "-d -v time -t 200"
    ensures "/system/bin/logcat " == Fixed(["/system/bin/logcat"])
  {}

  lemma DumpReads()
    ensures Words("/system/bin/logcat -d -v time -t 200") ==
            Some(Expanded(Meaning(["/system/bin/logcat"], [], ["-d", "-v", "time", "-t", "200"])))
  {
    DumpOptions();
    DumpPlain();
    DumpLine();
    DumpWith("/system/bin/logcat", "-d", "-v", "time", "-t", "200", "-d -v time -t 200");
  }

  lemma DumpWith(program: string, a: string, b: string, c: string, d: string, last: string, tail: string)
    requires PlainWord(program) && PlainWord(a) && PlainWord(b) && PlainWord(c) && PlainWord(d) && PlainWord(last)
    requires tail == Fixed([a, b, c, d]) + last
    ensures Words(Fixed([program]) + tail) == Some(Expanded(Meaning([program], [], [a, b, c, d, last])))
  {
    BareReads(Fixed([program]), [program], tail, [a, b, c, d], last);
    assert [a, b, c, d] + [last] == [a, b, c, d, last];
  }

  /** Whatever the arguments, a verb that is not refused expands to its own fixed words and
      exactly the caller's, with no character of the caller's read outside quotes. */
  lemma VerbExpands(v: Verb, args: seq<string>)
    requires Build(v, args).Command?
    ensures Words(Build(v, args).line) == Some(Expanded(MeaningOf(v, args)))
  {
    match v
    case ScreenshotVerb => ScreenshotReads();
    case InputVerb => InputReads(args);
    case AppVerb => AppReads(args);
    case SettingsVerb => SettingsReads(args);
    case PropVerb =>
      if args[0] == "get" { GetpropReads(args[1..]); } else { SetpropReads(args[1..]); }
    case LogcatVerb =>
      if args == [] { DumpReads(); } else { LogcatReads(args); }
  }
}
